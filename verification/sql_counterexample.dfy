/** Why proper nesting is asked for: masking an argument that holds an unmatched
    "[" moves the commas behind it to the top level. The search for ")" does not count
    square brackets and the cut at commas does, so a call inside a call can take the
    outer call's arguments with it until its own argument is masked. */
module SqlCounterexample {
  import opened SqlLexer
  import opened SqlScanners
  import opened SqlRules
  import opened SqlNesting
  import opened SqlRedactor
  import opened SqlGuarantees
  import opened SqlMasking
  import Text

  // The text redis(1,redis(1,2,'a'['b'),'s') and what one pass makes of it.
  const LIST: seq<Token> := ["1", ",", "2", ",", "'a'", "[", "'b'"]
  const MASKED_LIST: seq<Token> := ["1", ",", "2", ",", HIDDEN]
  const UNNESTED: seq<Token> := CallWith(LIST)
  const ONE_PASS: seq<Token> := CallWith(MASKED_LIST)

  function InnerCall(list: seq<Token>): seq<Token> {
    ["redis", "("] + list + [")"] + [",", "'s'"]
  }

  function CallWith(list: seq<Token>): seq<Token> {
    ["redis", "("] + (["1", ","] + InnerCall(list)) + [")"] + []
  }

  lemma {:induction false} CloseSkip(a: seq<Token>, b: seq<Token>, d: int)
    requires "(" !in a && ")" !in a
    ensures CloseIdx(a + b, d) == if CloseIdx(b, d) < 0 then -1 else |a| + CloseIdx(b, d)
  {
    if a == [] {
      assert a + b == b;
    } else {
      assert a[0] in a && forall t :: t in a[1..] ==> t in a;
      assert (a + b)[1..] == a[1..] + b;
      CloseSkip(a[1..], b, d);
    }
  }

  /** A call to redis whose content is read from the front. */
  lemma {:induction false} RedisCall(list: seq<Token>, rest: seq<Token>)
    requires CloseIdx(list + [")"] + rest, 1) == |list|
    ensures var ts := ["redis", "("] + list + [")"] + rest;
            && IsCallHead(ts) && OpenIdx(ts) == 1 && ts[0] == "redis"
            && CallClose(ts) == 2 + |list|
            && CallArgs(ts) == Args(list)
            && ts[CallClose(ts) + 1..] == rest
  {
    hide CloseIdx, Args;
    var ts := ["redis", "("] + list + [")"] + rest;
    assert ts[1..][0] == "(" && GapLen(ts[1..]) == 0;
    assert ts[1..] == ["("] + (list + [")"] + rest);
    OpenFirst(list + [")"] + rest);
    assert Parens([]) == 0;
    assert ts[2..2 + |list|] == list;
  }

  lemma RedisMasks(args: seq<string>)
    ensures Positions("redis", args) == if |args| >= 3 then [3] else []
  {
    assert Text.ToLower("redis") == "redis";
  }

  lemma PieceCut(t: Token, r: seq<Token>)
    requires NestStep(t) == 0 && t != ","
    ensures Pieces([t, ","] + r, 0) == [[t]] + Pieces(r, 0)
  {
    var u := [","] + r;
    assert u[1..] == r && ([t, ","] + r)[1..] == u;
    assert Pieces(u, 0) == [[]] + Pieces(r, 0);
    assert ([[]] + Pieces(r, 0))[1..] == Pieces(r, 0) && [t] + [] == [t];
  }

  lemma LastPiece(last: seq<Token>)
    requires NoComma(last, 0)
    ensures Pieces(last, 0) == [last]
  {
    PiecesPast(last, [], 0);
    assert last + [] == last;
  }

  lemma ThreeArgs(t: Token, mid: seq<Token>, last: seq<Token>)
    requires NestStep(t) == 0 && t != "," && NoComma(mid, 0) && Weight(mid) == 0 && NoComma(last, 0)
    ensures Args([t, ","] + (mid + ([","] + last))) == [[t], mid, last]
  {
    hide Text.TrimSpace;
    PieceCut(t, mid + ([","] + last));
    PiecesPast(mid, [","] + last, 0);
    assert ([","] + last)[1..] == last;
    LastPiece(last);
    assert mid + [] == mid;
  }

  lemma TwoArgs(t: Token, last: seq<Token>)
    requires NestStep(t) == 0 && t != "," && NoComma(last, 0)
    ensures Args([t, ","] + last) == [[t], last]
  {
    hide Text.TrimSpace;
    PieceCut(t, last);
    LastPiece(last);
  }

  lemma {:induction false} NoCallIdle(ts: seq<Token>)
    requires forall t :: t in ts ==> t != "" && !IsIdentStart(t[0])
    ensures Redact(ts) == Redacted(ts, 0)
  {
    if ts != [] {
      assert ts[0] in ts;
      assert forall t :: t in ts[1..] ==> t in ts;
      NoCallIdle(ts[1..]);
      NotHead(ts);
    }
  }

  // ----- the two calls

  lemma InnerCloses(list: seq<Token>)
    requires "(" !in list && ")" !in list
    ensures CloseIdx(list + [")"] + [",", "'s'"], 1) == |list|
    ensures var a := ["1", ","] + InnerCall(list); CloseIdx(a + [")"] + [], 1) == |a|
  {
    hide CloseIdx;
    CloserAt([",", "'s'"]);
    assert list + [")"] + [",", "'s'"] == list + ([")"] + [",", "'s'"]);
    CloseSkip(list, [")"] + [",", "'s'"], 1);
    var a := ["1", ","] + InnerCall(list);
    var t3 := [",", "'s'"] + ([")"] + []);
    CloserAt([]);
    CloseSkip([",", "'s'"], [")"] + [], 1);
    CloserDown(t3);
    CloseSkip(list, [")"] + t3, 2);
    OpenUp(list + ([")"] + t3));
    CloseSkip(["1", ",", "redis"], ["("] + (list + ([")"] + t3)), 1);
    assert a + [")"] + [] == ["1", ",", "redis"] + (["("] + (list + ([")"] + t3)));
  }

  lemma CloserAt(r: seq<Token>)
    ensures CloseIdx([")"] + r, 1) == 0
  {
  }

  lemma CloserDown(r: seq<Token>)
    ensures CloseIdx([")"] + r, 2) == if CloseIdx(r, 1) < 0 then -1 else 1 + CloseIdx(r, 1)
  {
    assert ([")"] + r)[1..] == r;
  }

  lemma OpenUp(r: seq<Token>)
    ensures CloseIdx(["("] + r, 1) == if CloseIdx(r, 2) < 0 then -1 else 1 + CloseIdx(r, 2)
  {
    assert (["("] + r)[1..] == r;
  }

  /** The tokens that are not marks. */
  lemma Leaves()
    ensures Ended(["1"]) && Ended(["2"]) && Ended(["'s'"]) && Ended(["'a'"]) && Ended(["'b'"]) && Ended([HIDDEN])
    ensures Canonical(["redis", "("])
  {
    hide IsToken, Closed, Canonical;
    WordLeaf("1");
    WordLeaf("2");
    QuotedLeaf("s");
    QuotedLeaf("a");
    QuotedLeaf("b");
    QuotedLeaf("[HIDDEN]");
    assert "'" + "s" + "'" == "'s'" && "'" + "a" + "'" == "'a'" && "'" + "b" + "'" == "'b'";
    assert "'" + "[HIDDEN]" + "'" == HIDDEN;
    RedisHead();
  }

  lemma RedisHead()
    ensures Canonical(["redis", "("])
  {
    assert WordLen("redis") == 5;
  }

  lemma WordLeaf(t: Token)
    requires |t| == 1 && IsIdentByte(t[0])
    ensures Ended([t])
  {
    WordToken(t);
  }

  lemma QuotedLeaf(x: string)
    requires '\\' !in x && '\'' !in x
    ensures Ended(["'" + x + "'"])
  {
    PlainQuoted(x);
    var t := "'" + x + "'";
    assert t[1..] == x + "'";
  }

  lemma BracketLeaf()
    ensures Ended(["'a'", "[", "'b'"])
  {
    hide TokLen, Closed;
    Leaves();
    BracketMark();
    var ts := ["'a'", "[", "'b'"];
    assert ["'a'"][0] == "'a'" && ["'b'"][0] == "'b'";
    assert Joins(ts[0], ts[1]) && Joins(ts[1], ts[2]);
  }

  lemma BracketMark()
    ensures IsToken("[") && Closed("[")
  {
  }

  lemma Shown()
    ensures Maskable("'s'") && Text.Lead("'s'") == "" == Text.Trail("'s'")
    ensures Maskable("'a'['b'") && Text.Lead("'a'['b'") == "" == Text.Trail("'a'['b'")
  {
    NothingToTrim("'s'");
    NothingToTrim("'a'['b'");
    hide Text.LeadLen, Text.TrailLen;
  }

  lemma NothingToTrim(s: string)
    requires s != "" && s[0] == '\'' == s[|s| - 1]
    ensures Text.TrimSpace(s) == s && Text.Lead(s) == "" == Text.Trail(s)
  {
    assert Text.SpaceAt(s) == 0 && Text.SpaceBefore(s) == 0;
    assert Text.LeadLen(s) == 0 && Text.TrailLen(s) == 0;
    assert s[0..] == s && s[..|s|] == s;
  }

  lemma BracketText()
    ensures Flat(["'a'", "[", "'b'"]) == "'a'['b'"
  {
    FlatCons("'a'", ["[", "'b'"]);
    FlatCons("[", ["'b'"]);
    FlatOne("'b'");
    assert ["'a'"] + (["["] + ["'b'"]) == ["'a'", "[", "'b'"];
  }

  lemma LeafText(t: Token)
    requires Ended([t])
    ensures Lex(t) == [t] && Flat([t]) == t
  {
    FlatOne(t);
    LexFlat([t]);
  }

  /** A call to redis with three arguments has the literal in the third hidden. */
  lemma RedisThree(list: seq<Token>, rest: seq<Token>, ps: seq<seq<Token>>)
    requires CloseIdx(list + [")"] + rest, 1) == |list|
    requires |ps| == 3 && Args(list) == ps && Maskable(Flat(ps[2]))
    requires RedactEach(ps) == RedactedArgs(ps, 0) && Redact(rest) == Redacted(rest, 0)
    ensures var a := Flat(ps[2]);
            Redact(["redis", "("] + list + [")"] + rest) ==
            Redacted(["redis", "("] + Commas([Lex(Flat(ps[0])), Lex(Flat(ps[1])),
                                              Lex(Text.Lead(a) + HIDDEN + Text.Trail(a))])
                     + [")"] + rest, 1)
  {
    hide Redact, Lex, Flat, Maskable, CloseIdx, Args, Text.Lead, Text.Trail, IsCallHead, OpenIdx, CallClose, CallArgs,
         RedactEach, MaskAt, Positions, Commas;
    var ts := ["redis", "("] + list + [")"] + rest;
    RedisCall(list, rest);
    var texts := Flats(ps);
    RedisMasks(texts);
    OneMask(texts);
    RedactCall(ts);
    var a := texts[2];
    var m := Text.Lead(a) + HIDDEN + Text.Trail(a);
    assert LexEach(texts[2 := m]) == [Lex(texts[0]), Lex(texts[1]), Lex(m)];
    assert ts[..2] == ["redis", "("];
  }

  lemma OneMask(texts: seq<string>)
    requires |texts| == 3 && Maskable(texts[2])
    ensures var m := Text.Lead(texts[2]) + HIDDEN + Text.Trail(texts[2]);
            MaskAt(texts, [3]) == MaskedArgs(texts[2 := m], 1)
  {
    hide Maskable, Text.Lead, Text.Trail;
    MaskedForm(texts[2]);
    assert [3][1..] == [];
  }

  /** The inner call is masked, and only it. */
  lemma InnerPass()
    ensures Redact(InnerCall(LIST)) == Redacted(InnerCall(MASKED_LIST), 1)
  {
    hide Redact, Lex, Flat, Maskable, CloseIdx, Args, Text.Lead, Text.Trail, RedactEach, Canonical, Ended, Commas;
    hide NoComma, Weight;
    var last := ["'a'", "[", "'b'"];
    var ps := [["1"], ["2"], last];
    InnerCloses(LIST);
    assert LIST == ["1", ","] + (["2"] + ([","] + last));
    FlatDepth();
    ThreeArgs("1", ["2"], last);
    NoCallIdle(["1"]);
    NoCallIdle(["2"]);
    NoCallIdle(last);
    NoCallIdle([",", "'s'"]);
    EachSame(ps);
    Leaves();
    LeafText("1");
    LeafText("2");
    LeafText(HIDDEN);
    BracketText();
    Shown();
    RedisThree(LIST, [",", "'s'"], ps);
    assert "" + HIDDEN + "" == HIDDEN;
    CommasOfThree();
  }

  lemma FlatDepth()
    ensures NoComma(["2"], 0) && Weight(["2"]) == 0 && NoComma(["'a'", "[", "'b'"], 0)
  {
  }

  lemma CommasOfThree()
    ensures Commas([["1"], ["2"], [HIDDEN]]) == MASKED_LIST
  {
    assert Commas([["2"], [HIDDEN]]) == ["2"] + [","] + [HIDDEN];
  }

  /** In the input the commas behind the inner call are below the unmatched "[". */
  lemma InputDepth()
    ensures NoComma(InnerCall(LIST), 0)
  {
    HeadDepth();
    ListDepth();
    TailDepth();
    hide NoComma, Weight;
    var x, y := LIST + [")"] + [",", "'s'"], [")", ",", "'s'"];
    assert InnerCall(LIST) == ["redis", "("] + x;
    NoCommaAppend(["redis", "("], x, 0);
    NoCommaAppend(LIST, y, 1);
    assert LIST + y == x;
  }

  lemma HeadDepth()
    ensures NoComma(["redis", "("], 0) && Weight(["redis", "("]) == 1
  {
    assert ["redis", "("][1..] == ["("];
  }

  lemma ListDepth()
    ensures NoComma(LIST, 1) && Weight(LIST) == 1
  {
    hide NoComma, Weight, NestStep;
    var a, b := ["1", ",", "2", ",", "'a'"], ["[", "'b'"];
    NoBrackets();
    DeepFlat(a);
    BracketDepth();
    assert LIST == a + b;
    NoCommaAppend(a, b, 1);
    WeightAppend(a, b);
  }

  lemma NoBrackets()
    ensures NestStep("1") == 0 && NestStep("2") == 0 && NestStep(",") == 0 && NestStep("'a'") == 0
  {
  }

  lemma BracketDepth()
    ensures NoComma(["[", "'b'"], 1) && Weight(["[", "'b'"]) == 1
  {
    var b := ["[", "'b'"];
    assert b[1..] == ["'b'"] && ["'b'"][1..] == [];
  }

  lemma TailDepth()
    ensures NoComma([")", ",", "'s'"], 2)
  {
    var y := [")", ",", "'s'"];
    assert y[1..] == [",", "'s'"] && [",", "'s'"][1..] == ["'s'"] && ["'s'"][1..] == [];
  }

  /** A call to redis with two arguments is only redacted inside them. */
  lemma RedisTwo(list: seq<Token>, ps: seq<seq<Token>>, outs: seq<seq<Token>>)
    requires CloseIdx(list + [")"] + [], 1) == |list|
    requires |ps| == |outs| == 2 && Args(list) == ps && RedactEach(ps).outs == outs
    requires Lex(Flat(outs[0])) == outs[0] && Lex(Flat(outs[1])) == outs[1]
    ensures Redact(["redis", "("] + list + [")"] + []) ==
            Redacted(["redis", "("] + Commas(outs) + [")"] + [], RedactEach(ps).count)
  {
    hide Redact, Lex, Flat, CloseIdx, Args, RedactEach, IsCallHead, OpenIdx, CallClose, CallArgs, MaskAt, Positions;
    hide Commas;
    var ts := ["redis", "("] + list + [")"] + [];
    RedisCall(list, []);
    RedactNil();
    var texts := Flats(outs);
    RedisMasks(texts);
    MaskNil(texts, []);
    RedactCall(ts);
    assert LexEach(texts) == outs;
    assert ts[..2] == ["redis", "("];
  }

  lemma FirstPass()
    ensures Redact(UNNESTED) == Redacted(ONE_PASS, 1)
  {
    hide Redact, Lex, Flat, CloseIdx, Args, RedactEach, Canonical, Commas, NoComma, Weight, InnerCall;
    var x, x' := InnerCall(LIST), InnerCall(MASKED_LIST);
    InnerCloses(LIST);
    InputDepth();
    TwoArgs("1", x);
    NoCallIdle(["1"]);
    InnerPass();
    TwoEach(["1"], x);
    OnePassCanonical();
    RedisTwo(["1", ","] + x, [["1"], x], [["1"], x']);
    TwoCommas(["1"], x');
    assert ["1"] + [","] + x' == ["1", ","] + x';
  }

  lemma TwoCommas(a: seq<Token>, b: seq<Token>)
    ensures Commas([a, b]) == a + [","] + b
  {
    assert Commas([b]) == b;
  }

  lemma TwoEach(a: seq<Token>, b: seq<Token>)
    ensures RedactEach([a, b]) == RedactedArgs([Redact(a).out, Redact(b).out], Redact(a).count + Redact(b).count)
  {
    hide Redact;
    assert [a, b][1..] == [b] && [b][1..] == [];
    assert RedactEach([b]) == RedactedArgs([Redact(b).out], Redact(b).count);
  }

  /** The token lists at hand are what their texts lex to. */
  lemma InnerCanonical(list: seq<Token>)
    requires Ended(list)
    ensures Ended(InnerCall(list))
  {
    hide Canonical, IsCallHead, OpenIdx, Closed;
    Leaves();
    NilEnded();
    var h, r := ["redis", "("], [",", "'s'"];
    RedisIsHead();
    MarkBetween([], ",", ["'s'"]);
    assert [] + [","] + ["'s'"] == r;
    HeadCanonical(h, list, r);
    assert h[..2] == h;
    var x := InnerCall(list);
    assert x == Rebuilt(h, list, r);
    LastEnded(x);
  }

  lemma CallCanonical(list: seq<Token>)
    requires Ended(list)
    ensures Canonical(CallWith(list)) && Canonical(InnerCall(list))
  {
    hide Canonical, IsCallHead, OpenIdx, Closed;
    Leaves();
    NilEnded();
    InnerCanonical(list);
    var h, x := ["redis", "("], InnerCall(list);
    RedisIsHead();
    MarkBetween(["1"], ",", x);
    var y := ["1", ","] + x;
    assert ["1"] + [","] + x == y;
    EndedAfter(["1", ","], x);
    HeadCanonical(h, y, []);
    assert h[..2] == h;
    assert CallWith(list) == Rebuilt(h, y, []);
  }

  lemma EndedAfter(a: seq<Token>, x: seq<Token>)
    requires Canonical(a + x) && Ended(x) && x != []
    ensures Ended(a + x)
  {
    assert (a + x)[|a + x| - 1] == x[|x| - 1];
  }

  lemma NilEnded()
    ensures Ended([])
  {
  }

  lemma RedisIsHead()
    ensures var h := ["redis", "("]; IsCallHead(h) && OpenIdx(h) == 1
  {
    assert ["redis", "("][1..] == ["("];
  }

  lemma LastEnded(x: seq<Token>)
    requires Canonical(x) && x != [] && x[|x| - 1] == "'s'"
    ensures Ended(x)
  {
    hide Closed;
    Leaves();
    assert ["'s'"][0] == "'s'";
  }

  lemma OnePassCanonical()
    ensures Canonical(UNNESTED) && Canonical(ONE_PASS)
    ensures Lex(Flat(["1"])) == ["1"]
    ensures Lex(Flat(InnerCall(MASKED_LIST))) == InnerCall(MASKED_LIST)
  {
    hide Canonical, Closed;
    Leaves();
    BracketLeaf();
    CommasCanonical([["1"], ["2"], ["'a'", "[", "'b'"]]);
    CommasCanonical([["1"], ["2"], [HIDDEN]]);
    CommasOfThree();
    assert LIST == Commas([["1"], ["2"], ["'a'", "[", "'b'"]]) by {
      assert Commas([["2"], ["'a'", "[", "'b'"]]) == ["2"] + [","] + ["'a'", "[", "'b'"];
    }
    CallCanonical(LIST);
    CallCanonical(MASKED_LIST);
    LexFlat(["1"]);
    LexFlat(InnerCall(MASKED_LIST));
  }

  lemma {:induction false} DeepFlat(ts: seq<Token>)
    requires forall t :: t in ts ==> NestStep(t) == 0
    ensures Weight(ts) == 0 && NoComma(ts, 1)
  {
    if ts != [] {
      assert ts[0] in ts && forall t :: t in ts[1..] ==> t in ts;
      DeepFlat(ts[1..]);
    }
  }

  lemma MaskedDepth()
    ensures Weight(MASKED_LIST) == 0 && NoComma(MASKED_LIST, 1)
  {
    DeepFlat(MASKED_LIST);
  }

  /** After the first pass the outer list has three arguments. */
  lemma OutputArgs()
    ensures var y := ["redis", "("] + MASKED_LIST + [")"];
            Args(["1", ","] + InnerCall(MASKED_LIST)) == [["1"], y, ["'s'"]]
  {
    var y := ["redis", "("] + MASKED_LIST + [")"];
    var z := MASKED_LIST + [")"];
    assert y == ["redis", "("] + z;
    NoCommaAppend(["redis", "("], z, 0);
    MaskedDepth();
    NoCommaAppend(MASKED_LIST, [")"], 1);
    WeightAppend(["redis", "("], z);
    WeightAppend(MASKED_LIST, [")"]);
    assert InnerCall(MASKED_LIST) == y + ([","] + ["'s'"]);
    ThreeArgs("1", y, ["'s'"]);
  }

  lemma {:induction false} WeightAppend(a: seq<Token>, b: seq<Token>)
    ensures Weight(a + b) == Weight(a) + Weight(b)
  {
    if a == [] {
      assert a + b == b;
    } else {
      assert (a + b)[1..] == a[1..] + b;
      WeightAppend(a[1..], b);
    }
  }

  /** A call to redis with three arguments, the third of them 's'. */
  lemma RedisMasksThird(list: seq<Token>)
    requires CloseIdx(list + [")"] + [], 1) == |list|
    requires |Args(list)| == 3 && Args(list)[2] == ["'s'"]
    ensures var r := Redact(["redis", "("] + list + [")"] + []);
            r.count > 0 && exists ms ::
              |ms| == 3 && ms[2] == [HIDDEN] && r.out == ["redis", "("] + Commas(ms) + [")"] + []
  {
    hide Redact, Lex, Flat, Maskable, CloseIdx, Args, RedactEach, Canonical, Ended, Commas, IsCallHead, OpenIdx,
         CallClose, CallArgs, MaskAt, Positions, Text.Lead, Text.Trail;
    var ts := ["redis", "("] + list + [")"] + [];
    RedisCall(list, []);
    var ps := CallArgs(ts);
    NoCallIdle(["'s'"]);
    Leaves();
    LeafText("'s'");
    LeafText(HIDDEN);
    Shown();
    EachStep(ps, 2);
    EachLength(ps);
    var texts := Flats(RedactEach(ps).outs);
    RedisMasks(texts);
    OneMask(texts);
    RedactCall(ts);
    RedactNil();
    var masked := MaskedTexts("redis", RedactEach(ps).outs);
    assert "" + HIDDEN + "" == HIDDEN;
    var ms := LexEach(masked.args);
    assert ms[2] == [HIDDEN] && ts[..2] == ["redis", "("];
  }

  lemma SecondPass()
    ensures Redact(ONE_PASS).count > 0 && Redact(ONE_PASS).out != ONE_PASS
  {
    hide Redact, CloseIdx, Args, Commas, InnerCall;
    var list := ["1", ","] + InnerCall(MASKED_LIST);
    InnerCloses(MASKED_LIST);
    OutputArgs();
    RedisMasksThird(list);
    var out := Redact(ONE_PASS).out;
    var ms :| |ms| == 3 && ms[2] == [HIDDEN] && out == ["redis", "("] + Commas(ms) + [")"] + [];
    ThirdLast(ms);
    assert out[|out| - 2] == HIDDEN;
    CallEnd();
  }

  lemma ThirdLast(ms: seq<seq<Token>>)
    requires |ms| == 3 && ms[2] == [HIDDEN]
    ensures var c := Commas(ms); c != [] && c[|c| - 1] == HIDDEN
  {
    assert ms[1..] == [ms[1], ms[2]];
    TwoCommas(ms[1], ms[2]);
    assert Commas(ms) == ms[0] + [","] + Commas(ms[1..]);
  }

  lemma CallEnd()
    ensures |ONE_PASS| >= 2 && ONE_PASS[|ONE_PASS| - 2] != HIDDEN
  {
    assert InnerCall(MASKED_LIST)[|InnerCall(MASKED_LIST)| - 1] == "'s'";
  }

  /** The first pass masks the inner argument; the outer list then has three
      arguments instead of two, and the second pass masks the third. */
  lemma SecondPassActs()
    ensures var s := Flat(UNNESTED); RedactText(RedactText(s)) != RedactText(s)
  {
    hide Redact, Lex, Flat, Canonical;
    OnePassCanonical();
    LexFlat(UNNESTED);
    LexFlat(ONE_PASS);
    FirstPass();
    SecondPass();
    RedactCanonical(ONE_PASS);
    LexFlat(Redact(ONE_PASS).out);
  }
}
