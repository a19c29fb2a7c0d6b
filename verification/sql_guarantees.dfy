/** What the pass leaves, and when a second one is idle. */
module SqlGuarantees {
  import opened SqlLexer
  import opened SqlScanners
  import opened SqlRules
  import opened SqlNesting
  import opened SqlMasking
  import opened SqlRedactor
  import Text

  // ----- the properties

  /** Every call the pass finds in ts - at top level and inside arguments - that
      closes has no literal showing at a position its rule picks, and no
      argument list of blanks only. */
  predicate Clean(ts: seq<Token>)
    decreases |ts|, 0
  {
    if ts == [] then true
    else if !IsCallHead(ts) then Clean(ts[1..])
    else if CallClose(ts) < 0 then true
    else
      var args := CallArgs(ts);
      && (args == [] ==> CallClose(ts) == OpenIdx(ts) + 1)
      && (forall i :: 0 <= i < |args| && i + 1 in Positions(ts[0], Flats(args)) ==> !Maskable(Flats(args)[i]))
      && AllClean(args)
      && Clean(ts[CallClose(ts) + 1..])
  }

  predicate AllClean(ps: seq<seq<Token>>)
    decreases Total(ps), 1 + |ps|
  {
    ps == [] || (Clean(ps[0]) && AllClean(ps[1..]))
  }

  /** Every call the pass finds, at any depth, has its ")". */
  predicate EveryCallCloses(ts: seq<Token>)
    decreases |ts|, 0
  {
    if ts == [] then true
    else if !IsCallHead(ts) then EveryCallCloses(ts[1..])
    else
      && CallClose(ts) >= 0
      && AllCallsClose(CallArgs(ts))
      && EveryCallCloses(ts[CallClose(ts) + 1..])
  }

  predicate AllCallsClose(ps: seq<seq<Token>>)
    decreases Total(ps), 1 + |ps|
  {
    ps == [] || (EveryCallCloses(ps[0]) && AllCallsClose(ps[1..]))
  }

  /** The brackets inside each top-level call that closes nest properly. */
  predicate CallsNested(ts: seq<Token>) {
    if ts == [] then true
    else if !IsCallHead(ts) then CallsNested(ts[1..])
    else if CallClose(ts) < 0 then true
    else Nested(ts[OpenIdx(ts) + 1..CallClose(ts)]) && CallsNested(ts[CallClose(ts) + 1..])
  }

  // ----- the shape of a call

  /** The call that ts begins with, its argument list replaced by j and what
      follows it by r. */
  function Rebuilt(ts: seq<Token>, j: seq<Token>, r: seq<Token>): (u: seq<Token>)
    requires ts != []
  {
    ts[..if OpenIdx(ts) < |ts| then OpenIdx(ts) + 1 else |ts|] + j + [")"] + r
  }

  lemma {:induction false} GapPrefix(a: seq<Token>, b: seq<Token>)
    requires GapLen(a) < |a| && |b| > GapLen(a) && b[..GapLen(a) + 1] == a[..GapLen(a) + 1]
    ensures GapLen(b) == GapLen(a)
  {
    assert b[0] == b[..GapLen(a) + 1][0] == a[0];
    if GapLen(a) > 0 {
      assert b[1..][..GapLen(a)] == b[..GapLen(a) + 1][1..];
      assert a[1..][..GapLen(a)] == a[..GapLen(a) + 1][1..];
      GapPrefix(a[1..], b[1..]);
    }
  }

  lemma HeadKept(ts: seq<Token>, x: seq<Token>)
    requires IsCallHead(ts)
    ensures var o := OpenIdx(ts); var u := ts[..o + 1] + x;
            IsCallHead(u) && OpenIdx(u) == o && u[0] == ts[0]
  {
    var o := OpenIdx(ts);
    var u := ts[..o + 1] + x;
    assert u[1..][..o] == ts[1..][..o];
    GapPrefix(ts[1..], u[1..]);
  }

  /** The search for ")" from the "(" of a call over a properly closed content. */
  lemma CloseOver(j: seq<Token>, r: seq<Token>)
    requires Nested(j)
    ensures CloseIdx(["("] + j + [")"] + r, 0) == 1 + |j|
  {
    var g, tail := ["("] + j + [")"] + r, [")"] + r;
    assert g[1..] == j + tail;
    assert CloseIdx(g, 0) == if CloseIdx(g[1..], 1) < 0 then -1 else CloseIdx(g[1..], 1) + 1;
    assert CloseIdx(tail, 1) == 0;
    ClosePast(j, tail, [], 1);
  }

  lemma RebuiltShape(ts: seq<Token>, j: seq<Token>, r: seq<Token>)
    requires IsCallHead(ts) && Nested(j)
    ensures var o := OpenIdx(ts); var u := Rebuilt(ts, j, r); var c := o + 1 + |j|;
            && IsCallHead(u) && OpenIdx(u) == o && u[0] == ts[0]
            && CallClose(u) == c
            && u[o + 1..c] == j && u[c + 1..] == r
  {
    hide IsCallHead, CloseIdx, Nested, OpenIdx;
    HeadShape(ts);
    var o := OpenIdx(ts);
    var u := Rebuilt(ts, j, r);
    assert u == ts[..o + 1] + (j + [")"] + r);
    HeadKept(ts, j + [")"] + r);
    assert u[o..] == ["("] + j + [")"] + r;
    CloseOver(j, r);
  }

  lemma ContentRebuilds(ts: seq<Token>)
    requires IsCallHead(ts) && CallClose(ts) >= 0
    ensures var o, c := OpenIdx(ts), CallClose(ts); ts == Rebuilt(ts, ts[o + 1..c], ts[c + 1..])
  {
  }

  /** What comes before the argument list of a call is a word, blanks and "(". */
  lemma {:induction false} HeadRun(ts: seq<Token>, st: seq<Token>, d: int)
    requires IsCallHead(ts)
    ensures var p := ts[..OpenIdx(ts) + 1];
            Run(p, st) == Expect([")"] + st) && NoComma(p, d) && Weight(p) == 1
  {
    var p := ts[..OpenIdx(ts) + 1];
    assert p[0] == ts[0] && !(ts[0] == "(" || ts[0] == ")" || ts[0] == "[" || ts[0] == "]" || ts[0] == ",") by {
      assert IsIdentStart(ts[0][0]);
    }
    assert p[1..] == ts[1..][..OpenIdx(ts)];
    GapRun(ts[1..], st, d);
  }

  lemma {:induction false} GapRun(ts: seq<Token>, st: seq<Token>, d: int)
    requires GapLen(ts) < |ts| && ts[GapLen(ts)] == "("
    ensures var p := ts[..GapLen(ts) + 1];
            Run(p, st) == Expect([")"] + st) && NoComma(p, d) && Weight(p) == 1
  {
    var p := ts[..GapLen(ts) + 1];
    if GapLen(ts) == 0 {
      assert p == ["("] && p[1..] == [];
    } else {
      assert p[0] == ts[0] && p[1..] == ts[1..][..GapLen(ts[1..]) + 1];
      GapRun(ts[1..], st, d);
    }
  }

  lemma RebuiltRun(ts: seq<Token>, j: seq<Token>, r: seq<Token>, st: seq<Token>)
    requires IsCallHead(ts) && Nested(j)
    ensures Run(Rebuilt(ts, j, r), st) == Run(r, st)
    ensures NoComma(Rebuilt(ts, j, r), |st|) <==> NoComma(r, |st|)
  {
    hide GapLen, Run, NoComma, Weight, IsCallHead;
    HeadShape(ts);
    var p, q := ts[..OpenIdx(ts) + 1], [")"] + r;
    var d := |st|;
    HeadRun(ts, st, d);
    assert Rebuilt(ts, j, r) == p + (j + q);
    RunAppend(p, j + q, st);
    RunAppend(j, q, [")"] + st);
    NestedRun(j, [")"] + st);
    NoCommaAppend(p, j + q, d);
    NoCommaAppend(j, q, d + 1);
    RunNoComma(j, [], d + 1);
    NestedRun(j, []);
    RunWeight(j, []);
    CloserStep(r, st, d);
  }

  lemma CloserStep(r: seq<Token>, st: seq<Token>, d: int)
    ensures Run([")"] + r, [")"] + st) == Run(r, st)
    ensures NoComma([")"] + r, d + 1) <==> NoComma(r, d)
  {
    assert ([")"] + r)[1..] == r && ([")"] + st)[1..] == st;
  }

  /** Without a mismatch the content of a call that closes is properly nested,
      and the run goes on behind it as before it. */
  lemma {:induction false} CallNested(ts: seq<Token>, st: seq<Token>)
    requires IsCallHead(ts) && Run(ts, st) != Mismatch
    ensures CallClose(ts) >= 0 ==>
              && Nested(ts[OpenIdx(ts) + 1..CallClose(ts)])
              && Run(ts[CallClose(ts) + 1..], st) == Run(ts, st)
    ensures Run(ts, st) == Expect([]) ==> CallClose(ts) >= 0
  {
    hide IsCallHead, CloseIdx, OpenIdx, Run;
    HeadShape(ts);
    var o, c := OpenIdx(ts), CallClose(ts);
    var p, q := ts[..o + 1], ts[o + 1..];
    assert ts == p + q;
    assert ts[o..] == ["("] + q;
    HeadRun(ts, st, 0);
    RunAppend(p, q, st);
    assert [] + [")"] + st == [")"] + st;
    CloseNested(q, [], st);
    OpenFirst(q);
    if c >= 0 {
      assert q[..c - o - 1] == ts[o + 1..c];
      ContentRebuilds(ts);
      RebuiltRun(ts, ts[o + 1..c], ts[c + 1..], st);
    }
    if Run(ts, st) == Expect([]) {
      CloseExists(q, [], st);
    }
  }

  lemma OpenFirst(q: seq<Token>)
    ensures CloseIdx(["("] + q, 0) == if CloseIdx(q, Parens([]) + 1) < 0 then -1 else CloseIdx(q, Parens([]) + 1) + 1
  {
    assert (["("] + q)[1..] == q;
  }

  /** Text without mismatched brackets, truncated or not, has nested calls. */
  lemma {:induction false} RunCallsNested(ts: seq<Token>, st: seq<Token>)
    requires Run(ts, st) != Mismatch
    ensures CallsNested(ts)
    decreases |ts|
  {
    hide IsCallHead, OpenIdx, CallClose;
    if ts == [] {
    } else if !IsCallHead(ts) {
      RunCallsNested(ts[1..], Step(ts[0], st).closers);
    } else {
      CallNested(ts, st);
      if CallClose(ts) >= 0 {
        RunCallsNested(ts[CallClose(ts) + 1..], st);
      }
    }
  }

  // ----- what the pass leaves as it is

  lemma NotHead(ts: seq<Token>)
    requires ts != [] && !IsCallHead(ts)
    ensures var r := Redact(ts[1..]); Redact(ts) == Redacted([ts[0]] + r.out, r.count)
  {
  }

  lemma RedactNil()
    ensures Redact([]) == Redacted([], 0)
  {
  }

  /** The pass rebuilds a call that closes. */
  lemma RedactRebuilds(ts: seq<Token>)
    requires IsCallHead(ts) && CallClose(ts) >= 0
    ensures var j := Commas(LexEach(MaskedTexts(ts[0], RedactEach(CallArgs(ts)).outs).args));
            Redact(ts).out == Rebuilt(ts, j, Redact(ts[CallClose(ts) + 1..]).out)
  {
    hide Redact, RedactEach, MaskedTexts, LexEach, IsCallHead, OpenIdx, CloseIdx;
    HeadShape(ts);
    RedactCall(ts);
  }

  lemma RebuiltEnds(ts: seq<Token>, j: seq<Token>, r: seq<Token>)
    requires ts != []
    ensures var u := Rebuilt(ts, j, r);
            u != [] && u[0] == ts[0] && u[|u| - 1] == if r == [] then ")" else r[|r| - 1]
  {
  }

  /** First and last token stay. */
  lemma {:induction false} EndsKept(ts: seq<Token>)
    requires ts != []
    ensures var out := Redact(ts).out; out != [] && out[0] == ts[0] && out[|out| - 1] == ts[|ts| - 1]
    decreases |ts|
  {
    hide IsCallHead, OpenIdx, CallClose, RedactEach, MaskedTexts, CallArgs, Redact, Commas, LexEach, Rebuilt;
    RedactNil();
    if !IsCallHead(ts) {
      NotHead(ts);
      if |ts| > 1 { EndsKept(ts[1..]); }
    } else if CallClose(ts) >= 0 {
      RedactRebuilds(ts);
      var c := CallClose(ts);
      var r := ts[c + 1..];
      RebuiltEnds(ts, Commas(LexEach(MaskedTexts(ts[0], RedactEach(CallArgs(ts)).outs).args)), Redact(r).out);
      if r != [] {
        EndsKept(r);
        assert r[|r| - 1] == ts[|ts| - 1];
      }
    } else {
      Truncated(ts);
    }
  }

  lemma GapNotHead(ts: seq<Token>)
    requires ts != [] && IsGap(ts[0])
    ensures !IsCallHead(ts)
  {
  }

  lemma {:induction false} GapKept(ts: seq<Token>)
    ensures var out, g := Redact(ts).out, GapLen(ts);
            && GapLen(out) == g
            && (|out| > g <==> |ts| > g)
            && (g < |ts| ==> out[g] == ts[g])
  {
    hide IsCallHead, Redact;
    var out := Redact(ts).out;
    if ts == [] {
      RedactNil();
    } else {
      EndsKept(ts);
      if IsGap(ts[0]) {
        GapNotHead(ts);
        NotHead(ts);
        GapKept(ts[1..]);
        assert out[1..] == Redact(ts[1..]).out;
      }
    }
  }

  /** A token that begins no call begins none after the pass. */
  lemma HeadLost(ts: seq<Token>)
    requires ts != [] && !IsCallHead(ts)
    ensures !IsCallHead(Redact(ts).out)
  {
    hide Redact, GapLen;
    NotHead(ts);
    GapKept(ts[1..]);
    var out := Redact(ts).out;
    assert out[1..] == Redact(ts[1..]).out;
  }

  // ----- the arguments of one call

  lemma {:induction false} TotalBound(ps: seq<seq<Token>>, i: nat)
    requires i < |ps|
    ensures |ps[i]| <= Total(ps)
  {
    if i > 0 { TotalBound(ps[1..], i - 1); }
  }

  /** The arguments of a call that closes, as tokens: slices of the text, all of
      whose tokens are terminated. */
  lemma CallArgFacts(ts: seq<Token>, i: nat)
    requires Canonical(ts) && IsCallHead(ts) && CallClose(ts) >= 0 && i < |CallArgs(ts)|
    ensures var a := CallArgs(ts)[i];
            && |a| < |ts| && Canonical(a) && Lex(Flat(a)) == a
            && forall t :: t in a ==> Closed(t)
  {
    hide IsCallHead, Pieces, Closed, Lex, Flat, Text.TrimSpace, OpenIdx, CloseIdx;
    HeadShape(ts);
    var content := ts[OpenIdx(ts) + 1..CallClose(ts)];
    var a := CallArgs(ts)[i];
    SliceCanonical(ts, OpenIdx(ts) + 1, CallClose(ts));
    ArgsLex(content);
    PiecesAreSlices(content, 0);
    assert a in CallArgs(ts) && a in Args(content) && a in Pieces(content, 0);
    TotalBound(CallArgs(ts), i);
    assert IsSlice(a, content);
  }

  /** The tokens of argument i after the pass: what the pass makes of it on its
      own, or a hidden literal between blanks. */
  function ArgsOut(ts: seq<Token>): (r: seq<seq<Token>>)
    requires IsCallHead(ts) && CallClose(ts) >= 0
    ensures |r| == |CallArgs(ts)|
  {
    EachLength(CallArgs(ts));
    LexEach(MaskedTexts(ts[0], RedactEach(CallArgs(ts)).outs).args)
  }

  lemma EachLength(ps: seq<seq<Token>>)
    ensures |RedactEach(ps).outs| == |ps|
  {
  }

  ghost predicate Hidden(m: seq<Token>) {
    m != [] && Canonical(m) && forall t :: t in m ==> Plain(t) && Closed(t)
  }

  lemma ArgOutForm(ts: seq<Token>, i: nat)
    requires IsCallHead(ts) && CallClose(ts) >= 0 && i < |CallArgs(ts)|
    requires Canonical(Redact(CallArgs(ts)[i]).out)
    ensures var m := ArgsOut(ts)[i];
            m == Redact(CallArgs(ts)[i]).out || Hidden(m)
  {
    hide IsCallHead, CallArgs, Redact, RedactEach, Lex, Flat, Maskable, Text.Lead, Text.Trail, Positions, OpenIdx;
    hide CloseIdx, CallClose, MaskAt, Plain, Closed;
    var ps := CallArgs(ts);
    var outs := RedactEach(ps).outs;
    EachStep(ps, i);
    var texts := Flats(outs);
    MaskAtForm(texts, Positions(ts[0], texts));
    var b := MaskedTexts(ts[0], outs).args[i];
    assert MaskOf(texts[i], b);
    assert ArgsOut(ts)[i] == Lex(b);
    if b == texts[i] {
      LexFlat(outs[i]);
    } else {
      MaskedTokens(texts[i]);
    }
  }

  // ----- the output is a canonical token list

  ghost predicate Ended(m: seq<Token>) {
    Canonical(m) && (m != [] ==> Closed(m[|m| - 1]))
  }

  lemma CommaJoins(t: Token)
    requires t != "" && Closed(t)
    ensures Joins(t, ",") && Joins(t, ")")
  {
  }

  lemma MarkJoins(t: Token)
    requires t != ""
    ensures Joins("(", t) && Joins(")", t) && Joins(",", t)
    ensures IsToken("(") && IsToken(")") && IsToken(",")
    ensures Closed("(") && Closed(")") && Closed(",")
  {
  }

  /** a and b with one of the marks ( ) , between them. */
  lemma MarkBetween(a: seq<Token>, t: Token, b: seq<Token>)
    requires Ended(a) && Canonical(b) && (t == "," || t == ")")
    ensures Canonical(a + [t] + b)
    ensures b == [] || Ended(b) ==> Ended(a + [t] + b)
  {
    hide Closed, Separates, TokLen, KindOf;
    MarkJoins("x");
    if a != [] { CommaJoins(a[|a| - 1]); }
    assert Canonical([t]);
    JoinCanonical(a, [t]);
    if b != [] { MarkJoins(b[0]); }
    JoinCanonical(a + [t], b);
    assert b == [] ==> (a + [t] + b)[|a|] == t;
  }

  lemma {:induction false} CommasCanonical(ps: seq<seq<Token>>)
    requires forall p :: p in ps ==> Ended(p)
    ensures Ended(Commas(ps))
  {
    hide Closed, Separates, TokLen, KindOf;
    if |ps| > 1 {
      assert ps[0] in ps;
      CommasCanonical(ps[1..]);
      MarkBetween(ps[0], ",", Commas(ps[1..]));
    } else if |ps| == 1 {
      assert ps[0] in ps;
    }
  }

  lemma HeadCanonical(ts: seq<Token>, j: seq<Token>, r: seq<Token>)
    requires Canonical(ts) && IsCallHead(ts) && Ended(j) && Canonical(r)
    ensures Canonical(Rebuilt(ts, j, r))
  {
    hide Closed, Separates, TokLen, KindOf, IsCallHead, OpenIdx;
    HeadShape(ts);
    var o := OpenIdx(ts);
    SliceCanonical(ts, 0, o + 1);
    assert ts[0..o + 1] == ts[..o + 1];
    var tail := j + [")"] + r;
    MarkBetween(j, ")", r);
    MarkJoins(tail[0]);
    JoinCanonical(ts[..o + 1], tail);
    assert Rebuilt(ts, j, r) == ts[..o + 1] + tail;
  }

  /** For every text the output of the pass, read afresh, gives the tokens the
      pass put together: masking never makes two regions run into each other. */
  lemma {:induction false} RedactCanonical(ts: seq<Token>)
    requires Canonical(ts)
    ensures Canonical(Redact(ts).out)
    decreases |ts|
  {
    hide Closed, Separates, TokLen, KindOf, IsCallHead, OpenIdx, CallClose, Redact, CallArgs, RedactEach, MaskedTexts;
    if ts == [] {
      RedactNil();
    } else if !IsCallHead(ts) {
      NotHead(ts);
      SliceCanonical(ts, 1, |ts|);
      assert ts[1..|ts|] == ts[1..];
      RedactCanonical(ts[1..]);
      if |ts| > 1 {
        EndsKept(ts[1..]);
        assert Joins(ts[0], ts[1]);
      } else {
        RedactNil();
        assert ts[1..] == [];
      }
      assert Canonical([ts[0]]);
      JoinCanonical([ts[0]], Redact(ts[1..]).out);
    } else if CallClose(ts) < 0 {
      Truncated(ts);
    } else {
      var c := CallClose(ts);
      var ps, ms := CallArgs(ts), ArgsOut(ts);
      forall i | 0 <= i < |ms| ensures Ended(ms[i]) {
        CallArgFacts(ts, i);
        RedactCanonical(ps[i]);
        ArgOutForm(ts, i);
        ArgOutEnded(ps[i], ms[i]);
      }
      CommasCanonical(ms);
      SliceCanonical(ts, c + 1, |ts|);
      assert ts[c + 1..|ts|] == ts[c + 1..];
      RedactCanonical(ts[c + 1..]);
      HeadCanonical(ts, Commas(ms), Redact(ts[c + 1..]).out);
      RedactRebuilds(ts);
    }
  }

  lemma ArgOutEnded(a: seq<Token>, m: seq<Token>)
    requires Canonical(a) && forall t :: t in a ==> Closed(t)
    requires (m == Redact(a).out && Canonical(m)) || Hidden(m)
    ensures Ended(m)
  {
    hide Closed, Redact, Plain;
    if m == Redact(a).out && m != [] {
      RedactNil();
      EndsKept(a);
      assert a[|a| - 1] in a;
    } else if m != [] {
      assert m[|m| - 1] in m;
    }
  }

  // ----- brackets and commas are kept

  lemma CallArgWhole(ts: seq<Token>, i: nat)
    requires IsCallHead(ts) && CallClose(ts) >= 0 && i < |CallArgs(ts)|
    requires Nested(ts[OpenIdx(ts) + 1..CallClose(ts)])
    ensures Whole(CallArgs(ts)[i])
  {
    hide IsCallHead, Pieces, Text.TrimSpace, OpenIdx, CloseIdx, Flat, NoComma;
    var content := ts[OpenIdx(ts) + 1..CallClose(ts)];
    var ps := Pieces(content, 0);
    PiecesNested(content, []);
    assert CallArgs(ts) == ps;
    assert i > 0 ==> ps[i] == ps[1..][i - 1];
  }

  /** Without a mismatch, the pass keeps the nesting and the top-level commas. */
  lemma {:induction false} RedactKeeps(ts: seq<Token>, st: seq<Token>)
    requires Canonical(ts) && Run(ts, st) != Mismatch
    ensures Run(Redact(ts).out, st) == Run(ts, st)
    ensures NoComma(Redact(ts).out, |st|) <==> NoComma(ts, |st|)
    decreases |ts|, 1
  {
    hide Canonical, IsCallHead, OpenIdx, CallClose, Redact, CallArgs, RedactEach, MaskedTexts, Run, NoComma, Step;
    hide Rebuilt, Commas;
    if ts == [] {
      RedactNil();
    } else if !IsCallHead(ts) {
      NotHead(ts);
      SliceCanonical(ts, 1, |ts|);
      assert ts[1..|ts|] == ts[1..] && ts == [ts[0]] + ts[1..];
      RunStep(ts, st);
      RedactKeeps(ts[1..], Step(ts[0], st).closers);
      StepKeeps(ts[0], Redact(ts[1..]).out, ts[1..], st);
    } else if CallClose(ts) < 0 {
      Truncated(ts);
    } else {
      var o, c := OpenIdx(ts), CallClose(ts);
      CallNested(ts, st);
      ArgsOutWhole(ts);
      RedactRebuilds(ts);
      SliceCanonical(ts, c + 1, |ts|);
      assert ts[c + 1..|ts|] == ts[c + 1..];
      RedactKeeps(ts[c + 1..], st);
      ContentRebuilds(ts);
      RebuiltRun(ts, ts[o + 1..c], ts[c + 1..], st);
      RebuiltRun(ts, Commas(ArgsOut(ts)), Redact(ts[c + 1..]).out, st);
    }
  }

  lemma StepKeeps(t: Token, a: seq<Token>, b: seq<Token>, st: seq<Token>)
    requires Step(t, st).Expect?
    requires var st' := Step(t, st).closers; Run(a, st') == Run(b, st') && (NoComma(a, |st'|) <==> NoComma(b, |st'|))
    ensures Run([t] + a, st) == Run([t] + b, st)
    ensures NoComma([t] + a, |st|) <==> NoComma([t] + b, |st|)
  {
    assert ([t] + a)[1..] == a && ([t] + b)[1..] == b;
    assert |Step(t, st).closers| == |st| + NestStep(t);
  }

  lemma ArgsOutWhole(ts: seq<Token>)
    requires Canonical(ts) && IsCallHead(ts) && CallClose(ts) >= 0
    requires Nested(ts[OpenIdx(ts) + 1..CallClose(ts)])
    ensures forall m :: m in ArgsOut(ts) ==> Whole(m)
    ensures Nested(Commas(ArgsOut(ts)))
    ensures ArgsOut(ts) != [] ==> Pieces(Commas(ArgsOut(ts)), 0) == ArgsOut(ts)
    decreases |ts|, 0
  {
    hide Canonical, IsCallHead, OpenIdx, CallClose, Redact, CallArgs, RedactEach, MaskedTexts, Pieces;
    var ps, ms := CallArgs(ts), ArgsOut(ts);
    forall i | 0 <= i < |ms| ensures Whole(ms[i]) {
      CallArgFacts(ts, i);
      CallArgWhole(ts, i);
      RedactCanonical(ps[i]);
      ArgOutForm(ts, i);
      if ms[i] == Redact(ps[i]).out {
        RedactKeeps(ps[i], []);
      } else {
        PlainRun(ms[i], [], 0);
      }
    }
    if ms != [] {
      PiecesCommas(ms);
    }
  }

  // ----- nothing shows after the pass

  lemma {:induction false} PlainClean(ts: seq<Token>)
    requires forall t :: t in ts ==> Plain(t)
    ensures Clean(ts) && EveryCallCloses(ts)
  {
    if ts != [] {
      assert ts[0] in ts && Plain(ts[0]);
      assert forall t :: t in ts[1..] ==> t in ts;
      PlainClean(ts[1..]);
    }
  }

  lemma {:induction false} AllCleanIf(ps: seq<seq<Token>>)
    requires forall p :: p in ps ==> Clean(p)
    ensures AllClean(ps)
  {
    hide Clean;
    if ps != [] {
      assert ps[0] in ps;
      assert forall p :: p in ps[1..] ==> p in ps;
      AllCleanIf(ps[1..]);
    }
  }

  lemma {:induction false} AllCloseIf(ps: seq<seq<Token>>)
    requires forall p :: p in ps ==> EveryCallCloses(p)
    ensures AllCallsClose(ps)
  {
    hide EveryCallCloses;
    if ps != [] {
      assert ps[0] in ps;
      assert forall p :: p in ps[1..] ==> p in ps;
      AllCloseIf(ps[1..]);
    }
  }

  /** A text that the pass turned blank was left alone. */
  lemma {:induction false} BlankSame(ts: seq<Token>)
    requires Text.Blank(Flat(Redact(ts).out))
    ensures Redact(ts).out == ts
  {
    hide IsCallHead, OpenIdx, CallClose, Redact, Flat;
    var out := Redact(ts).out;
    if ts == [] {
      RedactNil();
    } else {
      EndsKept(ts);
      assert out == [out[0]] + out[1..];
      FlatCons(out[0], out[1..]);
      assert forall i :: 0 <= i < |Flat(out[1..])| ==> Flat(out[1..])[i] == Flat(out)[i + |out[0]|];
      assert ts[0] != "" ==> Flat(out)[0] == ts[0][0];
      if IsCallHead(ts) {
        HeadLetter(ts);
      } else {
        NotHead(ts);
        assert out[1..] == Redact(ts[1..]).out;
        BlankSame(ts[1..]);
      }
    }
  }

  lemma HeadLetter(ts: seq<Token>)
    requires IsCallHead(ts)
    ensures ts != [] && ts[0] != "" && !Text.SpaceByte(ts[0][0])
  {
  }

  lemma TrimmedBlank(s: string)
    ensures Text.TrimSpace(s) == "" ==> Text.Blank(s)
  {
    Text.TrimParts(s);
  }

  /** The argument list the pass writes splits into the arguments it wrote. */
  lemma ArgsOutSplit(ts: seq<Token>)
    requires Canonical(ts) && IsCallHead(ts) && CallClose(ts) >= 0
    requires Nested(ts[OpenIdx(ts) + 1..CallClose(ts)])
    ensures Args(Commas(ArgsOut(ts))) == ArgsOut(ts)
  {
    hide Canonical, IsCallHead, OpenIdx, CallClose, Redact, CallArgs, Pieces, Flat, Text.TrimSpace, Plain, Closed;
    ArgsOutWhole(ts);
    var ms := ArgsOut(ts);
    if ms == [] {
      EmptyArgs();
    } else if |ms| == 1 {
      var a, m := CallArgs(ts)[0], ms[0];
      CallArgFacts(ts, 0);
      RedactCanonical(a);
      ArgOutForm(ts, 0);
      TrimmedBlank(Flat(m));
      if Text.TrimSpace(Flat(m)) == "" {
        if m == Redact(a).out {
          BlankSame(a);
          OneArg(ts);
        } else {
          HiddenShows(ts, 0);
        }
      }
    }
  }

  lemma EmptyArgs()
    ensures Args([]) == []
  {
  }

  lemma OneArg(ts: seq<Token>)
    requires IsCallHead(ts) && CallClose(ts) >= 0 && |CallArgs(ts)| == 1
    ensures Text.TrimSpace(Flat(CallArgs(ts)[0])) != ""
  {
    hide IsCallHead, OpenIdx, CloseIdx, Pieces, Text.TrimSpace;
    var content := ts[OpenIdx(ts) + 1..CallClose(ts)];
    CommasPieces(content, 0);
  }

  /** A masked argument is not blank. */
  lemma HiddenShows(ts: seq<Token>, i: nat)
    requires IsCallHead(ts) && CallClose(ts) >= 0 && i < |CallArgs(ts)|
    requires Canonical(Redact(CallArgs(ts)[i]).out)
    requires ArgsOut(ts)[i] != Redact(CallArgs(ts)[i]).out
    ensures Text.TrimSpace(Flat(ArgsOut(ts)[i])) != ""
  {
    hide IsCallHead, CallArgs, Redact, RedactEach, Lex, Flat, Maskable, Text.Lead, Text.Trail, Positions, OpenIdx;
    hide CloseIdx, CallClose, MaskAt, Text.TrimSpace;
    var ps := CallArgs(ts);
    var outs := RedactEach(ps).outs;
    EachStep(ps, i);
    var texts := Flats(outs);
    MaskAtForm(texts, Positions(ts[0], texts));
    var b := MaskedTexts(ts[0], outs).args[i];
    assert MaskOf(texts[i], b);
    LexFlat(outs[i]);
    LexCanonical(b);
    MaskedTrim(texts[i]);
  }

  /** Positions and literals of the argument list the pass writes. */
  lemma ArgsOutMasked(ts: seq<Token>)
    requires IsCallHead(ts) && CallClose(ts) >= 0
    ensures var ms := ArgsOut(ts);
            forall i :: 0 <= i < |ms| && i + 1 in Positions(ts[0], Flats(ms)) ==> !Maskable(Flats(ms)[i])
  {
    hide IsCallHead, CallArgs, Redact, RedactEach, Lex, Flat, Maskable, Positions, OpenIdx, CloseIdx, CallClose, MaskAt;
    var texts := Flats(RedactEach(CallArgs(ts)).outs);
    var name := ts[0];
    var r := MaskedTexts(name, RedactEach(CallArgs(ts)).outs).args;
    FlatsLex(r);
    MaskAtForm(texts, Positions(name, texts));
    PositionsStable(name, texts);
    assert |r| == |texts|;
  }

  lemma {:induction false} FlatsLex(texts: seq<string>)
    ensures Flats(LexEach(texts)) == texts
  {
    hide Lex, Flat;
    if texts != [] {
      LexCanonical(texts[0]);
      FlatsLex(texts[1..]);
      assert LexEach(texts)[1..] == LexEach(texts[1..]);
    }
  }

  /** Completeness: if the brackets inside each top-level call that closes are
      properly nested, nothing shows after the pass, at any depth. */
  lemma {:induction false} RedactClean(ts: seq<Token>)
    requires Canonical(ts) && CallsNested(ts)
    ensures Clean(Redact(ts).out)
    decreases |ts|
  {
    hide Canonical, IsCallHead, OpenIdx, CallClose, Redact, CallArgs, Run, Plain, Closed, ArgsOut, Positions, Maskable;
    if ts == [] {
      RedactNil();
    } else if !IsCallHead(ts) {
      NotHead(ts);
      SliceCanonical(ts, 1, |ts|);
      assert ts[1..|ts|] == ts[1..];
      RedactClean(ts[1..]);
      HeadLost(ts);
      assert Redact(ts).out[1..] == Redact(ts[1..]).out;
    } else if CallClose(ts) < 0 {
      Truncated(ts);
    } else {
      var c := CallClose(ts);
      var ms := ArgsOut(ts);
      var ps := CallArgs(ts);
      forall i | 0 <= i < |ms| ensures Clean(ms[i]) {
        CallArgFacts(ts, i);
        CallArgWhole(ts, i);
        RedactCanonical(ps[i]);
        ArgOutForm(ts, i);
        if ms[i] == Redact(ps[i]).out {
          RunCallsNested(ps[i], []);
          RedactClean(ps[i]);
        } else {
          PlainClean(ms[i]);
        }
      }
      SliceCanonical(ts, c + 1, |ts|);
      assert ts[c + 1..|ts|] == ts[c + 1..];
      RedactClean(ts[c + 1..]);
      RebuiltClean(ts);
    }
  }

  lemma {:induction false} RebuiltClean(ts: seq<Token>)
    requires Canonical(ts) && IsCallHead(ts) && CallClose(ts) >= 0
    requires Nested(ts[OpenIdx(ts) + 1..CallClose(ts)])
    requires forall i :: 0 <= i < |ArgsOut(ts)| ==> Clean(ArgsOut(ts)[i])
    requires Clean(Redact(ts[CallClose(ts) + 1..]).out)
    ensures Clean(Redact(ts).out)
  {
    hide Canonical, IsCallHead, OpenIdx, CallClose, Redact, Run, ArgsOut, Positions, Maskable, Args;
    var ms, r := ArgsOut(ts), Redact(ts[CallClose(ts) + 1..]).out;
    ArgsOutWhole(ts);
    ArgsOutSplit(ts);
    ArgsOutMasked(ts);
    RebuiltShape(ts, Commas(ms), r);
    RebuiltIs(ts);
    var u := Redact(ts).out;
    assert CallArgs(u) == ms;
    AllCleanIf(ms);
  }

  lemma RebuiltIs(ts: seq<Token>)
    requires IsCallHead(ts) && CallClose(ts) >= 0
    ensures Redact(ts).out == Rebuilt(ts, Commas(ArgsOut(ts)), Redact(ts[CallClose(ts) + 1..]).out)
  {
    hide IsCallHead, OpenIdx, CallClose, Redact, CallArgs;
    RedactRebuilds(ts);
  }

  /** In properly nested text every call closes, at any depth. */
  lemma {:induction false} NestedCloses(ts: seq<Token>, st: seq<Token>)
    requires Canonical(ts) && Run(ts, st) == Expect([])
    ensures EveryCallCloses(ts)
    decreases |ts|
  {
    hide Canonical, IsCallHead, OpenIdx, CallClose, CallArgs;
    if ts == [] {
    } else {
      SliceCanonical(ts, 1, |ts|);
      assert ts[1..|ts|] == ts[1..];
      if !IsCallHead(ts) {
        NestedCloses(ts[1..], Step(ts[0], st).closers);
      } else {
        CallNested(ts, st);
        var c, ps := CallClose(ts), CallArgs(ts);
        forall i | 0 <= i < |ps| ensures EveryCallCloses(ps[i]) {
          CallArgFacts(ts, i);
          CallArgWhole(ts, i);
          NestedCloses(ps[i], []);
        }
        AllCloseIf(ps);
        SliceCanonical(ts, c + 1, |ts|);
        assert ts[c + 1..|ts|] == ts[c + 1..];
        NestedCloses(ts[c + 1..], st);
      }
    }
  }

  // ----- a second pass

  lemma {:induction false} AllCleanEach(ps: seq<seq<Token>>, i: nat)
    requires AllClean(ps) && i < |ps|
    ensures Clean(ps[i])
  {
    hide Clean;
    if i > 0 { AllCleanEach(ps[1..], i - 1); }
  }

  lemma {:induction false} EachSame(ps: seq<seq<Token>>)
    requires forall p :: p in ps ==> Redact(p) == Redacted(p, 0)
    ensures RedactEach(ps) == RedactedArgs(ps, 0)
  {
    hide Redact;
    if ps != [] {
      assert ps[0] in ps;
      assert forall p :: p in ps[1..] ==> p in ps;
      EachSame(ps[1..]);
    }
  }

  lemma {:induction false} MaskAtSame(args: seq<string>, ps: seq<nat>)
    requires forall i :: 0 <= i < |args| && i + 1 in ps ==> !Maskable(args[i])
    ensures MaskAt(args, ps) == MaskedArgs(args, 0)
    decreases |ps|
  {
    hide Maskable, MaskLiteral;
    if ps != [] {
      var p := ps[0];
      assert p in ps && forall q :: q in ps[1..] ==> q in ps;
      if 1 <= p <= |args| {
        MaskedForm(args[p - 1]);
        assert !Maskable(args[p - 1]);
      }
      MaskAtSame(args, ps[1..]);
    }
  }

  lemma {:induction false} LexFlats(ps: seq<seq<Token>>)
    requires forall p :: p in ps ==> Lex(Flat(p)) == p
    ensures LexEach(Flats(ps)) == ps
  {
    hide Lex, Flat;
    if ps != [] {
      assert ps[0] in ps;
      LexFlats(ps[1..]);
      assert Flats(ps)[1..] == Flats(ps[1..]);
    }
  }

  lemma CommasArgs(ts: seq<Token>)
    ensures Args(ts) != [] ==> Commas(Args(ts)) == ts
  {
    CommasPieces(ts, 0);
  }

  /** Where nothing shows, the pass changes nothing and counts nothing. */
  lemma {:induction false} CleanFixed(ts: seq<Token>)
    requires Canonical(ts) && Clean(ts)
    ensures Redact(ts) == Redacted(ts, 0)
    decreases |ts|
  {
    hide Canonical, IsCallHead, OpenIdx, CallClose, CallArgs, Redact, RedactEach, Positions, Maskable, MaskAt, Lex;
    hide Flat;
    if ts == [] {
      RedactNil();
    } else if !IsCallHead(ts) {
      NotHead(ts);
      SliceCanonical(ts, 1, |ts|);
      assert ts[1..|ts|] == ts[1..];
      CleanFixed(ts[1..]);
    } else if CallClose(ts) < 0 {
      Truncated(ts);
    } else {
      var c, ps := CallClose(ts), CallArgs(ts);
      forall p | p in ps ensures Redact(p) == Redacted(p, 0) && Lex(Flat(p)) == p {
        var i :| 0 <= i < |ps| && ps[i] == p;
        CallArgFacts(ts, i);
        AllCleanEach(ps, i);
        CleanFixed(p);
      }
      EachSame(ps);
      MaskAtSame(Flats(ps), Positions(ts[0], Flats(ps)));
      LexFlats(ps);
      SliceCanonical(ts, c + 1, |ts|);
      assert ts[c + 1..|ts|] == ts[c + 1..];
      CleanFixed(ts[c + 1..]);
      RedactCall(ts);
      FixedCall(ts);
    }
  }

  lemma FixedCall(ts: seq<Token>)
    requires IsCallHead(ts) && CallClose(ts) >= 0
    requires CallArgs(ts) == [] ==> CallClose(ts) == OpenIdx(ts) + 1
    ensures ts[..OpenIdx(ts) + 1] + Commas(CallArgs(ts)) + [")"] + ts[CallClose(ts) + 1..] == ts
  {
    hide IsCallHead, CloseIdx, Args, OpenIdx;
    CommasArgs(ts[OpenIdx(ts) + 1..CallClose(ts)]);
  }

  lemma {:induction false} EachZero(ps: seq<seq<Token>>, i: nat)
    requires RedactEach(ps).count == 0 && i < |ps|
    ensures Redact(ps[i]).count == 0 && RedactEach(ps).outs[i] == Redact(ps[i]).out
  {
    hide Redact;
    if i > 0 { EachZero(ps[1..], i - 1); }
  }

  lemma {:induction false} MaskAtZero(args: seq<string>, ps: seq<nat>)
    requires MaskAt(args, ps).count == 0
    ensures MaskAt(args, ps).args == args
    ensures forall i :: 0 <= i < |args| && i + 1 in ps ==> !Maskable(args[i])
    decreases |ps|
  {
    hide Maskable, MaskLiteral;
    if ps != [] {
      var p := ps[0];
      assert forall q :: q in ps <==> q == p || q in ps[1..];
      if 1 <= p <= |args| {
        MaskedForm(args[p - 1]);
      }
      MaskAtZero(args, ps[1..]);
    }
  }

  /** Arguments that only got shorter: a joined list as long as before is the same. */
  lemma {:induction false} CommasShorter(outs: seq<seq<Token>>, ps: seq<seq<Token>>)
    requires |outs| == |ps|
    requires forall i :: 0 <= i < |ps| ==> |outs[i]| <= |ps[i]| && (|outs[i]| == |ps[i]| ==> outs[i] == ps[i])
    ensures |Commas(outs)| <= |Commas(ps)|
    ensures |Commas(outs)| == |Commas(ps)| ==> outs == ps
  {
    if |ps| > 0 {
      CommasShorter(outs[1..], ps[1..]);
      assert outs == [outs[0]] + outs[1..] && ps == [ps[0]] + ps[1..];
    }
  }

  lemma CleanCall(ts: seq<Token>)
    requires IsCallHead(ts) && CallClose(ts) >= 0 && Clean(ts[CallClose(ts) + 1..]) && AllClean(CallArgs(ts))
    requires CallArgs(ts) == [] ==> CallClose(ts) == OpenIdx(ts) + 1
    requires var a := Flats(CallArgs(ts)); forall i :: 0 <= i < |a| && i + 1 in Positions(ts[0], a) ==> !Maskable(a[i])
    ensures Clean(ts)
  {
    hide Maskable, Positions;
    assert |Flats(CallArgs(ts))| == |CallArgs(ts)|;
  }

  /** The arguments of a closing call keep their tokens through the pass. */
  lemma OutsRead(ts: seq<Token>, outs: seq<seq<Token>>)
    requires Canonical(ts) && IsCallHead(ts) && CallClose(ts) >= 0 && outs == RedactEach(CallArgs(ts)).outs
    requires RedactEach(CallArgs(ts)).count == 0
    ensures LexEach(Flats(outs)) == outs
  {
    hide *;
    var ps := CallArgs(ts);
    EachLength(ps);
    forall p | p in outs ensures Lex(Flat(p)) == p {
      var i :| 0 <= i < |outs| && outs[i] == p;
      EachZero(ps, i);
      CallArgFacts(ts, i);
      RedactCanonical(ps[i]);
      LexFlat(p);
    }
    LexFlats(outs);
  }

  /** The list of a closing call, when the pass counts nothing in it. */
  lemma IdleCall(ts: seq<Token>, outs: seq<seq<Token>>)
    requires Canonical(ts) && IsCallHead(ts) && CallClose(ts) >= 0 && Redact(ts).count == 0
    requires outs == RedactEach(CallArgs(ts)).outs
    ensures RedactEach(CallArgs(ts)).count == 0 && Redact(ts[CallClose(ts) + 1..]).count == 0
    ensures Redact(ts).out == ts[..OpenIdx(ts) + 1] + Commas(outs) + [")"] + Redact(ts[CallClose(ts) + 1..]).out
    ensures forall i :: 0 <= i < |outs| && i + 1 in Positions(ts[0], Flats(outs)) ==> !Maskable(Flats(outs)[i])
  {
    hide Canonical, IsCallHead, OpenIdx, CallClose, CallArgs, Redact, RedactEach, Positions, Maskable, MaskAt, Lex;
    hide Flat, Commas, LexEach, Flats;
    RedactCall(ts);
    MaskAtZero(Flats(outs), Positions(ts[0], Flats(outs)));
    OutsRead(ts, outs);
  }

  lemma CallLength(ts: seq<Token>)
    requires IsCallHead(ts) && CallClose(ts) >= 0
    ensures |Commas(CallArgs(ts))| <= CallClose(ts) - OpenIdx(ts) - 1
    ensures |Commas(CallArgs(ts))| == CallClose(ts) - OpenIdx(ts) - 1 ==>
              (CallArgs(ts) == [] ==> CallClose(ts) == OpenIdx(ts) + 1)
    ensures 0 < OpenIdx(ts) < CallClose(ts) < |ts|
  {
    hide Args, IsCallHead, OpenIdx;
    CommasArgs(ts[OpenIdx(ts) + 1..CallClose(ts)]);
  }

  /** Where the pass counts nothing it at most drops blanks; where it drops nothing
      either, nothing showed. */
  lemma {:induction false} IdleClean(ts: seq<Token>)
    requires Canonical(ts) && Redact(ts).count == 0
    ensures |Redact(ts).out| <= |ts|
    ensures |Redact(ts).out| == |ts| ==> Redact(ts).out == ts && Clean(ts)
    decreases |ts|
  {
    hide *;
    if ts == [] {
      RedactNil();
      NilClean();
    } else if !IsCallHead(ts) {
      NotHead(ts);
      SliceCanonical(ts, 1, |ts|);
      assert ts[1..|ts|] == ts[1..];
      IdleClean(ts[1..]);
      HeadlessClean(ts);
      assert ts == [ts[0]] + ts[1..];
    } else if CallClose(ts) < 0 {
      Truncated(ts);
      OpenClean(ts);
    } else {
      var o, c, ps := OpenIdx(ts), CallClose(ts), CallArgs(ts);
      var outs := RedactEach(ps).outs;
      CallLength(ts);
      IdleCall(ts, outs);
      EachLength(ps);
      forall i | 0 <= i < |ps|
        ensures |outs[i]| <= |ps[i]| && (|outs[i]| == |ps[i]| ==> outs[i] == ps[i] && Clean(ps[i]))
      {
        CallArgFacts(ts, i);
        EachZero(ps, i);
        IdleClean(ps[i]);
      }
      CommasShorter(outs, ps);
      SliceCanonical(ts, c + 1, |ts|);
      assert ts[c + 1..|ts|] == ts[c + 1..];
      IdleClean(ts[c + 1..]);
      if |Redact(ts).out| == |ts| {
        AllCleanIf(ps);
        CleanCall(ts);
        FixedCall(ts);
      }
    }
  }

  lemma NilClean()
    ensures Clean([])
  {
  }

  lemma HeadlessClean(ts: seq<Token>)
    requires ts != [] && !IsCallHead(ts)
    ensures Clean(ts) <==> Clean(ts[1..])
  {
  }

  lemma OpenClean(ts: seq<Token>)
    requires IsCallHead(ts) && CallClose(ts) < 0
    ensures Clean(ts)
  {
  }

  // ----- on text

  /** The tokens of the output, for every text. */
  lemma OutputTokens(s: string)
    ensures Lex(RedactText(s)) == Redact(Lex(s)).out
  {
    hide Lex, Redact, Flat, Canonical;
    LexCanonical(s);
    RedactCanonical(Lex(s));
    LexFlat(Redact(Lex(s)).out);
  }

  /** Completeness on text: truncated text and stray brackets outside calls included. */
  lemma NothingShows(s: string)
    requires CallsNested(Lex(s))
    ensures Clean(Lex(RedactText(s)))
  {
    hide Lex, Redact, Flat, Canonical, Clean, CallsNested, RedactText;
    LexCanonical(s);
    OutputTokens(s);
    RedactClean(Lex(s));
  }

  /** In properly nested text no call escapes: each one, at any depth, closes and
      shows no literal at a position its rule picks. */
  lemma NothingShowsAnywhere(s: string)
    requires Nested(Lex(s))
    ensures Nested(Lex(RedactText(s)))
    ensures EveryCallCloses(Lex(RedactText(s))) && Clean(Lex(RedactText(s)))
  {
    hide Lex, Redact, Flat, Canonical, Clean, CallsNested, Run, RedactText, EveryCallCloses;
    LexCanonical(s);
    RunCallsNested(Lex(s), []);
    NothingShows(s);
    OutputTokens(s);
    RedactKeeps(Lex(s), []);
    LexCanonical(RedactText(s));
    NestedCloses(Lex(RedactText(s)), []);
  }

  /** Idempotence. */
  lemma SecondPassIdle(s: string)
    requires CallsNested(Lex(s))
    ensures RedactText(RedactText(s)) == RedactText(s)
    ensures Redact(Lex(RedactText(s))).count == 0
  {
    hide Lex, Redact, Flat, Canonical, Clean, CallsNested;
    NothingShows(s);
    LexCanonical(RedactText(s));
    CleanFixed(Lex(RedactText(s)));
  }

  /** A text is left as it is, with nothing counted, exactly when it shows nothing. */
  lemma LeftAlone(s: string)
    ensures RedactText(s) == s && Redact(Lex(s)).count == 0 <==> Clean(Lex(s))
  {
    hide *;
    LexCanonical(s);
    if Clean(Lex(s)) {
      CleanFixed(Lex(s));
      TextOf(s);
    }
    if RedactText(s) == s && Redact(Lex(s)).count == 0 {
      OutputTokens(s);
      IdleClean(Lex(s));
    }
  }

  lemma TextOf(s: string)
    ensures RedactText(s) == Flat(Redact(Lex(s)).out)
  {
  }

  /** For every text the two promises stand or fall together: the second pass is
      idle exactly when the first left nothing showing. */
  lemma IdleExactlyWhenComplete(s: string)
    ensures var r := RedactText(s);
            RedactText(r) == r && Redact(Lex(r)).count == 0 <==> Clean(Lex(r))
  {
    hide *;
    LeftAlone(RedactText(s));
  }
}
