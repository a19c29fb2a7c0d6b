/** What the pass makes of one call, from text to text. */
module SqlCalls {
  import opened SqlLexer
  import opened SqlScanners
  import opened SqlRules
  import opened SqlNesting
  import opened SqlMasking
  import opened SqlRedactor
  import opened SqlGuarantees
  import opened SqlSecrets
  import Text

  /** Letters, digits and underscores, no digit first. */
  predicate Identifier(name: string) {
    && name != "" && !('0' <= name[0] <= '9')
    && forall i :: 0 <= i < |name| ==>
         'a' <= name[i] <= 'z' || 'A' <= name[i] <= 'Z' || '0' <= name[i] <= '9' || name[i] == '_'
  }

  /** A value that needs no escape in a literal. */
  predicate PlainValue(v: string) {
    '\'' !in v && '\\' !in v
  }

  function Literal(v: string): string {
    "'" + v + "'"
  }

  function Literals(vs: seq<string>): (r: seq<string>)
    ensures |r| == |vs| && forall i :: 0 <= i < |vs| ==> r[i] == Literal(vs[i])
  {
    if vs == [] then [] else [Literal(vs[0])] + Literals(vs[1..])
  }

  predicate Blanks(s: string) {
    forall i :: 0 <= i < |s| ==> s[i] == ' ' || s[i] == '\t'
  }

  function CallOf(name: string, gap: string, args: seq<string>): string {
    name + gap + "(" + Text.Join(args, ",") + ")"
  }

  /** The argument after the pass: the marker in place of a credential, the empty
      text excepted. */
  ghost function Shown(name: string, vs: seq<string>, i: nat): string
    requires i < |vs|
  {
    if Credential(name, Literals(vs), i + 1) && vs[i] != "" then "'[HIDDEN]'" else Literal(vs[i])
  }

  // ----- the tokens of such a call

  function Ones(ts: seq<Token>): (r: seq<seq<Token>>)
    ensures |r| == |ts| && forall i :: 0 <= i < |ts| ==> r[i] == [ts[i]]
  {
    if ts == [] then [] else [[ts[0]]] + Ones(ts[1..])
  }

  function Head(name: string, gap: string): seq<Token> {
    [name] + Singles(gap) + ["("]
  }

  function Call(name: string, gap: string, ps: seq<seq<Token>>): seq<Token> {
    Head(name, gap) + Commas(ps) + [")"] + []
  }

  lemma LiteralToken(v: string)
    requires PlainValue(v)
    ensures var t := Literal(v); IsToken(t) && Closed(t) && Plain(t) && Canonical([t]) && Lex(t) == [t]
  {
    PlainQuoted(v);
    var t := Literal(v);
    assert t[1..] == v + "'";
    QuotedWhole(t);
    hide Lex, IsToken, Closed;
    LexFlat([t]);
    FlatOne(t);
  }

  lemma {:induction false} WordWhole(s: string)
    requires forall i :: 0 <= i < |s| ==> IsIdentByte(s[i])
    ensures WordLen(s) == |s|
  {
    if s != "" { WordWhole(s[1..]); }
  }

  lemma NameToken(name: string)
    requires Identifier(name)
    ensures IsToken(name) && IsIdentStart(name[0]) && Joins(name, "(") && Joins(name, " ") && Joins(name, "\t")
  {
    WordWhole(name);
    hide WordLen;
    assert KindOf(name) == Word;
  }

  lemma OneWhole(t: Token)
    requires Plain(t)
    ensures Whole([t])
  {
    assert [t][1..] == [];
  }

  lemma ArgsCanonical(ps: seq<seq<Token>>)
    requires forall i :: 0 <= i < |ps| ==> Canonical(ps[i]) && |ps[i]| == 1 && Closed(ps[i][0])
    ensures Ended(Commas(ps))
  {
    hide Closed, Canonical;
    forall p | p in ps ensures Ended(p) {
      var i :| 0 <= i < |ps| && ps[i] == p;
    }
    CommasCanonical(ps);
  }

  /** The tokens of a call of literals. */
  lemma CallTokens(name: string, gap: string, ls: seq<Token>)
    requires Identifier(name) && Blanks(gap) && ls != []
    requires forall l :: l in ls ==> l != "" && Closed(l) && Canonical([l])
    ensures Canonical(Call(name, gap, Ones(ls)))
    ensures Flat(Call(name, gap, Ones(ls))) == CallOf(name, gap, ls)
  {
    hide Closed, Plain, Canonical, Commas, Flat, IsToken, Identifier, Joins, Head, Blanks;
    var ps := Ones(ls);
    forall i | 0 <= i < |ps| ensures Canonical(ps[i]) && |ps[i]| == 1 && Closed(ps[i][0]) {
      assert ls[i] in ls;
    }
    ArgsCanonical(ps);
    var c := Commas(ps);
    NilCanonical();
    MarkBetween(c, ")", []);
    var tail := c + [")"] + [];
    HeadJoins(name, gap, tail);
    assert Call(name, gap, ps) == Head(name, gap) + tail;
    CallFlat(name, gap, ls);
  }

  lemma NilCanonical()
    ensures Canonical([])
  {
  }

  lemma BlanksBlank(gap: string)
    requires Blanks(gap)
    ensures Text.Blank(gap)
  {
  }

  lemma GapJoins(gap: string, rest: seq<Token>)
    requires Blanks(gap) && Canonical(rest) && rest != []
    ensures Canonical(Singles(gap) + rest)
  {
    BlanksBlank(gap);
    SinglesFacts(gap);
    hide Closed, Separates, TokLen, KindOf, Singles, Plain;
    var g := Singles(gap);
    assert IsToken(rest[0]);
    if g != [] {
      assert g[|g| - 1] in g;
    }
    JoinCanonical(g, rest);
  }

  lemma OpenJoins(tail: seq<Token>)
    requires Canonical(tail) && tail != []
    ensures Canonical(["("] + tail)
  {
    hide Closed, Separates, TokLen, KindOf;
    assert IsToken(tail[0]);
    MarkJoins(tail[0]);
    assert Canonical(["("]);
    JoinCanonical(["("], tail);
  }

  lemma HeadJoins(name: string, gap: string, tail: seq<Token>)
    requires Identifier(name) && Blanks(gap) && Canonical(tail) && tail != []
    ensures Canonical(Head(name, gap) + tail)
  {
    NameToken(name);
    OpenJoins(tail);
    GapJoins(gap, ["("] + tail);
    hide Closed, Separates, TokLen, KindOf, Identifier;
    var g := Singles(gap);
    if gap != "" { SinglesFirst(gap); }
    assert Canonical([name]);
    JoinCanonical([name], g + (["("] + tail));
    assert Head(name, gap) + tail == [name] + (g + (["("] + tail));
  }

  lemma SinglesFirst(gap: string)
    requires Blanks(gap) && gap != ""
    ensures Singles(gap)[0] == " " || Singles(gap)[0] == "\t"
  {
  }

  lemma {:induction false} FlatOnes(ls: seq<Token>)
    ensures Flat(Commas(Ones(ls))) == Text.Join(ls, ",")
  {
    hide Flat;
    FlatNil();
    if ls != [] {
      FlatOne(ls[0]);
      var ps := Ones(ls);
      assert ps[1..] == Ones(ls[1..]);
      if |ls| > 1 {
        FlatOnes(ls[1..]);
        var rest := Commas(ps[1..]);
        assert Commas(ps) == [ls[0]] + ([","] + rest);
        FlatAppend([ls[0]], [","] + rest);
        FlatCons(",", rest);
        assert ls[0] + ("," + Text.Join(ls[1..], ",")) == Text.Join(ls, ",");
      }
    }
  }

  lemma CallFlat(name: string, gap: string, ls: seq<Token>)
    requires Blanks(gap)
    ensures Flat(Call(name, gap, Ones(ls))) == CallOf(name, gap, ls)
  {
    BlanksBlank(gap);
    SinglesFacts(gap);
    hide Flat, Commas, Text.Join, Singles;
    var c, g := Commas(Ones(ls)), Singles(gap);
    FlatOnes(ls);
    assert Call(name, gap, Ones(ls)) == [name] + (g + (["("] + (c + [")"])));
    FlatCons(name, g + (["("] + (c + [")"])));
    FlatAppend(g, ["("] + (c + [")"]));
    FlatCons("(", c + [")"]);
    FlatAppend(c, [")"]);
    FlatOne(")");
    Grouped(name, gap, Flat(c));
  }

  lemma Grouped(name: string, gap: string, c: string)
    ensures name + (gap + ("(" + (c + ")"))) == name + gap + "(" + c + ")"
  {
  }

  // ----- the pass

  /** The pass finds the call and its arguments. */
  lemma CallFound(name: string, gap: string, ls: seq<Token>)
    requires Identifier(name) && Blanks(gap) && ls != []
    requires forall l :: l in ls ==> Plain(l) && Text.TrimSpace(l) != ""
    ensures var ts := Call(name, gap, Ones(ls));
            && IsCallHead(ts) && OpenIdx(ts) == 1 + |Singles(gap)| && CallClose(ts) == |ts| - 1 && ts[0] == name
            && CallArgs(ts) == Ones(ls)
  {
    hide Plain, Commas, Pieces, CloseIdx, Identifier, Text.TrimSpace, Singles, Blanks;
    var ps := Ones(ls);
    var ts, c, o := Call(name, gap, ps), Commas(ps), 1 + |Singles(gap)|;
    forall p | p in ps ensures Whole(p) {
      var i :| 0 <= i < |ps| && ps[i] == p;
      assert ls[i] in ls;
      OneWhole(ls[i]);
    }
    PiecesCommas(ps);
    HeadFound(name, gap, c + [")"] + []);
    assert ts == Head(name, gap) + (c + [")"] + []);
    CloseOver(c, []);
    assert ts[o..] == ["("] + c + [")"] + [];
    assert CallClose(ts) == |ts| - 1;
    assert ts[o + 1..|ts| - 1] == c;
    if |ps| == 1 {
      FlatOne(ls[0]);
      assert ls[0] in ls;
      Alone(ls[0]);
      assert ps == [[ls[0]]];
    }
    assert Args(c) == ps;
  }

  lemma {:induction false} GapOver(gap: string, rest: seq<Token>)
    requires Blanks(gap) && rest != [] && rest[0] == "("
    ensures GapLen(Singles(gap) + rest) == |Singles(gap)|
  {
    if gap == "" {
      assert Singles(gap) + rest == rest;
    } else {
      GapOver(gap[1..], rest);
      var g := Singles(gap);
      assert g == [[gap[0]]] + Singles(gap[1..]);
      hide Singles;
      assert (g + rest)[0] == [gap[0]] && (g + rest)[1..] == Singles(gap[1..]) + rest;
      assert IsGap([gap[0]]);
    }
  }

  lemma HeadFound(name: string, gap: string, tail: seq<Token>)
    requires Identifier(name) && Blanks(gap)
    ensures var ts := Head(name, gap) + tail;
            IsCallHead(ts) && OpenIdx(ts) == 1 + |Singles(gap)| && ts[0] == name
  {
    var ts := Head(name, gap) + tail;
    NameToken(name);
    GapOver(gap, ["("] + tail);
    hide Singles;
    assert ts[1..] == Singles(gap) + (["("] + tail);
    assert ts[1 + |Singles(gap)|] == "(";
  }

  lemma Alone(l: Token)
    ensures Commas([[l]]) == [l]
  {
  }

  /** A literal has no call in it. */
  lemma LiteralIdle(t: Token)
    requires Plain(t)
    ensures Redact([t]).out == [t]
  {
    assert [t][1..] == [];
    assert !IsCallHead([t]);
  }

  lemma NothingBehind()
    ensures Redact([]).out == []
  {
  }

  lemma LiteralText(v: string)
    ensures Text.TrimSpace(Literal(v)) == Literal(v) && Masked(Literal(v)) == "'[HIDDEN]'"
    ensures Shows(Literal(v)) <==> v != "" && v != "[HIDDEN]"
  {
    var l := Literal(v);
    Text.TrimFixed(l);
    Text.TrimParts(l);
    hide Text.TrimSpace, Text.Lead, Text.Trail;
    assert |Text.Lead(l)| == 0 && |Text.Trail(l)| == 0;
    if w :| l == "'" + w + "'" && w != "" && w != "[HIDDEN]" {
      assert l[1..|l| - 1] == w && l[1..|l| - 1] == v;
    }
  }

  /** Token i of the list the pass writes. */
  lemma {:induction false} ArgumentShown(name: string, vs: seq<string>, outs: seq<seq<Token>>, i: nat, m: seq<Token>)
    requires (forall v :: v in vs ==> PlainValue(v)) && i < |vs|
    requires outs == Ones(Literals(vs)) && HiddenIf(name, outs, i, m)
    ensures m == [Shown(name, vs, i)] && Plain(m[0]) && Closed(m[0]) && Canonical(m)
  {
    hide Credential, Shows, Plain, Closed, Canonical, Lex, Text.Lead, Text.Trail, Masked, Literal, Flat, PlainValue;
    assert vs[i] in vs;
    LiteralToken(vs[i]);
    LiteralText(vs[i]);
    HiddenLiteral();
    FlatsOnes(Literals(vs));
    assert Flat(outs[i]) == Flats(outs)[i] == Literal(vs[i]);
  }

  lemma HiddenLiteral()
    ensures Lex("'[HIDDEN]'") == ["'[HIDDEN]'"] && Literal("[HIDDEN]") == "'[HIDDEN]'"
    ensures var t := "'[HIDDEN]'"; Plain(t) && Closed(t) && Canonical([t])
  {
    LiteralToken("[HIDDEN]");
    assert Literal("[HIDDEN]") == "'[HIDDEN]'";
  }

  lemma FlatsOnes(ls: seq<Token>)
    ensures Flats(Ones(ls)) == ls
  {
    hide Flat;
    forall i | 0 <= i < |ls| ensures Flats(Ones(ls))[i] == ls[i] {
      FlatOne(ls[i]);
    }
  }

  /** A call of plain literals, from text to text: every credential that says
      something is replaced by the marker and nothing else changes. */
  lemma {:induction false} LiteralCall(name: string, gap: string, vs: seq<string>) returns (outs: seq<string>)
    requires Identifier(name) && Blanks(gap) && vs != [] && forall v :: v in vs ==> PlainValue(v)
    ensures |outs| == |vs| && forall i :: 0 <= i < |vs| ==> outs[i] == Shown(name, vs, i)
    ensures RedactText(CallOf(name, gap, Literals(vs))) == CallOf(name, gap, outs)
  {
    hide Canonical, IsCallHead, OpenIdx, CallClose, CallArgs, Redact, Credential, Shows, Lex, Flat, Commas, Plain;
    hide Closed, Identifier, PlainValue, Text.TrimSpace, Text.Join, HiddenIf, Shown, Head, Blanks, Singles;
    var ls := Literals(vs);
    AllLiterals(vs);
    var ts := Call(name, gap, Ones(ls));
    CallTokens(name, gap, ls);
    CallFound(name, gap, ls);
    LexFlat(ts);
    var redacted, ms := HidesExactly(ts);
    AllIdle(ls, redacted);
    outs := ShownAll(name, vs);
    ArgumentsShown(name, vs, redacted, ms);
    HeadSize(name, gap);
    CallOut(Head(name, gap), Commas(Ones(ls)), Commas(ms));
    NothingBehind();
    CallFlat(name, gap, outs);
  }

  lemma {:induction false} AllLiterals(vs: seq<string>)
    requires forall v :: v in vs ==> PlainValue(v)
    ensures forall l :: l in Literals(vs) ==>
              l != "" && Plain(l) && Closed(l) && Canonical([l]) && Text.TrimSpace(l) != ""
  {
    hide Plain, Closed, Canonical, PlainValue, Text.TrimSpace, Lex, Shows;
    var ls := Literals(vs);
    forall l | l in ls ensures l != "" && Plain(l) && Closed(l) && Canonical([l]) && Text.TrimSpace(l) != "" {
      var i :| 0 <= i < |ls| && ls[i] == l;
      assert vs[i] in vs;
      LiteralToken(vs[i]);
      LiteralText(vs[i]);
    }
  }

  lemma {:induction false} AllIdle(ls: seq<Token>, outs: seq<seq<Token>>)
    requires |outs| == |ls| && forall l :: l in ls ==> Plain(l)
    requires forall i :: 0 <= i < |ls| ==> outs[i] == Redact(Ones(ls)[i]).out
    ensures outs == Ones(ls)
  {
    hide Plain, Redact;
    forall i | 0 <= i < |ls| ensures outs[i] == Ones(ls)[i] {
      assert ls[i] in ls;
      LiteralIdle(ls[i]);
    }
  }

  lemma HeadSize(name: string, gap: string)
    ensures |Head(name, gap)| == 2 + |Singles(gap)|
  {
  }

  ghost function ShownAll(name: string, vs: seq<string>): (r: seq<string>)
    ensures |r| == |vs| && forall i :: 0 <= i < |vs| ==> r[i] == Shown(name, vs, i)
  {
    seq(|vs|, i requires 0 <= i < |vs| => Shown(name, vs, i))
  }

  lemma {:induction false} ArgumentsShown(name: string, vs: seq<string>, outs: seq<seq<Token>>, ms: seq<seq<Token>>)
    requires (forall v :: v in vs ==> PlainValue(v)) && outs == Ones(Literals(vs)) && |ms| == |vs|
    requires forall i :: 0 <= i < |vs| ==> HiddenIf(name, outs, i, ms[i])
    ensures ms == Ones(ShownAll(name, vs))
  {
    hide HiddenIf, PlainValue, Plain, Closed, Canonical, Shown;
    forall i | 0 <= i < |vs| ensures ms[i] == Ones(ShownAll(name, vs))[i] {
      ArgumentShown(name, vs, outs, i, ms[i]);
    }
  }

  lemma CallOut(h: seq<Token>, c: seq<Token>, d: seq<Token>)
    ensures var ts := h + c + [")"] + [];
            && ts[..|h|] + d + [")"] + [] == h + d + [")"] + []
            && ts[|ts| - 1 + 1..] == []
  {
  }
}
