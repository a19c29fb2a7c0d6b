/** What the positional pass does to the bytes of any text. */
module SqlEdits {
  import opened SqlLexer
  import opened SqlScanners
  import opened SqlRules
  import opened SqlNesting
  import opened SqlMasking
  import opened SqlRedactor
  import opened SqlGuarantees
  import opened Text

  datatype Edit =
    | Keep(text: string)
    | Hide(lead: string, literal: string, trail: string)
    | Drop(blanks: string)

  predicate Quoted2(s: string) {
    |s| >= 2 && s[0] == '\'' && s[|s| - 1] == '\''
  }

  /** A hidden text is one argument, a value shown between quotes; what is dropped
      is blank. */
  predicate Honest(e: Edit) {
    match e
    case Keep(_) => true
    case Hide(lead, literal, trail) =>
      && Quoted2(literal) && literal != HIDDEN && Blank(lead) && Blank(trail)
      && NoComma(Lex(lead + literal + trail), 0)
    case Drop(blanks) => TrimSpace(blanks) == ""
  }

  function Old(e: Edit): string {
    match e
    case Keep(text) => text
    case Hide(lead, literal, trail) => lead + literal + trail
    case Drop(blanks) => blanks
  }

  function New(e: Edit): string {
    match e
    case Keep(text) => text
    case Hide(lead, literal, trail) => lead + HIDDEN + trail
    case Drop(blanks) => ""
  }

  function Before(es: seq<Edit>): string {
    if es == [] then "" else Old(es[0]) + Before(es[1..])
  }

  function After(es: seq<Edit>): string {
    if es == [] then "" else New(es[0]) + After(es[1..])
  }

  function Hides(es: seq<Edit>): nat {
    if es == [] then 0 else (if es[0].Hide? then 1 else 0) + Hides(es[1..])
  }

  predicate OpensArg(s: string) {
    s != "" && (s[|s| - 1] == '(' || s[|s| - 1] == ',')
  }

  predicate EndsArg(s: string) {
    s != "" && (s[0] == ',' || s[0] == ')')
  }

  /** Between the texts pre and post, whatever is hidden or dropped is all there is
      between a "(" or "," and a "," or ")". */
  predicate Placed(pre: string, es: seq<Edit>, post: string)
    decreases |es|
  {
    es != [] ==>
      && (es[0].Keep? || (OpensArg(pre) && EndsArg(Before(es[1..]) + post)))
      && Placed(pre + Old(es[0]), es[1..], post)
  }

  ghost predicate PlacedAnywhere(es: seq<Edit>) {
    forall pre, post :: Placed(pre, es, post)
  }

  /** Placed where an argument list may stand. */
  ghost predicate PlacedInList(es: seq<Edit>) {
    forall pre, post :: OpensArg(pre) && EndsArg(post) ==> Placed(pre, es, post)
  }

  lemma {:induction false} PlacedAppend(pre: string, a: seq<Edit>, b: seq<Edit>, post: string)
    requires Placed(pre, a, Before(b) + post) && Placed(pre + Before(a), b, post)
    ensures Placed(pre, a + b, post)
    decreases |a|
  {
    hide Old, OpensArg, EndsArg, Before;
    if a == [] {
      BeforeNil(pre);
      assert a + b == b;
    } else {
      var c := a + b;
      assert c[0] == a[0] && c[1..] == a[1..] + b;
      EditsAppend(a[1..], b);
      BeforeCons(pre, a);
      Regroup(Before(a[1..]), Before(b), post);
      PlacedAppend(pre + Old(a[0]), a[1..], b, post);
    }
  }

  lemma BeforeNil(pre: string)
    ensures pre + Before([]) == pre
  {
  }

  lemma BeforeCons(pre: string, a: seq<Edit>)
    requires a != []
    ensures (pre + Old(a[0])) + Before(a[1..]) == pre + Before(a)
  {
  }

  lemma Regroup(a: string, b: string, c: string)
    ensures a + (b + c) == (a + b) + c
  {
  }

  lemma KeepPlaced(s: string)
    ensures PlacedAnywhere([Keep(s)])
  {
    assert [Keep(s)][1..] == [];
  }

  lemma {:induction false} AppendAnywhere(a: seq<Edit>, b: seq<Edit>)
    requires PlacedAnywhere(a) && PlacedAnywhere(b)
    ensures PlacedAnywhere(a + b)
  {
    hide Placed;
    forall pre, post ensures Placed(pre, a + b, post) {
      PlacedAppend(pre, a, b, post);
    }
  }

  /** One argument, a comma, and the arguments behind it. */
  lemma {:induction false} AppendList(a: seq<Edit>, b: seq<Edit>)
    requires PlacedInList(a) && PlacedInList(b)
    ensures PlacedInList(a + [Keep(",")] + b)
  {
    hide Placed, Before;
    var c := [Keep(",")];
    KeepPlaced(",");
    KeepBefore(",");
    EditsAppend(c, b);
    assert a + (c + b) == a + c + b;
    forall pre, post | OpensArg(pre) && EndsArg(post) ensures Placed(pre, a + (c + b), post) {
      PlacedAppend(pre + Before(a), c, b, post);
      PlacedAppend(pre, a, c + b, post);
    }
  }

  lemma KeepBefore(s: string)
    ensures Before([Keep(s)]) == s
  {
    assert [Keep(s)][1..] == [];
  }

  /** An argument list behind its "(" and before its ")". */
  lemma {:induction false} CallPlaced(head: string, list: seq<Edit>, tail: seq<Edit>)
    requires OpensArg(head) && PlacedInList(list) && PlacedAnywhere(tail)
    ensures PlacedAnywhere([Keep(head)] + list + [Keep(")")] + tail)
  {
    hide Placed, Before;
    var close := [Keep(")")] + tail;
    KeepPlaced(head);
    KeepPlaced(")");
    AppendAnywhere([Keep(")")], tail);
    KeepBefore(head);
    KeepBefore(")");
    EditsAppend([Keep(")")], tail);
    assert [Keep(head)] + list + [Keep(")")] + tail == [Keep(head)] + (list + close);
    forall pre, post ensures Placed(pre, [Keep(head)] + (list + close), post) {
      PlacedAppend(pre + head, list, close, post);
      PlacedAppend(pre, [Keep(head)], list + close, post);
    }
  }

  lemma {:induction false} EditsAppend(a: seq<Edit>, b: seq<Edit>)
    ensures Before(a + b) == Before(a) + Before(b)
    ensures After(a + b) == After(a) + After(b)
    ensures Hides(a + b) == Hides(a) + Hides(b)
  {
    hide Old, New, Before, After, Hides;
    if a == [] {
      NoEdits();
      assert a + b == b;
      assert "" + Before(b) == Before(b) && "" + After(b) == After(b);
    } else {
      assert a + b == [a[0]] + (a[1..] + b);
      EditsAppend(a[1..], b);
      EditsCons(a[0], a[1..] + b);
      EditsCons(a[0], a[1..]);
      assert a == [a[0]] + a[1..];
      Regroup(Old(a[0]), Before(a[1..]), Before(b));
      Regroup(New(a[0]), After(a[1..]), After(b));
    }
  }

  lemma NoEdits()
    ensures Before([]) == "" && After([]) == "" && Hides([]) == 0
  {
  }

  lemma EditsCons(e: Edit, es: seq<Edit>)
    ensures Before([e] + es) == Old(e) + Before(es)
    ensures After([e] + es) == New(e) + After(es)
    ensures Hides([e] + es) == (if e.Hide? then 1 else 0) + Hides(es)
  {
    assert ([e] + es)[1..] == es;
  }

  /** es turns before into after with count replacements, nested ones included. */
  ghost predicate Explains(es: seq<Edit>, before: string, after: string, count: nat) {
    && Before(es) == before && After(es) == after
    && Hides(es) <= count && (count > 0 ==> Hides(es) > 0)
    && forall e :: e in es ==> Honest(e)
  }

  lemma ExplainsKeep(s: string)
    ensures Explains([Keep(s)], s, s, 0)
  {
    assert [Keep(s)][1..] == [];
  }

  lemma ExplainsAppend(a: seq<Edit>, s: string, t: string, m: nat, b: seq<Edit>, u: string, v: string, n: nat)
    requires Explains(a, s, t, m) && Explains(b, u, v, n)
    ensures Explains(a + b, s + u, t + v, m + n)
  {
    EditsAppend(a, b);
  }

  // ----- the ends of a text the pass rewrote

  lemma SpaceAtLocal(u: string, v: string, n: nat)
    requires n < |u| && n < |v| && u[..n + 1] == v[..n + 1] && u[n] == '('
    ensures SpaceAt(u) == SpaceAt(v) <= n
  {
    assert forall i :: 0 <= i <= n ==> u[i] == u[..n + 1][i] == v[..n + 1][i] == v[i];
  }

  lemma SpaceBeforeLocal(u: string, v: string, n: nat)
    requires n < |u| && n < |v| && u[|u| - n - 1..] == v[|v| - n - 1..] && u[|u| - n - 1] == ')'
    ensures SpaceBefore(u) == SpaceBefore(v) <= n
  {
    var x, y := u[|u| - n - 1..], v[|v| - n - 1..];
    assert forall i :: 0 <= i <= n ==> x[i] == y[i];
    assert y[0] == v[|v| - n - 1];
    assert x[n] == u[|u| - 1] && y[n] == v[|v| - 1];
    assert n > 0 ==> x[n - 1] == u[|u| - 2] && y[n - 1] == v[|v| - 2];
    assert n > 1 ==> x[n - 2] == u[|u| - 3] && y[n - 2] == v[|v| - 3];
  }

  lemma {:induction false} LeadLocal(u: string, v: string, n: nat)
    requires n < |u| && n < |v| && u[..n + 1] == v[..n + 1] && u[n] == '('
    ensures LeadLen(u) == LeadLen(v) <= n
    decreases n
  {
    hide SpaceAt;
    SpaceAtLocal(u, v, n);
    var k := SpaceAt(u);
    if k > 0 {
      assert u[k..][..n - k + 1] == u[..n + 1][k..];
      assert v[k..][..n - k + 1] == v[..n + 1][k..];
      LeadLocal(u[k..], v[k..], n - k);
    }
  }

  lemma {:induction false} TrailLocal(u: string, v: string, n: nat)
    requires n < |u| && n < |v| && u[|u| - n - 1..] == v[|v| - n - 1..] && u[|u| - n - 1] == ')'
    ensures TrailLen(u) == TrailLen(v) <= n
    decreases n
  {
    hide SpaceBefore;
    SpaceBeforeLocal(u, v, n);
    var k := SpaceBefore(u);
    if k > 0 {
      var x, y := u[..|u| - k], v[..|v| - k];
      assert x[|x| - (n - k) - 1..] == u[|u| - n - 1..][..n + 1 - k];
      assert y[|y| - (n - k) - 1..] == v[|v| - n - 1..][..n + 1 - k];
      TrailLocal(x, y, n - k);
    }
  }

  /** Where the trimmed text of p ( m ) q begins and ends does not depend on m. */
  lemma {:induction false} TrimEnds(p: string, m: string, q: string)
    ensures var u := p + "(" + m + ")" + q; var t := TrimSpace(u);
            var k, n := LeadLen(p + "("), TrailLen(")" + q);
            && k <= |p| && n <= |q| && |t| >= 2
            && Lead(u) == (p + "(")[..k] && Trail(u) == (")" + q)[|q| + 1 - n..]
            && t[0] == (p + "(")[k] && t[|t| - 1] == (")" + q)[|q| - n]
            && '(' in t
  {
    hide LeadLen, TrailLen;
    var u, h, e := p + "(" + m + ")" + q, p + "(", ")" + q;
    LeadLocal(u, h, |p|);
    var k := LeadLen(u);
    var x := TrimLeft(u);
    assert x[|x| - |q| - 1..] == e;
    TrailLocal(x, e, |q|);
    var n := TrailLen(x);
    var t := TrimSpace(u);
    assert t == x[..|x| - n];
    assert t[|p| - k] == '(';
  }

  /** Everything the pass changes lies between a "(" and a ")" it keeps. */
  lemma {:induction false} RewrittenInside(ts: seq<Token>)
    returns (p: seq<Token>, m: seq<Token>, m': seq<Token>, q: seq<Token>)
    ensures Redact(ts).out != ts ==>
              && ts == p + ["("] + m + [")"] + q
              && Redact(ts).out == p + ["("] + m' + [")"] + q
    decreases |ts|
  {
    hide IsCallHead, OpenIdx, CallClose, Redact, CallArgs, ArgsOut, Rebuilt, Commas;
    p, m, m', q := [], [], [], [];
    if ts == [] {
      RedactNil();
    } else if !IsCallHead(ts) {
      NotHead(ts);
      p, m, m', q := RewrittenInside(ts[1..]);
      assert ts == [ts[0]] + ts[1..];
      p := [ts[0]] + p;
    } else if CallClose(ts) < 0 {
      Truncated(ts);
    } else {
      var j, x, r := Commas(ArgsOut(ts)), ts[OpenIdx(ts) + 1..CallClose(ts)], ts[CallClose(ts) + 1..];
      RebuiltIs(ts);
      ContentRebuilds(ts);
      var h := RebuiltAround(ts, j, Redact(r).out);
      var h' := RebuiltAround(ts, x, r);
      var p1, m1, m2, q1 := RewrittenInside(r);
      p, m, m', q := h, x, j, r;
      if Redact(r).out != r {
        m, m', q := x + [")"] + p1 + ["("] + m1, j + [")"] + p1 + ["("] + m2, q1;
        Around(h, x, p1, m1, q1);
        Around(h, j, p1, m2, q1);
      }
    }
  }

  lemma RebuiltAround(ts: seq<Token>, j: seq<Token>, r: seq<Token>) returns (h: seq<Token>)
    requires IsCallHead(ts)
    ensures ts != [] && h == ts[..OpenIdx(ts)] && Rebuilt(ts, j, r) == h + ["("] + j + [")"] + r
  {
    hide IsCallHead, OpenIdx;
    HeadShape(ts);
    h := ts[..OpenIdx(ts)];
    assert ts[..OpenIdx(ts) + 1] == h + ["("];
  }

  lemma Around(h: seq<Token>, x: seq<Token>, p: seq<Token>, m: seq<Token>, q: seq<Token>)
    ensures h + ["("] + (x + [")"] + p + ["("] + m) + [")"] + q == h + ["("] + x + [")"] + (p + ["("] + m + [")"] + q)
  {
  }

  lemma FlatAround(p: seq<Token>, m: seq<Token>, q: seq<Token>)
    ensures Flat(p + ["("] + m + [")"] + q) == Flat(p) + "(" + Flat(m) + ")" + Flat(q)
  {
    hide Flat;
    FlatAppend(p + ["("] + m + [")"], q);
    FlatAppend(p + ["("] + m, [")"]);
    FlatAppend(p + ["("], m);
    FlatAppend(p, ["("]);
    FlatOne("(");
    FlatOne(")");
  }

  /** If the redacted argument is masked, the argument itself was a text between
      single quotes with the same blanks around it. */
  lemma MaskedWhole(ts: seq<Token>)
    requires Maskable(Flat(Redact(ts).out))
    ensures var a, r := Flat(ts), Flat(Redact(ts).out);
            && a == Lead(r) + TrimSpace(a) + Trail(r)
            && Quoted2(TrimSpace(a)) && TrimSpace(a) != HIDDEN
  {
    hide Redact, Flat, LeadLen, TrailLen, TrimSpace, Lead, Trail;
    var a, r := Flat(ts), Flat(Redact(ts).out);
    TrimParts(a);
    var p, m, m', q := RewrittenInside(ts);
    if Redact(ts).out != ts {
      FlatAround(p, m, q);
      FlatAround(p, m', q);
      TrimEnds(Flat(p), Flat(m), Flat(q));
      TrimEnds(Flat(p), Flat(m'), Flat(q));
      assert '(' !in HIDDEN;
    }
  }

  // ----- the edits of the whole pass

  lemma {:induction false} RedactExplained(ts: seq<Token>) returns (es: seq<Edit>)
    requires Canonical(ts)
    ensures Explains(es, Flat(ts), Flat(Redact(ts).out), Redact(ts).count) && PlacedAnywhere(es)
    decreases |ts|, 1, 0
  {
    hide Canonical, IsCallHead, OpenIdx, CallClose, Redact, CallArgs, Flat, Explains, RedactEach, MaskedTexts, Join;
    hide PlacedAnywhere, PlacedInList, OpensArg;
    if ts == [] {
      RedactNil();
      FlatNil();
      es := [Keep("")];
      ExplainsKeep("");
      KeepPlaced("");
    } else if !IsCallHead(ts) {
      NotHead(ts);
      SliceCanonical(ts, 1, |ts|);
      assert ts[1..|ts|] == ts[1..];
      es := RedactExplained(ts[1..]);
      ExplainsKeep(ts[0]);
      ExplainsAppend([Keep(ts[0])], ts[0], ts[0], 0, es, Flat(ts[1..]), Flat(Redact(ts[1..]).out),
                     Redact(ts[1..]).count);
      KeepPlaced(ts[0]);
      AppendAnywhere([Keep(ts[0])], es);
      es := [Keep(ts[0])] + es;
      FlatCons(ts[0], ts[1..]);
      assert ts == [ts[0]] + ts[1..];
      FlatCons(ts[0], Redact(ts[1..]).out);
    } else if CallClose(ts) < 0 {
      Truncated(ts);
      es := [Keep(Flat(ts))];
      ExplainsKeep(Flat(ts));
      KeepPlaced(Flat(ts));
    } else {
      var o, c := OpenIdx(ts), CallClose(ts);
      var inner := RedactEach(CallArgs(ts));
      var masked := MaskedTexts(ts[0], inner.outs);
      var head, content, rest := Flat(ts[..o + 1]), Flat(ts[o + 1..c]), ts[c + 1..];
      var list := ListExplained(ts);
      SliceCanonical(ts, c + 1, |ts|);
      assert ts[c + 1..|ts|] == rest;
      var tail := RedactExplained(rest);
      ExplainsKeep(head);
      ExplainsKeep(")");
      var n := inner.count + masked.count;
      ExplainsAppend([Keep(head)], head, head, 0, list, content, Join(masked.args, ","), n);
      ExplainsAppend([Keep(head)] + list, head + content, head + Join(masked.args, ","), n, [Keep(")")], ")", ")", 0);
      es := [Keep(head)] + list + [Keep(")")];
      ExplainsAppend(es, head + content + ")", head + Join(masked.args, ",") + ")", n,
                     tail, Flat(rest), Flat(Redact(rest).out), Redact(rest).count);
      es := es + tail;
      HeadOpens(ts);
      CallPlaced(head, list, tail);
      CallBytes(ts);
      CallText(ts);
      RedactCall(ts);
    }
  }

  lemma HeadOpens(ts: seq<Token>)
    requires IsCallHead(ts)
    ensures OpenIdx(ts) < |ts| && OpensArg(Flat(ts[..OpenIdx(ts) + 1]))
  {
    hide Flat, IsCallHead, OpenIdx;
    HeadShape(ts);
    var o := OpenIdx(ts);
    assert ts[..o + 1] == ts[..o] + ["("];
    FlatAppend(ts[..o], ["("]);
    FlatOne("(");
  }

  lemma CallBytes(ts: seq<Token>)
    requires IsCallHead(ts) && CallClose(ts) >= 0
    ensures var o, c := OpenIdx(ts), CallClose(ts);
            Flat(ts) == Flat(ts[..o + 1]) + Flat(ts[o + 1..c]) + ")" + Flat(ts[c + 1..])
  {
    hide Flat, IsCallHead, OpenIdx, CloseIdx;
    HeadShape(ts);
    var o, c := OpenIdx(ts), CallClose(ts);
    assert ts == ts[..o + 1] + ts[o + 1..c] + [")"] + ts[c + 1..];
    FlatAppend(ts[..o + 1] + ts[o + 1..c] + [")"], ts[c + 1..]);
    FlatAppend(ts[..o + 1] + ts[o + 1..c], [")"]);
    FlatAppend(ts[..o + 1], ts[o + 1..c]);
    FlatOne(")");
  }

  /** The argument list of a call: each argument explained, commas kept. */
  lemma {:induction false} ListExplained(ts: seq<Token>) returns (es: seq<Edit>)
    requires Canonical(ts) && IsCallHead(ts) && CallClose(ts) >= 0
    ensures var inner := RedactEach(CallArgs(ts));
            var masked := MaskedTexts(ts[0], inner.outs);
            Explains(es, Flat(ts[OpenIdx(ts) + 1..CallClose(ts)]), Join(masked.args, ","), inner.count + masked.count)
    ensures PlacedInList(es)
    decreases |ts|, 0, 1 + |CallArgs(ts)|
  {
    hide Canonical, IsCallHead, Redact, Flat, Explains, RedactEach, Pieces, TrimSpace, Positions, MaskAt, OpenIdx;
    hide CloseIdx;
    hide PlacedInList, NoComma;
    var ps := CallArgs(ts);
    var content := ts[OpenIdx(ts) + 1..CallClose(ts)];
    var inner := RedactEach(ps);
    var texts := Flats(inner.outs);
    var masked := MaskAt(texts, Positions(ts[0], texts));
    MaskAtForm(texts, Positions(ts[0], texts));
    if ps == [] {
      EachNil(ps);
      es := [Drop(Flat(content))];
      DropExplained(Flat(content));
      assert masked.args == texts == [];
    } else {
      forall i | 0 <= i < |ps| ensures Canonical(ps[i]) && |ps[i]| < |ts| {
        CallArgFacts(ts, i);
      }
      EachOuts(ps);
      PiecesNoComma(content, 0);
      es := EachExplained(ps, masked.args, |ts|);
      CommasPieces(content, 0);
      MaskAtCount(texts, Positions(ts[0], texts));
      CountsAgree(es, Flat(Commas(ps)), Join(masked.args, ","), inner.count + Changed(texts, masked.args),
                  inner.count + masked.count);
    }
  }

  lemma DropExplained(s: string)
    requires TrimSpace(s) == ""
    ensures Explains([Drop(s)], s, "", 0) && PlacedInList([Drop(s)])
  {
    assert [Drop(s)][1..] == [];
  }

  lemma CountsAgree(es: seq<Edit>, s: string, t: string, m: nat, n: nat)
    requires Explains(es, s, t, m) && m == n
    ensures Explains(es, s, t, n)
  {
  }

  lemma EachOuts(ps: seq<seq<Token>>)
    ensures forall i :: 0 <= i < |ps| ==> RedactEach(ps).outs[i] == Redact(ps[i]).out
  {
    forall i | 0 <= i < |ps| ensures RedactEach(ps).outs[i] == Redact(ps[i]).out {
      EachStep(ps, i);
    }
  }

  /** How many arguments differ. */
  function Changed(a: seq<string>, b: seq<string>): nat
    requires |a| == |b|
  {
    if a == [] then 0 else (if a[0] == b[0] then 0 else 1) + Changed(a[1..], b[1..])
  }

  lemma {:induction false} ChangedSet(a: seq<string>, m: string, b: seq<string>, i: nat)
    requires |a| == |b| && i < |a| && a[i] != m && b[i] == m
    ensures Changed(a, b) == 1 + Changed(a[i := m], b)
  {
    if i > 0 {
      ChangedSet(a[1..], m, b[1..], i - 1);
      assert a[i := m][1..] == a[1..][i - 1 := m];
    } else {
      assert a[i := m][1..] == a[1..];
    }
  }

  lemma {:induction false} ChangedNone(a: seq<string>)
    ensures Changed(a, a) == 0
  {
    if a != [] { ChangedNone(a[1..]); }
  }

  /** The count of the masking loop is the number of arguments it changed. */
  lemma {:induction false} MaskAtCount(args: seq<string>, ps: seq<nat>)
    ensures MaskAt(args, ps).count == Changed(args, MaskAt(args, ps).args)
    decreases |ps|
  {
    hide Maskable, Lead, Trail, MaskLiteral;
    if ps == [] {
      ChangedNone(args);
    } else {
      var p := ps[0];
      if 1 <= p <= |args| {
        var a := args[p - 1];
        MaskedForm(a);
        if Maskable(a) {
          var m := Lead(a) + HIDDEN + Trail(a);
          MaskedTrim(a);
          var args' := args[p - 1 := m];
          MaskAtCount(args', ps[1..]);
          MaskAtForm(args', ps[1..]);
          assert MaskOf(args'[p - 1], MaskAt(args', ps[1..]).args[p - 1]);
          ChangedSet(args, m, MaskAt(args', ps[1..]).args, p - 1);
        } else {
          MaskAtCount(args, ps[1..]);
        }
      } else {
        MaskAtCount(args, ps[1..]);
      }
    }
  }

  lemma {:induction false} EachExplained(ps: seq<seq<Token>>, texts: seq<string>, bound: nat) returns (es: seq<Edit>)
    requires ps != [] && |texts| == |ps|
    requires forall i :: 0 <= i < |ps| ==> Canonical(ps[i]) && |ps[i]| < bound && NoComma(ps[i], 0)
    requires forall i :: 0 <= i < |ps| ==> MaskOf(Flat(Redact(ps[i]).out), texts[i])
    ensures Explains(es, Flat(Commas(ps)), Join(texts, ","),
                     RedactEach(ps).count + Changed(Flats(RedactEach(ps).outs), texts))
    ensures PlacedInList(es)
    decreases bound, 0, |ps|
  {
    hide PlacedInList, NoComma;
    hide Canonical, Redact, Flat, Explains, Maskable, Lead, Trail;
    var a, b := Flat(ps[0]), texts[0];
    var r := Redact(ps[0]);
    es := RedactExplained(ps[0]);
    AnywhereInList(es);
    var n := r.count + if Flat(r.out) == b then 0 else 1;
    if Flat(r.out) != b {
      es := HideExplained(ps[0], b);
    }
    var outs := RedactEach(ps).outs;
    assert outs == [r.out] + RedactEach(ps[1..]).outs && Flats(outs)[0] == Flat(r.out);
    if |ps| == 1 {
      EachNil(ps[1..]);
      assert texts[1..] == [] && Flats(outs)[1..] == [];
      CountsAgree(es, a, b, n, RedactEach(ps).count + Changed(Flats(RedactEach(ps).outs), texts));
    } else {
      var rest := EachExplained(ps[1..], texts[1..], bound);
      var m := RedactEach(ps[1..]).count + Changed(Flats(RedactEach(ps[1..]).outs), texts[1..]);
      ExplainsKeep(",");
      ExplainsAppend(es, a, b, n, [Keep(",")], ",", ",", 0);
      ExplainsAppend(es + [Keep(",")], a + ",", b + ",", n, rest, Flat(Commas(ps[1..])), Join(texts[1..], ","), m);
      AppendList(es, rest);
      es := es + [Keep(",")] + rest;
      FlatAppend(ps[0] + [","], Commas(ps[1..]));
      FlatAppend(ps[0], [","]);
      FlatOne(",");
      assert Flats(RedactEach(ps).outs)[1..] == Flats(RedactEach(ps[1..]).outs);
    }
  }

  lemma {:induction false} HideExplained(ts: seq<Token>, b: string) returns (es: seq<Edit>)
    requires MaskOf(Flat(Redact(ts).out), b) && Flat(Redact(ts).out) != b && Canonical(ts) && NoComma(ts, 0)
    ensures Explains(es, Flat(ts), b, Redact(ts).count + 1) && PlacedInList(es)
  {
    hide Lex, NoComma, Canonical, Redact, Flat, Maskable, TrimSpace, Lead, Trail, PlacedInList, Explains;
    hide Quoted2, Blank;
    OneArg(ts);
    var a, r := Flat(ts), Flat(Redact(ts).out);
    MaskedWhole(ts);
    TrimParts(r);
    var e := Hide(Lead(r), TrimSpace(a), Trail(r));
    OnePlaced(e);
    OneExplained(e, a, b, Redact(ts).count);
    es := [e];
  }

  lemma OneArg(ts: seq<Token>)
    requires Canonical(ts) && NoComma(ts, 0)
    ensures NoComma(Lex(Flat(ts)), 0)
  {
    LexFlat(ts);
  }

  lemma OneExplained(e: Edit, before: string, after: string, n: nat)
    requires e.Hide? && Honest(e) && Old(e) == before && New(e) == after
    ensures Explains([e], before, after, n + 1)
  {
    hide Honest, Old, New;
    var es := [e];
    assert es[1..] == [] && Before(es[1..]) == "" == After(es[1..]) && Hides(es[1..]) == 0;
    assert before + "" == before && after + "" == after;
  }

  lemma OnePlaced(e: Edit)
    ensures PlacedInList([e])
  {
    var es := [e];
    assert es[1..] == [] && Before([]) == "";
    forall pre, post | OpensArg(pre) && EndsArg(post) ensures Placed(pre, es, post) {
      assert "" + post == post;
    }
  }

  lemma AnywhereInList(es: seq<Edit>)
    requires PlacedAnywhere(es)
    ensures PlacedInList(es)
  {
  }

  /** No argument has a comma of its own list in it. */
  lemma {:induction false} PiecesNoComma(ts: seq<Token>, d: int)
    ensures var ps := Pieces(ts, d);
            ps != [] && NoComma(ps[0], d) && forall i :: 0 < i < |ps| ==> NoComma(ps[i], 0)
  {
    if ts != [] {
      var comma := ts[0] == "," && d == 0;
      PiecesNoComma(ts[1..], if comma then d else d + NestStep(ts[0]));
      var ps := Pieces(ts, d);
      if !comma {
        assert ps[0][1..] == Pieces(ts[1..], d + NestStep(ts[0]))[0];
      }
    }
  }

  /** For every text: the output is the text under edits that hide whole arguments
      of calls and drop blank argument lists, and the count is 0 exactly when no
      argument was hidden. */
  lemma PassExplained(s: string) returns (es: seq<Edit>)
    ensures Before(es) == s && After(es) == RedactText(s)
    ensures Placed("", es, "") && forall e :: e in es ==> Honest(e)
    ensures Redact(Lex(s)).count == 0 <==> Hides(es) == 0
    ensures Hides(es) <= Redact(Lex(s)).count
  {
    LexCanonical(s);
    es := RedactExplained(Lex(s));
  }
}
