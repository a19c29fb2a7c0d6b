/** Bracket structure of token lists, and what it means for the two scanners
    that count brackets: the one for ")" counts parentheses only, the one for
    commas counts square brackets as well. */
module SqlNesting {
  import opened SqlLexer
  import opened SqlScanners

  /** The closers still expected, the next one first. */
  datatype Nesting = Mismatch | Expect(closers: seq<Token>)

  function Step(t: Token, st: seq<Token>): Nesting {
    if t == "(" then Expect([")"] + st)
    else if t == "[" then Expect(["]"] + st)
    else if t == ")" || t == "]" then
      if st != [] && st[0] == t then Expect(st[1..]) else Mismatch
    else Expect(st)
  }

  function Run(ts: seq<Token>, st: seq<Token>): Nesting {
    if ts == [] then Expect(st)
    else
      match Step(ts[0], st)
      case Mismatch => Mismatch
      case Expect(st') => Run(ts[1..], st')
  }

  /** Round and square brackets of ts close properly among themselves. */
  predicate Nested(ts: seq<Token>) {
    Run(ts, []) == Expect([])
  }

  function Weight(ts: seq<Token>): int {
    if ts == [] then 0 else NestStep(ts[0]) + Weight(ts[1..])
  }

  function Parens(st: seq<Token>): nat {
    if st == [] then 0 else (if st[0] == ")" then 1 else 0) + Parens(st[1..])
  }

  /** No comma of ts is at nesting depth 0, the depth before ts being d. */
  predicate NoComma(ts: seq<Token>, d: int) {
    ts == [] || (!(ts[0] == "," && d == 0) && NoComma(ts[1..], d + NestStep(ts[0])))
  }

  function Onward(n: Nesting, ts: seq<Token>): Nesting {
    match n
    case Mismatch => Mismatch
    case Expect(st) => Run(ts, st)
  }

  lemma {:induction false} RunAppend(a: seq<Token>, b: seq<Token>, st: seq<Token>)
    ensures Run(a + b, st) == Onward(Run(a, st), b)
  {
    if a == [] {
      assert a + b == b;
    } else {
      assert (a + b)[1..] == a[1..] + b;
      match Step(a[0], st)
      case Mismatch =>
      case Expect(st') => RunAppend(a[1..], b, st');
    }
  }

  /** A run does not look below what it was given. */
  lemma {:induction false} RunFrame(a: seq<Token>, st: seq<Token>, base: seq<Token>)
    requires Run(a, st) != Mismatch
    ensures Run(a, st + base) == Expect(Run(a, st).closers + base)
  {
    if a != [] {
      var st' := Step(a[0], st).closers;
      assert Step(a[0], st + base) == Expect(st' + base) by {
        if a[0] == "(" {
          assert [")"] + (st + base) == st' + base;
        } else if a[0] == "[" {
          assert ["]"] + (st + base) == st' + base;
        } else if a[0] == ")" || a[0] == "]" {
          assert (st + base)[1..] == st[1..] + base;
        }
      }
      RunFrame(a[1..], st', base);
    }
  }

  lemma NestedRun(ts: seq<Token>, st: seq<Token>)
    requires Nested(ts)
    ensures Run(ts, st) == Expect(st)
  {
    RunFrame(ts, [], st);
    assert [] + st == st;
  }

  lemma {:induction false} RunWeight(ts: seq<Token>, st: seq<Token>)
    requires Run(ts, st) != Mismatch
    ensures Weight(ts) == |Run(ts, st).closers| - |st|
  {
    if ts != [] {
      RunWeight(ts[1..], Step(ts[0], st).closers);
    }
  }

  /** Below depth e > 0 every comma is out of reach of the splitter. */
  lemma {:induction false} RunNoComma(ts: seq<Token>, st: seq<Token>, e: nat)
    requires Run(ts, st) != Mismatch && e > 0
    ensures NoComma(ts, |st| + e)
  {
    if ts != [] {
      RunNoComma(ts[1..], Step(ts[0], st).closers, e);
    }
  }

  lemma {:induction false} NoCommaAppend(a: seq<Token>, b: seq<Token>, d: int)
    ensures NoComma(a + b, d) <==> NoComma(a, d) && NoComma(b, d + Weight(a))
  {
    if a == [] {
      assert a + b == b;
    } else {
      assert (a + b)[1..] == a[1..] + b;
      NoCommaAppend(a[1..], b, d + NestStep(a[0]));
    }
  }

  // ----- the search for ")"

  /** One token on the stack x and on the stack that holds the sought ")" below x. */
  lemma StackStep(t: Token, x: seq<Token>, base: seq<Token>) returns (x': seq<Token>)
    requires Step(t, x + [")"] + base).Expect? && !(t == ")" && Parens(x) == 0)
    ensures Step(t, x) == Expect(x') && Step(t, x + [")"] + base) == Expect(x' + [")"] + base)
    ensures Parens(x') == Parens(x) + ParenStep(t)
  {
    var st := x + [")"] + base;
    assert x != [] ==> st[0] == x[0];
    if t == "(" {
      x' := [")"] + x;
      assert [")"] + st == x' + [")"] + base && x'[1..] == x;
    } else if t == "[" {
      x' := ["]"] + x;
      assert ["]"] + st == x' + [")"] + base && x'[1..] == x;
    } else if t == ")" || t == "]" {
      assert x != [];
      x' := x[1..];
      assert st[1..] == x' + [")"] + base;
    } else {
      x' := x;
    }
  }

  /** If the closer the search for ")" finds is reached without a mismatch, what
      lies before it closes properly. Above the sought ")" the stack holds x. */
  lemma {:induction false} CloseNested(ts: seq<Token>, x: seq<Token>, base: seq<Token>)
    requires Run(ts, x + [")"] + base) != Mismatch
    ensures var k := CloseIdx(ts, Parens(x) + 1); k >= 0 ==> Run(ts[..k], x) == Expect([])
  {
    var k := CloseIdx(ts, Parens(x) + 1);
    hide Step, ParenStep;
    if k > 0 {
      RunStep(ts, x + [")"] + base);
      var x' := StackStep(ts[0], x, base);
      CloseNested(ts[1..], x', base);
      assert ts[..k][1..] == ts[1..][..k - 1];
    } else if k == 0 {
      assert ts[..0] == [];
      if x != [] {
        TopCloses(ts, x, base);
      }
    }
  }

  lemma TopCloses(ts: seq<Token>, x: seq<Token>, base: seq<Token>)
    requires Run(ts, x + [")"] + base) != Mismatch && x != [] && ts != [] && ts[0] == ")"
    ensures Parens(x) > 0
  {
    assert (x + [")"] + base)[0] == x[0];
  }

  /** Over a properly closed stretch the search goes on. */
  lemma {:induction false} ClosePast(a: seq<Token>, b: seq<Token>, x: seq<Token>, e: nat)
    requires Run(a, x) != Mismatch && e > 0
    ensures var k := CloseIdx(b, Parens(Run(a, x).closers) + e);
            CloseIdx(a + b, Parens(x) + e) == if k < 0 then -1 else |a| + k
  {
    hide Step, Parens, ParenStep, Run, CloseIdx;
    if a == [] {
      RunNil(x);
      assert a + b == b;
    } else {
      assert (a + b)[1..] == a[1..] + b && (a + b)[0] == a[0];
      RunStep(a, x);
      ParensStep(a[0], x, e);
      CloseStep(a + b, Parens(x) + e);
      ClosePast(a[1..], b, Step(a[0], x).closers, e);
    }
  }

  lemma RunNil(x: seq<Token>)
    ensures Run([], x) == Expect(x)
  {
  }

  lemma CloseStep(ts: seq<Token>, d: int)
    requires ts != []
    ensures CloseIdx(ts, d) ==
            if ts[0] == ")" && d == 1 then 0
            else var r := CloseIdx(ts[1..], d + ParenStep(ts[0])); if r < 0 then -1 else r + 1
  {
  }

  lemma RunStep(a: seq<Token>, x: seq<Token>)
    requires a != [] && Run(a, x) != Mismatch
    ensures Step(a[0], x).Expect? && Run(a[1..], Step(a[0], x).closers) != Mismatch
    ensures Run(a, x) == Run(a[1..], Step(a[0], x).closers)
  {
  }

  lemma ParensStep(t: Token, x: seq<Token>, e: nat)
    requires Step(t, x).Expect? && e > 0
    ensures Parens(Step(t, x).closers) + e == Parens(x) + e + ParenStep(t)
    ensures t == ")" ==> Parens(x) > 0
  {
    if t == "(" || t == "[" {
      assert Step(t, x).closers[1..] == x;
    }
  }

  /** If everything closes in the end, the search for ")" succeeds. */
  lemma {:induction false} CloseExists(ts: seq<Token>, x: seq<Token>, base: seq<Token>)
    requires Run(ts, x + [")"] + base) == Expect([])
    ensures CloseIdx(ts, Parens(x) + 1) >= 0
  {
    hide Step, ParenStep;
    assert x + [")"] + base != [];
    if ts != [] && !(ts[0] == ")" && Parens(x) == 0) {
      RunStep(ts, x + [")"] + base);
      var x' := StackStep(ts[0], x, base);
      CloseExists(ts[1..], x', base);
    }
  }

  // ----- the cut at commas

  lemma {:induction false} PiecesPast(a: seq<Token>, b: seq<Token>, d: int)
    requires NoComma(a, d)
    ensures var ps := Pieces(b, d + Weight(a)); Pieces(a + b, d) == [a + ps[0]] + ps[1..]
  {
    if a == [] {
      assert a + b == b;
      var ps := Pieces(b, d);
      assert [] + ps[0] == ps[0] && [ps[0]] + ps[1..] == ps;
    } else {
      assert (a + b)[1..] == a[1..] + b;
      PiecesPast(a[1..], b, d + NestStep(a[0]));
      var ps := Pieces(b, d + Weight(a));
      assert [a[0]] + (a[1..] + ps[0]) == a + ps[0];
    }
  }

  ghost predicate Whole(p: seq<Token>) {
    Nested(p) && NoComma(p, 0)
  }

  /** The pieces of a properly closed list are properly closed. */
  lemma {:induction false} PiecesNested(ts: seq<Token>, st: seq<Token>)
    requires Run(ts, st) == Expect([])
    ensures var ps := Pieces(ts, |st|);
            && Run(ps[0], st) == Expect([]) && NoComma(ps[0], |st|)
            && forall p :: p in ps[1..] ==> Whole(p)
  {
    hide Whole;
    if ts != [] {
      var ps := Pieces(ts, |st|);
      if ts[0] == "," && |st| == 0 {
        PiecesNested(ts[1..], st);
        var rest := Pieces(ts[1..], |st|);
        assert ps[1..] == rest && rest == [rest[0]] + rest[1..];
        assert Whole(rest[0]) by { WholeNow(rest[0]); }
      } else {
        var st' := Step(ts[0], st).closers;
        PiecesNested(ts[1..], st');
        var rest := Pieces(ts[1..], |st'|);
        assert ps[0] == [ts[0]] + rest[0] && ps[0][1..] == rest[0];
        assert ps[1..] == rest[1..];
      }
    }
  }

  lemma WholeNow(p: seq<Token>)
    requires Run(p, []) == Expect([]) && NoComma(p, 0)
    ensures Whole(p)
  {
  }

  function Commas(ps: seq<seq<Token>>): seq<Token> {
    if ps == [] then []
    else if |ps| == 1 then ps[0]
    else ps[0] + [","] + Commas(ps[1..])
  }

  lemma {:induction false} PiecesCommas(ps: seq<seq<Token>>)
    requires ps != []
    requires forall p :: p in ps ==> Whole(p)
    ensures Pieces(Commas(ps), 0) == ps
    ensures Nested(Commas(ps))
  {
    hide Run, Pieces, NoComma, Weight, Commas;
    var p := ps[0];
    assert p in ps && Whole(p);
    RunWeight(p, []);
    assert p + [] == p;
    if |ps| == 1 {
      assert ps == [p];
      LoneCommas(p);
      PiecesPast(p, [], 0);
      assert Pieces([], 0) == [[]] by {
        NoPieces();
      }
    } else {
      PiecesCommas(ps[1..]);
      var rest := [","] + Commas(ps[1..]);
      CommasTwo(ps);
      PiecesPast(p, rest, 0);
      PiecesBehind(Commas(ps[1..]));
      RunAppend(p, rest, []);
      RunComma(Commas(ps[1..]));
    }
  }

  lemma NoPieces()
    ensures Pieces([], 0) == [[]]
  {
  }

  lemma LoneCommas(p: seq<Token>)
    ensures Commas([p]) == p
  {
  }

  lemma CommasTwo(ps: seq<seq<Token>>)
    requires |ps| > 1
    ensures Commas(ps) == ps[0] + ([","] + Commas(ps[1..]))
  {
  }

  lemma PiecesBehind(ts: seq<Token>)
    ensures Pieces([","] + ts, 0) == [[]] + Pieces(ts, 0)
  {
    assert ([","] + ts)[1..] == ts;
  }

  lemma RunComma(ts: seq<Token>)
    ensures Run([","] + ts, []) == Run(ts, [])
  {
    assert ([","] + ts)[1..] == ts;
  }

  lemma CommasOnto(t: Token, ps: seq<seq<Token>>)
    requires ps != []
    ensures Commas([[t] + ps[0]] + ps[1..]) == [t] + Commas(ps)
  {
    var qs := [[t] + ps[0]] + ps[1..];
    assert qs[1..] == ps[1..];
    if |ps| > 1 {
      assert [t] + ps[0] + [","] + Commas(ps[1..]) == [t] + (ps[0] + [","] + Commas(ps[1..]));
    }
  }

  lemma CommasBehind(ps: seq<seq<Token>>)
    requires ps != []
    ensures Commas([[]] + ps) == [","] + Commas(ps)
  {
    assert ([[]] + ps)[1..] == ps;
    assert [] + [","] + Commas(ps) == [","] + Commas(ps);
  }

  /** Cutting and joining gives the list back, whatever its brackets. */
  lemma {:induction false} CommasPieces(ts: seq<Token>, d: int)
    ensures Commas(Pieces(ts, d)) == ts
  {
    hide Commas, NestStep;
    if ts == [] {
      LoneCommas([]);
    } else if ts[0] == "," && d == 0 {
      CommasPieces(ts[1..], d);
      CommasBehind(Pieces(ts[1..], d));
    } else {
      CommasPieces(ts[1..], d + NestStep(ts[0]));
      CommasOnto(ts[0], Pieces(ts[1..], d + NestStep(ts[0])));
    }
  }
}
