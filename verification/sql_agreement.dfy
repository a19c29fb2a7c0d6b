/** At every byte all scanners read the same region. */
module SqlAgreement {
  import opened SqlLexer
  import opened SqlScanners
  import opened SqlNesting
  import opened SqlRedactor
  import Text

  /** The region a byte lies in - literal, quoted identifier, comment, word or
      code - the byte that opened it, and how far into it the byte is. */
  datatype Region = Region(kind: Kind, opener: char, depth: nat)

  /** Read by scanning s from its start. */
  function RegionAt(s: string, x: nat): Region
    requires x < |s|
    decreases |s|
  {
    var n := TokLen(s);
    if x < n then Region(KindOf(s), s[0], x) else RegionAt(s[n..], x - n)
  }

  function RegionOf(ts: seq<Token>, x: nat): Region
    requires x < |Flat(ts)|
    decreases |ts|
  {
    if x < |ts[0]| then Region(KindOf(ts[0]), ts[0][0], x) else RegionOf(ts[1..], x - |ts[0]|)
  }

  lemma {:induction false} RegionLex(s: string, x: nat)
    requires x < |s|
    ensures Flat(Lex(s)) == s && RegionAt(s, x) == RegionOf(Lex(s), x)
    decreases |s|
  {
    LexCanonical(s);
    var n := TokLen(s);
    TokenPrefix(s);
    if x >= n {
      RegionLex(s[n..], x - n);
      assert Lex(s)[1..] == Lex(s[n..]);
    }
  }

  lemma {:induction false} RegionAppend(a: seq<Token>, b: seq<Token>, x: nat)
    requires x < |Flat(a)| + |Flat(b)|
    ensures |Flat(a + b)| == |Flat(a)| + |Flat(b)|
    ensures RegionOf(a + b, x) == if x < |Flat(a)| then RegionOf(a, x) else RegionOf(b, x - |Flat(a)|)
  {
    FlatAppend(a, b);
    if a == [] {
      assert a + b == b;
    } else {
      assert (a + b)[1..] == a[1..] + b;
      FlatAppend(a[1..], b);
      if x >= |a[0]| { RegionAppend(a[1..], b, x - |a[0]|); }
    }
  }

  /** A slice at token boundaries, scanned afresh, reads as it does in the text. */
  lemma RegionSlice(s: string, i: nat, j: nat, y: nat)
    requires i <= j <= |Lex(s)| && y < |Flat(Lex(s)[i..j])|
    ensures var p := |Flat(Lex(s)[..i])|;
            && p + |Flat(Lex(s)[i..j])| <= |s|
            && s[p..p + |Flat(Lex(s)[i..j])|] == Flat(Lex(s)[i..j])
            && RegionAt(Flat(Lex(s)[i..j]), y) == RegionAt(s, p + y)
  {
    hide Lex, Flat, RegionAt, RegionOf;
    var ts := Lex(s);
    var a, b, c := ts[..i], ts[i..j], ts[j..];
    LexSlice(s, i, j);
    LexSlice(s, 0, i);
    var p, q := |Flat(a)|, |Flat(ts[..j])|;
    assert ts[..j] == a + b && ts == a + (b + c);
    FlatAppend(a, b);
    FlatAppend(b, c);
    RegionLex(Flat(b), y);
    RegionLex(s, p + y);
    RegionAppend(b, c, y);
    RegionAppend(a, b + c, p + y);
  }

  /** How many tokens of the joined list come before piece i. */
  function Start(ps: seq<seq<Token>>, i: nat): nat
    requires i < |ps|
  {
    if i == 0 then 0 else |ps[0]| + 1 + Start(ps[1..], i - 1)
  }

  lemma {:induction false} PieceAt(ps: seq<seq<Token>>, i: nat)
    requires i < |ps|
    ensures var a := Start(ps, i); a + |ps[i]| <= |Commas(ps)| && Commas(ps)[a..a + |ps[i]|] == ps[i]
  {
    if i > 0 {
      PieceAt(ps[1..], i - 1);
      var c, r := Commas(ps), Commas(ps[1..]);
      var a := Start(ps[1..], i - 1);
      assert c == ps[0] + [","] + r;
      assert c[|ps[0]| + 1 + a..|ps[0]| + 1 + a + |ps[i]|] == r[a..a + |ps[i]|];
    }
  }

  /** t stands in s at position at, and scanned on its own reads as it does there. */
  ghost predicate ReadsAt(s: string, at: nat, t: string) {
    && at + |t| <= |s| && s[at..at + |t|] == t
    && forall y :: 0 <= y < |t| ==> RegionAt(t, y) == RegionAt(s, at + y)
  }

  lemma ReadsWithin(s: string, at: nat, t: string, inner: nat, u: string)
    requires ReadsAt(s, at, t) && ReadsAt(t, inner, u)
    ensures ReadsAt(s, at + inner, u)
  {
    hide RegionAt;
    var v := s[at + inner..at + inner + |u|];
    forall y | 0 <= y < |u| ensures v[y] == u[y] {
      assert s[at..at + |t|][inner + y] == v[y] && t[inner..inner + |u|][y] == t[inner + y];
    }
    forall y | 0 <= y < |u| ensures RegionAt(u, y) == RegionAt(s, at + inner + y) {
      assert RegionAt(t, inner + y) == RegionAt(s, at + (inner + y));
    }
  }

  lemma SliceReads(s: string, i: nat, j: nat)
    requires i <= j <= |Lex(s)|
    ensures ReadsAt(s, |Flat(Lex(s)[..i])|, Flat(Lex(s)[i..j]))
  {
    hide Lex, Flat, RegionAt;
    var t := Flat(Lex(s)[i..j]);
    LexSlice(s, i, j);
    forall y | 0 <= y < |t| ensures RegionAt(t, y) == RegionAt(s, |Flat(Lex(s)[..i])| + y) {
      RegionSlice(s, i, j, y);
    }
    LexSliceLength(s, i, j);
  }

  lemma LexSliceLength(s: string, i: nat, j: nat)
    requires i <= j <= |Lex(s)|
    ensures |Flat(Lex(s)[..i])| + |Flat(Lex(s)[i..j])| == |Flat(Lex(s)[..j])|
  {
    hide Lex, Flat;
    var ts := Lex(s);
    assert ts[..j] == ts[..i] + ts[i..j];
    FlatAppend(ts[..i], ts[i..j]);
  }

  /** Where argument i begins in the argument list, in bytes. */
  function ArgStart(list: string, i: nat): nat
    requires i < |Args(Lex(list))|
  {
    var ts, ps := Lex(list), Args(Lex(list));
    if Start(ps, i) <= |ts| then |Flat(ts[..Start(ps, i)])| else 0
  }

  lemma ArgReads(list: string, i: nat)
    requires i < |Args(Lex(list))|
    ensures ReadsAt(list, ArgStart(list, i), Flat(Args(Lex(list))[i]))
  {
    hide Lex, Flat, RegionAt, Text.TrimSpace, Pieces, ReadsAt;
    var ts, ps := Lex(list), Args(Lex(list));
    CommasPieces(ts, 0);
    PieceAt(ps, i);
    var a := Start(ps, i);
    SliceReads(list, a, a + |ps[i]|);
  }

  /** The span MatchingParen delimits, and each argument SplitArgs cuts from it,
      read like the text itself. The "(" is token k of the text. */
  lemma ScannersAgree(s: string, k: nat)
    requires k < |Lex(s)| && Lex(s)[k] == "("
    ensures var open := |Flat(Lex(s)[..k])|;
            && open < |s| && s[open] == '('
            && var close := CloseFrom(s, open, 0);
               close >= 0 ==>
                 && open < close < |s| && s[close] == ')'
                 && var list := s[open + 1..close];
                    && ReadsAt(s, open + 1, list)
                    && forall i :: 0 <= i < |Args(Lex(list))| ==>
                         ReadsAt(s, open + 1 + ArgStart(list, i), Flat(Args(Lex(list))[i]))
  {
    hide Lex, Flat, RegionAt, CloseIdx, Args, ReadsAt, ArgStart;
    var open, close := ParenBytes(s, k);
    if close >= 0 {
      var list := s[open + 1..close];
      SliceReads(s, k + 1, k + CloseIdx(Lex(s)[k..], 0));
      forall i | 0 <= i < |Args(Lex(list))|
        ensures ReadsAt(s, open + 1 + ArgStart(list, i), Flat(Args(Lex(list))[i]))
      {
        ArgReads(list, i);
        ReadsWithin(s, open + 1, list, ArgStart(list, i), Flat(Args(Lex(list))[i]));
      }
    }
  }
}
