/** editDistance: the least number of edits, and a metric. */
module EditDistance {

  // ----- edits, one rune at a time

  datatype Edit = Insert(at: nat, rune: char) | Delete(at: nat) | Substitute(at: nat, rune: char)

  predicate Applies(e: Edit, s: string) {
    match e
    case Insert(at, _) => at <= |s|
    case Delete(at) => at < |s|
    case Substitute(at, _) => at < |s|
  }

  function Apply(e: Edit, s: string): string
    requires Applies(e, s)
  {
    match e
    case Insert(at, rune) => s[..at] + [rune] + s[at..]
    case Delete(at) => s[..at] + s[at + 1..]
    case Substitute(at, rune) => s[at := rune]
  }

  /** The edits, applied one after the other, turn a into b. */
  predicate Turns(es: seq<Edit>, a: string, b: string)
    decreases |es|
  {
    if es == [] then a == b else Applies(es[0], a) && Turns(es[1..], Apply(es[0], a), b)
  }

  // ----- the recurrence

  function Min(x: nat, y: nat): nat {
    if x < y then x else y
  }

  function Cost(x: char, y: char): nat {
    if x == y then 0 else 1
  }

  function Init(s: string): string
    requires s != ""
  {
    s[..|s| - 1]
  }

  function Last(s: string): char
    requires s != ""
  {
    s[|s| - 1]
  }

  function Lev(a: string, b: string): nat
    decreases |a| + |b|
  {
    if a == "" then |b|
    else if b == "" then |a|
    else Min(Min(Lev(a, Init(b)) + 1, Lev(Init(a), b) + 1), Lev(Init(a), Init(b)) + Cost(Last(a), Last(b)))
  }

  lemma FromNothing(s: string)
    ensures Lev("", s) == |s| == Lev(s, "")
  {
  }

  lemma LevStep(a: string, b: string)
    requires a != "" && b != ""
    ensures Lev(a, b) ==
            Min(Min(Lev(a, Init(b)) + 1, Lev(Init(a), b) + 1), Lev(Init(a), Init(b)) + Cost(Last(a), Last(b)))
  {
    hide Init, Last, Cost, Min;
  }

  // ----- the programme

  method Distance(a: string, b: string) returns (d: nat)
    ensures d == Lev(a, b)
  {
    hide Lev;
    var prev := new nat[|b| + 1];
    var cur := new nat[|b| + 1];
    for j := 0 to |b| + 1
      invariant forall k :: 0 <= k < j ==> prev[k] == k
    {
      prev[j] := j;
    }
    forall k | 0 <= k <= |b| ensures prev[k] == Lev(a[..0], b[..k]) {
      FromNothing(b[..k]);
    }
    for i := 1 to |a| + 1
      invariant prev != cur && prev.Length == cur.Length == |b| + 1
      invariant fresh(prev) && fresh(cur)
      invariant forall k :: 0 <= k <= |b| ==> prev[k] == Lev(a[..i - 1], b[..k])
    {
      cur[0] := i;
      FromNothing(a[..i]);
      for j := 1 to |b| + 1
        invariant forall k :: 0 <= k <= |b| ==> prev[k] == Lev(a[..i - 1], b[..k])
        invariant forall k :: 0 <= k < j ==> cur[k] == Lev(a[..i], b[..k])
      {
        var cost := 1;
        if a[i - 1] == b[j - 1] {
          cost := 0;
        }
        assert Init(a[..i]) == a[..i - 1] && Init(b[..j]) == b[..j - 1];
        LevStep(a[..i], b[..j]);
        cur[j] := Min(Min(cur[j - 1] + 1, prev[j] + 1), prev[j - 1] + cost);
      }
      prev, cur := cur, prev;
    }
    assert a[..|a|] == a && b[..|b|] == b;
    return prev[|b|];
  }

  // ----- a metric

  lemma {:induction false} LevSymmetric(a: string, b: string)
    ensures Lev(a, b) == Lev(b, a)
    decreases |a| + |b|
  {
    if a != "" && b != "" {
      LevSymmetric(a, Init(b));
      LevSymmetric(Init(a), b);
      LevSymmetric(Init(a), Init(b));
    }
  }

  lemma {:induction false} LevLengths(a: string, b: string)
    ensures |a| <= |b| + Lev(a, b) && |b| <= |a| + Lev(a, b)
    ensures Lev(a, b) <= |a| + |b|
    decreases |a| + |b|
  {
    if a != "" && b != "" {
      LevLengths(a, Init(b));
      LevLengths(Init(a), b);
      LevLengths(Init(a), Init(b));
    }
  }

  /** Zero exactly on equal strings. */
  lemma {:induction false} LevZero(a: string, b: string)
    ensures Lev(a, b) == 0 <==> a == b
    decreases |a| + |b|
  {
    if a != "" && b != "" {
      LevZero(Init(a), Init(b));
      assert a == Init(a) + [Last(a)] && b == Init(b) + [Last(b)];
      LevLengths(Init(a), b);
    }
  }

  lemma {:induction false} LevTriangle(a: string, b: string, c: string)
    ensures Lev(a, c) <= Lev(a, b) + Lev(b, c)
    decreases |a| + |b| + |c|
  {
    hide Lev;
    FromNothing(a);
    FromNothing(b);
    FromNothing(c);
    if a == "" || b == "" || c == "" {
      LevLengths(a, b);
      LevLengths(b, c);
      LevLengths(a, c);
    } else {
      var a', b', c' := Init(a), Init(b), Init(c);
      LevStep(a, b);
      LevStep(b, c);
      LevStep(a, c);
      LevTriangle(a', b, c);
      LevTriangle(a, b, c');
      LevTriangle(a, b', c);
      LevTriangle(a, b', c');
      LevTriangle(a', b', c);
      LevTriangle(a', b', c');
    }
  }

  // ----- the least number of edits

  lemma LevSelf(s: string)
    ensures Lev(s, s) == 0
  {
    LevZero(s, s);
  }

  /** A common rune at the end costs nothing. */
  lemma LevSuffixOne(a: string, b: string, x: char)
    ensures Lev(a + [x], b + [x]) <= Lev(a, b)
  {
    var p, q := a + [x], b + [x];
    assert Init(p) == a && Init(q) == b;
  }

  lemma {:induction false} LevSuffix(a: string, b: string, s: string)
    ensures Lev(a + s, b + s) <= Lev(a, b)
    decreases |s|
  {
    hide Lev;
    if s == "" {
      assert a + s == a && b + s == b;
    } else {
      var t := Init(s);
      LevSuffix(a, b, t);
      LevSuffixOne(a + t, b + t, Last(s));
      assert s == t + [Last(s)];
      assert a + s == (a + t) + [Last(s)] && b + s == (b + t) + [Last(s)];
    }
  }

  /** One rune more, or another rune, at the end. */
  lemma OneRune(p: string, x: char, y: char)
    ensures Lev(p, p + [x]) <= 1 && Lev(p + [x], p) <= 1 && Lev(p + [x], p + [y]) <= 1
  {
    LevSelf(p);
    assert Init(p + [x]) == p && Init(p + [y]) == p;
    FromNothing(p + [x]);
  }

  lemma EditCostsOne(e: Edit, s: string)
    requires Applies(e, s)
    ensures Lev(s, Apply(e, s)) <= 1
  {
    hide Lev;
    var p := s[..e.at];
    match e {
      case Insert(at, rune) =>
        OneRune(p, rune, rune);
        LevSuffix(p, p + [rune], s[at..]);
        assert s == p + s[at..];
      case Delete(at) =>
        OneRune(p, s[at], s[at]);
        LevSuffix(p + [s[at]], p, s[at + 1..]);
        assert s == p + [s[at]] + s[at + 1..];
      case Substitute(at, rune) =>
        OneRune(p, s[at], rune);
        LevSuffix(p + [s[at]], p + [rune], s[at + 1..]);
        assert s == p + [s[at]] + s[at + 1..] && s[at := rune] == p + [rune] + s[at + 1..];
    }
  }

  /** No edits turning a into b are fewer than the distance. */
  lemma {:induction false} LevIsLeast(es: seq<Edit>, a: string, b: string)
    requires Turns(es, a, b)
    ensures Lev(a, b) <= |es|
    decreases |es|
  {
    if es == [] {
      LevSelf(a);
    } else {
      var m := Apply(es[0], a);
      EditCostsOne(es[0], a);
      LevIsLeast(es[1..], m, b);
      LevTriangle(a, m, b);
    }
  }

  lemma {:induction false} TurnsThen(es: seq<Edit>, a: string, m: string, e: Edit)
    requires Turns(es, a, m) && Applies(e, m)
    ensures Turns(es + [e], a, Apply(e, m))
    decreases |es|
  {
    if es == [] {
      assert [] + [e] == [e] && [e][1..] == [];
    } else {
      TurnsThen(es[1..], Apply(es[0], a), m, e);
      assert (es + [e])[1..] == es[1..] + [e];
    }
  }

  /** Edits of a text are edits of the text with something behind it. */
  lemma {:induction false} TurnsBefore(es: seq<Edit>, a: string, b: string, s: string)
    requires Turns(es, a, b)
    ensures Turns(es, a + s, b + s)
    decreases |es|
  {
    hide Apply, Applies;
    if es != [] {
      ApplyBefore(es[0], a, s);
      TurnsBefore(es[1..], Apply(es[0], a), b, s);
    }
  }

  lemma ApplyBefore(e: Edit, a: string, s: string)
    requires Applies(e, a)
    ensures Applies(e, a + s) && Apply(e, a + s) == Apply(e, a) + s
  {
    var t := a + s;
    match e {
      case Insert(at, rune) =>
        assert t[..at] == a[..at] && t[at..] == a[at..] + s;
        assert a[..at] + [rune] + (a[at..] + s) == (a[..at] + [rune] + a[at..]) + s;
      case Delete(at) =>
        assert t[..at] == a[..at] && t[at + 1..] == a[at + 1..] + s;
        assert a[..at] + (a[at + 1..] + s) == (a[..at] + a[at + 1..]) + s;
      case Substitute(at, rune) => assert t[at := rune] == a[at := rune] + s;
    }
  }

  /** Some edits turning a into b are as few as the distance. */
  lemma {:induction false} LevIsReached(a: string, b: string) returns (es: seq<Edit>)
    ensures Turns(es, a, b) && |es| == Lev(a, b)
    decreases |a| + |b|
  {
    hide Turns, Apply;
    FromNothing(a);
    FromNothing(b);
    if a == "" && b == "" {
      es := [];
      NoEdits(a);
    } else if b != "" && (a == "" || Lev(a, b) == Lev(a, Init(b)) + 1) {
      FromNothing(Init(b));
      es := LevIsReached(a, Init(b));
      es := AppendLast(es, a, b);
    } else if a != "" && (b == "" || Lev(a, b) == Lev(Init(a), b) + 1) {
      FromNothing(Init(a));
      es := LevIsReached(Init(a), b);
      es := DropLast(es, a, b);
    } else {
      LevStep(a, b);
      es := LevIsReached(Init(a), Init(b));
      es := ReplaceLast(es, a, b);
    }
  }

  lemma NoEdits(s: string)
    ensures Turns([], s, s)
  {
  }

  lemma {:induction false} ReplaceLast(es: seq<Edit>, a: string, b: string) returns (r: seq<Edit>)
    requires a != "" && b != "" && Turns(es, Init(a), Init(b))
    ensures Turns(r, a, b) && |r| == |es| + Cost(Last(a), Last(b))
  {
    r := es;
    TurnsBefore(es, Init(a), Init(b), [Last(a)]);
    assert a == Init(a) + [Last(a)] && b == Init(b) + [Last(b)];
    if Last(a) != Last(b) {
      var m := Init(b) + [Last(a)];
      var e := Substitute(|b| - 1, Last(b));
      TurnsThen(es, a, m, e);
      assert Apply(e, m) == b;
      r := es + [e];
    }
  }

  lemma AppendLast(es: seq<Edit>, a: string, b: string) returns (r: seq<Edit>)
    requires b != "" && Turns(es, a, Init(b))
    ensures Turns(r, a, b) && |r| == |es| + 1
  {
    var e := Insert(|b| - 1, Last(b));
    TurnsThen(es, a, Init(b), e);
    assert Apply(e, Init(b)) == b;
    r := es + [e];
  }

  lemma DropLast(es: seq<Edit>, a: string, b: string) returns (r: seq<Edit>)
    requires a != "" && Turns(es, Init(a), b)
    ensures Turns(r, a, b) && |r| == |es| + 1
  {
    var e := Delete(|a| - 1);
    assert Apply(e, a) == Init(a);
    r := [e] + es;
    assert r[1..] == es;
  }

  // ----- the suggestion

  const CANONICAL_MODES: seq<string> := ["cloud", "onprem", "gov"]

  /** unicode.IsSpace. */
  predicate Space(r: char) {
    || '\t' <= r <= '\r' || r == ' ' || r as int in {0x85, 0xA0, 0x1680, 0x2028, 0x2029, 0x202F, 0x205F, 0x3000}
    || 0x2000 <= r as int <= 0x200A
  }

  /** strings.TrimSpace, rune by rune. */
  function Trimmed(s: string): (t: string)
    ensures t != "" ==> !Space(t[0]) && !Space(t[|t| - 1])
    decreases |s|
  {
    if s == "" then ""
    else if Space(s[0]) then Trimmed(s[1..])
    else if Space(s[|s| - 1]) then Trimmed(s[..|s| - 1])
    else s
  }

  predicate AllSpace(s: string) {
    forall i :: 0 <= i < |s| ==> Space(s[i])
  }

  /** Nothing but white space goes, and only at the ends. */
  lemma {:induction false} TrimmedParts(s: string) returns (a: string, b: string)
    ensures s == a + Trimmed(s) + b && AllSpace(a) && AllSpace(b)
    decreases |s|
  {
    hide Space;
    a, b := "", "";
    if s == "" {
    } else if Space(s[0]) {
      a, b := TrimmedParts(s[1..]);
      assert s == [s[0]] + s[1..];
      a := [s[0]] + a;
    } else if Space(s[|s| - 1]) {
      a, b := TrimmedParts(s[..|s| - 1]);
      assert s == s[..|s| - 1] + [s[|s| - 1]];
      b := b + [s[|s| - 1]];
    }
  }

  /** The operator's spelling as it is compared: trimmed, every rune in lower case. */
  function Spelling(raw: string, lower: char -> char): (s: string)
    ensures |s| == |Trimmed(raw)| && forall i :: 0 <= i < |s| ==> s[i] == lower(Trimmed(raw)[i])
  {
    seq(|Trimmed(raw)|, i requires 0 <= i < |Trimmed(raw)| => lower(Trimmed(raw)[i]))
  }

  /** lower is unicode.ToLower. */
  method NearestMode(raw: string, lower: char -> char) returns (best: string)
    ensures exists a, b :: raw == a + Trimmed(raw) + b && AllSpace(a) && AllSpace(b)
    ensures best == "" <==> forall m :: m in CANONICAL_MODES ==> Lev(Spelling(raw, lower), m) >= 3
    ensures best != "" ==>
              var s := Spelling(raw, lower);
              exists i :: 0 <= i < |CANONICAL_MODES| && best == CANONICAL_MODES[i] && Lev(s, best) <= 2
                          && (forall k :: 0 <= k < |CANONICAL_MODES| ==> Lev(s, best) <= Lev(s, CANONICAL_MODES[k]))
                          && (forall k :: 0 <= k < i ==> Lev(s, best) < Lev(s, CANONICAL_MODES[k]))
  {
    hide Lev, Spelling, Trimmed, AllSpace;
    ghost var front, back := TrimmedParts(raw);
    var s := Spelling(raw, lower);
    best := "";
    var bestDist := 3;
    ghost var at := 0;
    for k := 0 to |CANONICAL_MODES|
      invariant bestDist <= 3
      invariant best == "" <==> bestDist == 3
      invariant forall i :: 0 <= i < k ==> bestDist <= Lev(s, CANONICAL_MODES[i])
      invariant best != "" ==> at < k && best == CANONICAL_MODES[at] && bestDist == Lev(s, best)
      invariant best != "" ==> forall i :: 0 <= i < at ==> bestDist < Lev(s, CANONICAL_MODES[i])
    {
      var m := CANONICAL_MODES[k];
      var d := Distance(s, m);
      if d < bestDist {
        best, bestDist, at := m, d, k;
      }
    }
  }
}
