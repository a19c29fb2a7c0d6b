/** Go's < on strings: bytewise, a proper prefix first. */
module Ordering {

  predicate Less(a: string, b: string) {
    if b == "" then false
    else if a == "" then true
    else if a[0] != b[0] then a[0] < b[0]
    else Less(a[1..], b[1..])
  }

  /** At the first place where they differ, the lesser one has the lesser byte or has
      ended. */
  ghost predicate FirstLess(a: string, b: string, i: int) {
    0 <= i <= |a| && i < |b| && a[..i] == b[..i] && (i == |a| || a[i] < b[i])
  }

  lemma {:induction false} LessFirst(a: string, b: string)
    ensures Less(a, b) <==> exists i :: FirstLess(a, b, i)
  {
    if b == "" {
    } else if a == "" {
      assert FirstLess(a, b, 0);
    } else {
      var c, d := a[1..], b[1..];
      LessFirst(c, d);
      if a[0] < b[0] {
        assert FirstLess(a, b, 0);
      }
      if i :| FirstLess(c, d, i) && a[0] == b[0] {
        assert a[..i + 1] == [a[0]] + c[..i] && b[..i + 1] == [b[0]] + d[..i];
        assert FirstLess(a, b, i + 1);
      }
      if i :| FirstLess(a, b, i) && i > 0 {
        assert a[0] == a[..i][0] == b[..i][0] == b[0];
        assert c[..i - 1] == a[..i][1..] && d[..i - 1] == b[..i][1..];
        assert FirstLess(c, d, i - 1);
      }
    }
  }

  lemma {:induction false} LessAsymmetric(a: string, b: string)
    ensures !(Less(a, b) && Less(b, a))
  {
    if a != "" && b != "" && a[0] == b[0] {
      LessAsymmetric(a[1..], b[1..]);
    }
  }

  lemma {:induction false} LessTotal(a: string, b: string)
    ensures Less(a, b) || Less(b, a) || a == b
  {
    if a != "" && b != "" && a[0] == b[0] {
      LessTotal(a[1..], b[1..]);
      assert a == [a[0]] + a[1..] && b == [b[0]] + b[1..];
    }
  }

  /** Not below is transitive, as a sort needs. */
  lemma {:induction false} LessWeak(a: string, b: string, c: string)
    requires !Less(b, a) && !Less(c, b)
    ensures !Less(c, a)
  {
    if a != "" && b != "" && c != "" && a[0] == b[0] == c[0] {
      LessWeak(a[1..], b[1..], c[1..]);
    }
  }
}
