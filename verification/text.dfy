/** Go's `strings` functions on byte strings, as far as the modelled code uses them.
    A string is a sequence of bytes, one `char` per byte. White space is what
    unicode.IsSpace has it, on UTF-8 bytes; searching, trimming and splitting are
    exact, case folding goes as far as a comparison with ASCII words can tell. */
module Text {

  function IndexByte(s: string, c: char): (r: int)
    ensures -1 <= r < |s|
    ensures r >= 0 ==> s[r] == c && c !in s[..r]
    ensures r < 0 ==> c !in s
  {
    if s == "" then -1
    else if s[0] == c then 0
    else
      var r := IndexByte(s[1..], c);
      assert r >= 0 ==> s[..r + 1] == [s[0]] + s[1..][..r];
      assert s == [s[0]] + s[1..];
      if r < 0 then -1 else r + 1
  }

  predicate HasPrefix(s: string, p: string) {
    |p| <= |s| && s[..|p|] == p
  }

  predicate HasSuffix(s: string, p: string) {
    |p| <= |s| && s[|s| - |p|..] == p
  }

  /** The first position where sub occurs in s, or -1. */
  function Index(s: string, sub: string): (r: int)
    ensures -1 <= r <= |s|
    ensures r >= 0 ==> HasPrefix(s[r..], sub)
    ensures forall k :: 0 <= k < (if r < 0 then |s| + 1 else r) ==> !HasPrefix(s[k..], sub)
  {
    if HasPrefix(s, sub) then 0
    else if s == "" then -1
    else
      var r := Index(s[1..], sub);
      assert forall k :: 1 <= k <= |s| ==> s[k..] == s[1..][k - 1..];
      if r < 0 then -1 else r + 1
  }

  predicate Contains(s: string, sub: string) {
    Index(s, sub) >= 0
  }

  function Join(parts: seq<string>, sep: string): string {
    if parts == [] then ""
    else if |parts| == 1 then parts[0]
    else parts[0] + sep + Join(parts[1..], sep)
  }

  // ----- white space as unicode.IsSpace has it, on UTF-8 bytes

  /** Length of the UTF-8 encoding of a white-space rune that s begins with, or 0. */
  function SpaceAt(s: string): (n: nat)
    ensures n <= |s| && n <= 3
  {
    if |s| >= 1 && Is1(s[0]) then 1
    else if |s| >= 2 && Is2(s[0], s[1]) then 2
    else if |s| >= 3 && Is3(s[0], s[1], s[2]) then 3
    else 0
  }

  /** The same at the end of s. */
  function SpaceBefore(s: string): (n: nat)
    ensures n <= |s| && n <= 3
  {
    var k := |s|;
    if k >= 1 && Is1(s[k - 1]) then 1
    else if k >= 2 && Is2(s[k - 2], s[k - 1]) then 2
    else if k >= 3 && Is3(s[k - 3], s[k - 2], s[k - 1]) then 3
    else 0
  }

  predicate Is1(c: char) {
    c == ' ' || 9 <= c as int <= 13
  }

  predicate Is2(a: char, b: char) {
    a as int == 0xC2 && (b as int == 0x85 || b as int == 0xA0)
  }

  predicate Is3(a: char, b: char, c: char) {
    || (a as int == 0xE1 && b as int == 0x9A && c as int == 0x80)
    || (a as int == 0xE2 && b as int == 0x80 &&
        (0x80 <= c as int <= 0x8A || c as int == 0xA8 || c as int == 0xA9 || c as int == 0xAF))
    || (a as int == 0xE2 && b as int == 0x81 && c as int == 0x9F)
    || (a as int == 0xE3 && b as int == 0x80 && c as int == 0x80)
  }

  /** How many bytes of leading white space s has. */
  function LeadLen(s: string): (n: nat)
    ensures n <= |s|
  {
    var k := SpaceAt(s);
    if k == 0 then 0 else k + LeadLen(s[k..])
  }

  /** How many bytes of trailing white space s has. */
  function TrailLen(s: string): (n: nat)
    ensures n <= |s|
  {
    var k := SpaceBefore(s);
    if k == 0 then 0 else k + TrailLen(s[..|s| - k])
  }

  function TrimLeft(s: string): string {
    s[LeadLen(s)..]
  }

  function TrimRight(s: string): string {
    s[..|s| - TrailLen(s)]
  }

  function TrimSpace(s: string): string {
    TrimRight(TrimLeft(s))
  }

  function TrimQuotes(s: string): string
    decreases |s|
  {
    if s != "" && s[0] == '\'' then TrimQuotes(s[1..])
    else if s != "" && s[|s| - 1] == '\'' then TrimQuotes(s[..|s| - 1])
    else s
  }

  /** A byte some white-space rune is encoded with. */
  predicate SpaceByte(c: char) {
    Is1(c) || c as int >= 0x80
  }

  predicate Blank(s: string) {
    forall i :: 0 <= i < |s| ==> SpaceByte(s[i])
  }

  function Lead(s: string): string {
    s[..LeadLen(s)]
  }

  function Trail(s: string): string {
    TrimLeft(s)[|TrimSpace(s)|..]
  }

  lemma SpaceBytes(s: string)
    ensures Blank(s[..SpaceAt(s)])
    ensures Blank(s[|s| - SpaceBefore(s)..])
  {
  }

  lemma {:induction false} LeadBlank(s: string)
    ensures Blank(s[..LeadLen(s)])
    ensures SpaceAt(s[LeadLen(s)..]) == 0
    decreases |s|
  {
    SpaceBytes(s);
    hide SpaceAt;
    var k := SpaceAt(s);
    if k > 0 {
      var r := s[k..];
      LeadBlank(r);
      assert r[LeadLen(r)..] == s[LeadLen(s)..];
      assert s[..LeadLen(s)] == s[..k] + r[..LeadLen(r)];
    }
  }

  lemma {:induction false} TrailBlank(s: string)
    ensures Blank(s[|s| - TrailLen(s)..])
    ensures SpaceBefore(s[..|s| - TrailLen(s)]) == 0
    decreases |s|
  {
    SpaceBytes(s);
    hide SpaceBefore;
    var k := SpaceBefore(s);
    if k > 0 {
      var r := s[..|s| - k];
      TrailBlank(r);
      assert r[..|r| - TrailLen(r)] == s[..|s| - TrailLen(s)];
      assert s[|s| - TrailLen(s)..] == r[|r| - TrailLen(r)..] + s[|s| - k..];
    } else {
      assert s[..|s|] == s;
    }
  }

  /** A text is its trimmed form between two runs of white space. */
  lemma TrimParts(s: string)
    ensures s == Lead(s) + TrimSpace(s) + Trail(s)
    ensures Blank(Lead(s)) && Blank(Trail(s))
  {
    hide Blank, LeadLen, TrailLen, SpaceAt, SpaceBefore;
    var l := TrimLeft(s);
    LeadBlank(s);
    TrailBlank(l);
    assert s == s[..LeadLen(s)] + l;
    assert l == l[..|l| - TrailLen(l)] + l[|l| - TrailLen(l)..];
    assert |TrimSpace(s)| == |l| - TrailLen(l);
  }

  /** What is not white space survives trimming. */
  lemma Kept(s: string, i: nat, j: nat)
    requires i <= j < |s| && !SpaceByte(s[i]) && !SpaceByte(s[j])
    ensures var a, n := |Lead(s)|, |TrimSpace(s)|; a <= i && j < a + n <= |s| && TrimSpace(s) == s[a..a + n]
  {
    TrimParts(s);
    hide TrimSpace, Lead, Trail, SpaceByte;
    var l, t, r := Lead(s), TrimSpace(s), Trail(s);
    assert forall k :: 0 <= k < |l| ==> s[k] == l[k];
    assert forall k :: |l| + |t| <= k < |s| ==> s[k] == r[k - |l| - |t|];
    assert t == s[|l|..|l| + |t|];
  }

  lemma TrimFixed(s: string)
    requires s == "" || (!SpaceByte(s[0]) && !SpaceByte(s[|s| - 1]))
    ensures TrimSpace(s) == s
  {
    if s != "" {
      Kept(s, 0, |s| - 1);
    }
  }

  lemma TrimTwice(s: string)
    ensures TrimSpace(TrimSpace(s)) == TrimSpace(s)
  {
    var l := TrimLeft(s);
    var t := TrimSpace(s);
    LeadBlank(s);
    TrailBlank(l);
    SpacePrefix(l, |t|);
    assert LeadLen(t) == 0 && t[0..] == t;
    assert TrailLen(t) == 0 && t[..|t|] == t;
  }

  predicate AsciiSpace(s: string) {
    forall i :: 0 <= i < |s| ==> s[i] in {' ', '\t', '\n', '\U{B}', '\U{C}', '\r'}
  }

  /** White space around a text that begins and ends with other ASCII is what goes. */
  lemma TrimWhite(a: string, s: string, b: string)
    requires AsciiSpace(a) && AsciiSpace(b) && s != "" && !SpaceByte(s[0]) && !SpaceByte(s[|s| - 1])
    ensures TrimSpace(a + s + b) == s
  {
    var x, n := a + s + b, |a|;
    Kept(x, n, n + |s| - 1);
    TrimParts(x);
    NoWhiteEnds(x);
    hide TrimSpace, Lead, Trail, SpaceByte, Blank;
    var l, t := |Lead(x)|, TrimSpace(x);
    assert forall i :: 0 <= i < n ==> x[i] == a[i];
    assert forall i :: n + |s| <= i < |x| ==> x[i] == b[i - n - |s|];
    assert t[0] == x[l] && t[|t| - 1] == x[l + |t| - 1];
    assert x[n..n + |s|] == s;
  }

  lemma NoWhiteEnds(x: string)
    ensures var t := TrimSpace(x); t != "" ==> !Is1(t[0]) && !Is1(t[|t| - 1])
  {
    LeadBlank(x);
    TrailBlank(TrimLeft(x));
    var t := TrimSpace(x);
    assert t != "" ==> t[0] == x[LeadLen(x)..][0];
  }

  lemma SpacePrefix(l: string, n: nat)
    requires SpaceAt(l) == 0 && n <= |l|
    ensures SpaceAt(l[..n]) == 0
  {
  }

  lemma SpaceAtBreak(s: string)
    requires s != ""
    ensures SpaceAt(s + "\n") == SpaceAt(s)
  {
  }

  lemma {:induction false} LeadBreak(s: string)
    ensures LeadLen(s + "\n") == if LeadLen(s) == |s| then |s| + 1 else LeadLen(s)
    decreases |s|
  {
    if s == "" {
      assert ("" + "\n")[1..] == "";
    } else {
      SpaceAtBreak(s);
      hide SpaceAt;
      var k := SpaceAt(s);
      if k > 0 {
        LeadBreak(s[k..]);
        assert (s + "\n")[k..] == s[k..] + "\n";
      }
    }
  }

  /** A line break at the end is trimmed with the rest. */
  lemma TrimBreak(s: string)
    ensures TrimSpace(s + "\n") == TrimSpace(s)
  {
    LeadBreak(s);
    var n := LeadLen(s);
    if n == |s| {
      assert TrimLeft(s + "\n") == "" && TrimLeft(s) == "";
    } else {
      var u := s[n..];
      assert (s + "\n")[n..] == u + "\n";
      assert (u + "\n")[..|u|] == u;
      assert TrailLen(u + "\n") == 1 + TrailLen(u);
    }
  }

  // ----- case

  /** strings.ToLower, as far as a comparison with an ASCII word can tell: ASCII
      letters, and the two other runes whose lower case is an ASCII letter (the
      Kelvin sign and the dotted capital I). */
  function ToLower(s: string): string {
    if s == "" then ""
    else if |s| >= 2 && s[0] as int == 0xC4 && s[1] as int == 0xB0 then "i" + ToLower(s[2..])
    else if |s| >= 3 && s[0] as int == 0xE2 && s[1] as int == 0x84 && s[2] as int == 0xAA then "k" + ToLower(s[3..])
    else [LowerByte(s[0])] + ToLower(s[1..])
  }

  function LowerByte(c: char): char {
    if 'A' <= c <= 'Z' then (c as int + 32) as char else c
  }

  /** Upper case under simple folding, as far as ASCII words without K can tell:
      the long s folds to S. */
  function FoldUpper(s: string): string {
    if s == "" then ""
    else if |s| >= 2 && s[0] as int == 0xC5 && s[1] as int == 0xBF then "S" + FoldUpper(s[2..])
    else [UpperByte(s[0])] + FoldUpper(s[1..])
  }

  function UpperByte(c: char): char {
    if 'a' <= c <= 'z' then (c as int - 32) as char else c
  }

  // ----- lines

  /** strings.Split at line breaks. */
  function Split(s: string): (r: seq<string>)
    ensures r != []
  {
    if s == "" then [""]
    else if s[0] == '\n' then [""] + Split(s[1..])
    else
      var r := Split(s[1..]);
      [[s[0]] + r[0]] + r[1..]
  }

  /** Some line of s begins with p. */
  ghost predicate StartsLine(s: string, p: string) {
    exists i :: 0 <= i < |Split(s)| && HasPrefix(Split(s)[i], p)
  }

  lemma {:induction false} FirstLine(s: string, p: string)
    requires HasPrefix(s, p) && '\n' !in p
    ensures HasPrefix(Split(s)[0], p)
  {
    if p != "" {
      assert s[0] == p[0] && p[0] in p;
      assert HasPrefix(s[1..], p[1..]) by {
        assert s[1..][..|p| - 1] == s[..|p|][1..];
      }
      FirstLine(s[1..], p[1..]);
      var r := Split(s[1..])[0];
      assert r[..|p| - 1] == p[1..];
      assert ([s[0]] + r)[..|p|] == [s[0]] + r[..|p| - 1];
      assert p == [p[0]] + p[1..];
    }
  }

  /** What stands at the start of a line of s begins one of its lines. */
  lemma {:induction false} FirstPart(s: string)
    ensures HasPrefix(s, Split(s)[0])
  {
    if s != "" && s[0] != '\n' {
      FirstPart(s[1..]);
      var r := Split(s[1..])[0];
      assert s == [s[0]] + s[1..];
      assert s[..1 + |r|] == [s[0]] + s[1..][..|r|];
    }
  }

  /** Where line k of s begins. */
  lemma {:induction false} LinePlace(s: string, p: string, k: nat) returns (i: nat)
    requires k < |Split(s)| && HasPrefix(Split(s)[k], p)
    ensures i <= |s| && HasPrefix(s[i..], p) && (if k == 0 then i == 0 else i > 0 && s[i - 1] == '\n')
  {
    if k == 0 {
      i := 0;
      FirstPart(s);
      var l := Split(s)[0];
      assert s[0..] == s && s[..|l|][..|p|] == s[..|p|];
    } else {
      i := LinePlace(s[1..], p, if s[0] == '\n' then k - 1 else k);
      assert s[1..][i..] == s[i + 1..];
      i := i + 1;
    }
  }

  lemma {:induction false} LineAt(s: string, p: string, i: nat) returns (k: nat)
    requires i <= |s| && HasPrefix(s[i..], p) && '\n' !in p && (i == 0 || s[i - 1] == '\n')
    ensures k < |Split(s)| && HasPrefix(Split(s)[k], p) && (i > 0 ==> k > 0)
  {
    if i == 0 {
      assert s[0..] == s;
      FirstLine(s, p);
      k := 0;
    } else {
      var r := s[1..];
      assert r[i - 1..] == s[i..];
      k := LineAt(r, p, i - 1);
      if s[0] == '\n' {
        k := k + 1;
      }
    }
  }
}
