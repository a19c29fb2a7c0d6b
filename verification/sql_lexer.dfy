/** The lexical structure of SQL/DDL text as every scanner of
    internal/collection/sqlredact.go sees it: literals in single quotes, quoted
    identifiers, comments, words, and single bytes of code.

    A Go string is a sequence of bytes; a byte is a `char` here, one char per byte. */
module SqlLexer {

  type Token = string

  datatype Kind = Quoted | LineComment | BlockComment | Word | Mark

  predicate IsIdentStart(c: char) {
    c == '_' || 'a' <= c <= 'z' || 'A' <= c <= 'Z'
  }

  predicate IsIdentByte(c: char) {
    IsIdentStart(c) || '0' <= c <= '9'
  }

  predicate IsQuote(c: char) {
    c == '\'' || c == '"' || c == '`'
  }

  /** What the first bytes of a text open. */
  function KindOf(s: string): Kind
    requires s != ""
  {
    if IsQuote(s[0]) then Quoted
    else if |s| > 1 && s[0] == '-' && s[1] == '-' then LineComment
    else if |s| > 1 && s[0] == '/' && s[1] == '*' then BlockComment
    else if IsIdentByte(s[0]) then Word
    else Mark
  }

  /** How many bytes of s belong to a literal whose opening quote q came just
      before s, its closing quote included: a backslash takes the next byte with
      it, a doubled quote stands for itself, an unterminated literal takes all. */
  function QuotedLen(s: string, q: char): (n: nat)
    ensures n <= |s|
    ensures s != "" ==> n > 0
  {
    if s == "" then 0
    else if s[0] == '\\' then if |s| == 1 then 1 else 2 + QuotedLen(s[2..], q)
    else if s[0] == q then if |s| > 1 && s[1] == q then 2 + QuotedLen(s[2..], q) else 1
    else 1 + QuotedLen(s[1..], q)
  }

  /** Whether that literal is closed within s. */
  predicate QuotedClosed(s: string, q: char) {
    if s == "" then false
    else if s[0] == '\\' then |s| > 1 && QuotedClosed(s[2..], q)
    else if s[0] == q then |s| > 1 && s[1] == q ==> QuotedClosed(s[2..], q)
    else QuotedClosed(s[1..], q)
  }

  /** Bytes up to and including the first newline, or all of them. */
  function LineLen(s: string): (n: nat)
    ensures n <= |s|
    ensures s != "" ==> n > 0
  {
    if s == "" then 0 else if s[0] == '\n' then 1 else 1 + LineLen(s[1..])
  }

  /** Bytes up to and including the first "*" "/" pair, or all of them. */
  function BlockLen(s: string): (n: nat)
    ensures n <= |s|
  {
    if |s| < 2 then |s| else if s[0] == '*' && s[1] == '/' then 2 else 1 + BlockLen(s[1..])
  }

  predicate BlockClosed(s: string) {
    |s| >= 2 && ((s[0] == '*' && s[1] == '/') || BlockClosed(s[1..]))
  }

  /** Length of the run of identifier bytes s begins with. */
  function WordLen(s: string): (n: nat)
    ensures n <= |s|
    ensures forall i :: 0 <= i < n ==> IsIdentByte(s[i])
    ensures n < |s| ==> !IsIdentByte(s[n])
  {
    if s == "" || !IsIdentByte(s[0]) then 0 else 1 + WordLen(s[1..])
  }

  /** Length of the token s begins with. */
  function TokLen(s: string): (n: nat)
    requires s != ""
    ensures 0 < n <= |s|
  {
    match KindOf(s)
    case Quoted => 1 + QuotedLen(s[1..], s[0])
    case LineComment => LineLen(s)
    case BlockComment => 2 + BlockLen(s[2..])
    case Word => WordLen(s)
    case Mark => 1
  }

  function Lex(s: string): seq<Token> {
    if s == "" then [] else [s[..TokLen(s)]] + Lex(s[TokLen(s)..])
  }

  function Flat(ts: seq<Token>): string {
    if ts == [] then "" else ts[0] + Flat(ts[1..])
  }

  /** t is terminated: its region ends with it, whatever follows. */
  predicate Closed(t: Token)
    requires t != ""
  {
    match KindOf(t)
    case Quoted => QuotedClosed(t[1..], t[0])
    case LineComment => t[|t| - 1] == '\n'
    case BlockComment => BlockClosed(t[2..])
    case Word => true
    case Mark => true
  }

  /** A byte c right after t cannot be read as part of t. */
  predicate Separates(t: Token, c: char)
    requires t != ""
  {
    match KindOf(t)
    case Quoted => c != t[0]
    case LineComment => true
    case BlockComment => true
    case Word => !IsIdentByte(c)
    case Mark => !(t[0] == '-' && c == '-') && !(t[0] == '/' && c == '*')
  }

  /** One token, by itself. */
  predicate IsToken(t: Token) {
    t != "" && TokLen(t) == |t|
  }

  predicate Joins(t: Token, u: Token) {
    t != "" && u != "" && Closed(t) && Separates(t, u[0])
  }

  /** A token list that stands on its own: each entry is one token, and each but
      the last is terminated and cannot run into the next. */
  ghost predicate Canonical(ts: seq<Token>) {
    && (forall i :: 0 <= i < |ts| ==> IsToken(ts[i]))
    && (forall i :: 0 <= i < |ts| - 1 ==> Joins(ts[i], ts[i + 1]))
  }

  // ----- one token followed by more text

  lemma {:induction false} QuotedAppend(s: string, r: string, q: char)
    requires QuotedLen(s, q) == |s|
    requires r == "" || (QuotedClosed(s, q) && r[0] != q)
    ensures QuotedLen(s + r, q) == |s| && (r != "" ==> QuotedClosed(s + r, q))
  {
    if r == "" {
      assert s + r == s;
    } else if s[0] == '\\' {
      assert (s + r)[2..] == s[2..] + r;
      QuotedAppend(s[2..], r, q);
    } else if s[0] == q {
      if |s| > 1 {
        assert (s + r)[2..] == s[2..] + r;
        QuotedAppend(s[2..], r, q);
      }
    } else {
      assert (s + r)[1..] == s[1..] + r;
      QuotedAppend(s[1..], r, q);
    }
  }

  lemma {:induction false} LineAppend(s: string, r: string)
    requires s != "" && LineLen(s) == |s|
    requires r == "" || s[|s| - 1] == '\n'
    ensures LineLen(s + r) == |s|
  {
    if r == "" {
      assert s + r == s;
    } else if s[0] != '\n' {
      assert (s + r)[1..] == s[1..] + r;
      LineAppend(s[1..], r);
    }
  }

  lemma {:induction false} BlockAppend(s: string, r: string)
    requires BlockLen(s) == |s|
    requires r == "" || BlockClosed(s)
    ensures BlockLen(s + r) == |s|
  {
    if r == "" {
      assert s + r == s;
    } else if !(s[0] == '*' && s[1] == '/') {
      assert (s + r)[1..] == s[1..] + r;
      BlockAppend(s[1..], r);
    }
  }

  lemma {:induction false} WordAppend(s: string, r: string)
    requires WordLen(s) == |s|
    requires r == "" || !IsIdentByte(r[0])
    ensures WordLen(s + r) == |s|
  {
    if s == "" {
      assert s + r == r;
    } else {
      assert (s + r)[1..] == s[1..] + r;
      WordAppend(s[1..], r);
    }
  }

  /** A terminated token keeps its extent when separated text follows it. */
  lemma TokenAppend(t: Token, r: string)
    requires IsToken(t)
    requires r == "" || (Closed(t) && Separates(t, r[0]))
    ensures TokLen(t + r) == |t|
  {
    hide QuotedLen, QuotedClosed, LineLen, BlockLen, BlockClosed, WordLen, IsIdentByte;
    if r == "" {
      assert t + r == t;
    } else {
      SameKind(t, r);
      assert (t + r)[1..] == t[1..] + r;
      match KindOf(t) {
        case Quoted => QuotedAppend(t[1..], r, t[0]);
        case LineComment => LineAppend(t, r);
        case BlockComment =>
          assert (t + r)[2..] == t[2..] + r;
          BlockAppend(t[2..], r);
        case Word => WordAppend(t, r);
        case Mark =>
      }
    }
  }

  lemma SameKind(t: Token, r: string)
    requires IsToken(t) && r != "" && Separates(t, r[0])
    ensures KindOf(t + r) == KindOf(t) && (t + r)[0] == t[0]
  {
    hide QuotedLen, LineLen, BlockLen, WordLen;
    var s := t + r;
    assert |t| > 1 ==> s[1] == t[1];
    assert |t| == 1 ==> s[1] == r[0];
  }

  // ----- the first token of a text

  lemma {:induction false} QuotedPrefix(s: string, q: char)
    ensures var n := QuotedLen(s, q);
            QuotedLen(s[..n], q) == n &&
            (n < |s| ==> QuotedClosed(s[..n], q) && s[n] != q)
    ensures QuotedClosed(s, q) == QuotedClosed(s[..QuotedLen(s, q)], q)
    decreases |s|
  {
    var n := QuotedLen(s, q);
    if s == "" {
    } else if s[0] == '\\' || (s[0] == q && |s| > 1 && s[1] == q) {
      if |s| > 1 {
        QuotedPrefix(s[2..], q);
        assert s[..n][2..] == s[2..][..n - 2];
      } else {
        assert s[..n] == s;
      }
    } else if s[0] != q {
      QuotedPrefix(s[1..], q);
      assert s[..n][1..] == s[1..][..n - 1];
    }
  }

  lemma {:induction false} LinePrefix(s: string)
    requires s != ""
    ensures var n := LineLen(s);
            LineLen(s[..n]) == n && (n < |s| ==> s[n - 1] == '\n')
    decreases |s|
  {
    var n := LineLen(s);
    if s[0] != '\n' && |s| > 1 {
      LinePrefix(s[1..]);
      assert s[..n][1..] == s[1..][..n - 1];
    }
  }

  lemma {:induction false} BlockPrefix(s: string)
    ensures var n := BlockLen(s);
            BlockLen(s[..n]) == n && (n < |s| ==> BlockClosed(s[..n]))
    decreases |s|
  {
    var n := BlockLen(s);
    if |s| < 2 {
      assert s[..n] == s;
    } else if !(s[0] == '*' && s[1] == '/') {
      BlockPrefix(s[1..]);
      assert s[..n][1..] == s[1..][..n - 1];
    }
  }

  lemma {:induction false} WordPrefix(s: string)
    ensures WordLen(s[..WordLen(s)]) == WordLen(s)
    decreases |s|
  {
    if s != "" && IsIdentByte(s[0]) {
      WordPrefix(s[1..]);
      assert s[..WordLen(s)][1..] == s[1..][..WordLen(s) - 1];
    }
  }

  /** What the lexer cuts off is a token, separated from what it leaves. */
  lemma TokenPrefix(s: string)
    requires s != ""
    ensures var n := TokLen(s);
            IsToken(s[..n]) && KindOf(s[..n]) == KindOf(s) &&
            (n < |s| ==> Closed(s[..n]) && Separates(s[..n], s[n]))
  {
    var n := TokLen(s);
    match KindOf(s) {
      case Quoted =>
        QuotedPrefix(s[1..], s[0]);
        assert s[..n][1..] == s[1..][..n - 1];
      case LineComment => LinePrefix(s);
        assert n >= 2;
      case BlockComment =>
        BlockPrefix(s[2..]);
        assert s[..n][2..] == s[2..][..n - 2];
      case Word => WordPrefix(s);
      case Mark =>
    }
  }

  // ----- token lists

  lemma {:induction false} FlatAppend(a: seq<Token>, b: seq<Token>)
    ensures Flat(a + b) == Flat(a) + Flat(b)
  {
    if a == [] {
      assert a + b == b;
    } else {
      assert (a + b)[1..] == a[1..] + b;
      FlatAppend(a[1..], b);
    }
  }

  lemma {:induction false} LexCanonical(s: string)
    ensures Canonical(Lex(s)) && Flat(Lex(s)) == s
    ensures s != "" ==> Lex(s) != [] && Lex(s)[0][0] == s[0]
    decreases |s|
  {
    if s != "" {
      var n := TokLen(s);
      TokenPrefix(s);
      LexCanonical(s[n..]);
      assert s == s[..n] + s[n..];
      var ts := Lex(s);
      assert ts[1..] == Lex(s[n..]);
      forall i | 0 <= i < |ts| ensures IsToken(ts[i]) {
        if i > 0 { assert ts[i] == ts[1..][i - 1]; }
      }
      forall i | 0 <= i < |ts| - 1 ensures Joins(ts[i], ts[i + 1]) {
        if i > 0 { assert ts[i] == ts[1..][i - 1] && ts[i + 1] == ts[1..][i]; }
      }
    }
  }

  /** Scanner agreement: any list of separated tokens, read afresh as text, gives
      the same tokens. Every slice of a canonical list is canonical, so a scanner
      started at a token boundary in the middle of a text, or on a piece cut out
      of it at token boundaries, sees the regions the whole text has there. */
  lemma {:induction false} LexFlat(ts: seq<Token>)
    requires Canonical(ts)
    ensures Lex(Flat(ts)) == ts
  {
    if ts != [] {
      var t, r := ts[0], Flat(ts[1..]);
      if |ts| > 1 {
        assert Joins(ts[0], ts[1]);
        assert r == ts[1] + Flat(ts[2..]);
      }
      TokenAppend(t, r);
      assert (t + r)[..|t|] == t && (t + r)[|t|..] == r;
      LexFlat(ts[1..]);
    }
  }

  lemma SliceCanonical(ts: seq<Token>, i: nat, j: nat)
    requires Canonical(ts) && i <= j <= |ts|
    ensures Canonical(ts[i..j])
    ensures forall t :: t in ts[i..j] && j < |ts| ==> Closed(t)
  {
    forall k | 0 <= k < |ts[i..j]| - 1 ensures Joins(ts[i..j][k], ts[i..j][k + 1]) {
      assert Joins(ts[i + k], ts[i + k + 1]);
    }
    forall k | 0 <= k < |ts[i..j]| && j < |ts| ensures Closed(ts[i..j][k]) {
      assert Joins(ts[i + k], ts[i + k + 1]);
    }
  }

  lemma JoinCanonical(a: seq<Token>, b: seq<Token>)
    requires Canonical(a) && Canonical(b)
    requires a != [] && b != [] ==> Joins(a[|a| - 1], b[0])
    ensures Canonical(a + b)
  {
    var c := a + b;
    forall i | 0 <= i < |c| - 1 ensures Joins(c[i], c[i + 1]) {
      if i < |a| - 1 {
        assert Joins(a[i], a[i + 1]);
      } else if i >= |a| {
        assert Joins(b[i - |a|], b[i - |a| + 1]);
      }
    }
  }
}
