/** The byte-wise scanners of the redactor: the call finder, the search for a closing
    parenthesis, the cut into arguments and the skipper of what is no code. Each is a
    function of the lexer's token list. */
module SqlScanners {
  import opened SqlLexer
  import Text

  // ----- what the scanners find, on tokens

  /** +1 for "(", -1 for ")". */
  function ParenStep(t: Token): int {
    if t == "(" then 1 else if t == ")" then -1 else 0
  }

  /** The same counting square brackets too. */
  function NestStep(t: Token): int {
    if t == "(" || t == "[" then 1 else if t == ")" || t == "]" then -1 else 0
  }

  /** The index of the ")" that brings the paren depth, d before ts, to 0; or -1. */
  function CloseIdx(ts: seq<Token>, d: int): (r: int)
    ensures -1 <= r < |ts|
    ensures r >= 0 ==> ts[r] == ")"
  {
    if ts == [] then -1
    else if ts[0] == ")" && d == 1 then 0
    else
      var r := CloseIdx(ts[1..], d + ParenStep(ts[0]));
      if r < 0 then -1 else r + 1
  }

  /** ts cut at the commas where the nesting depth, d before ts, is 0. */
  function Pieces(ts: seq<Token>, d: int): (ps: seq<seq<Token>>)
    ensures |ps| > 0
  {
    if ts == [] then [[]]
    else if ts[0] == "," && d == 0 then [[]] + Pieces(ts[1..], d)
    else
      var ps := Pieces(ts[1..], d + NestStep(ts[0]));
      [[ts[0]] + ps[0]] + ps[1..]
  }

  /** The arguments of an argument list; a blank list has none. */
  function Args(ts: seq<Token>): seq<seq<Token>> {
    if |Pieces(ts, 0)| == 1 && Text.TrimSpace(Flat(ts)) == "" then [] else Pieces(ts, 0)
  }

  function Flats(ps: seq<seq<Token>>): (r: seq<string>)
    ensures |r| == |ps|
    ensures forall i :: 0 <= i < |ps| ==> r[i] == Flat(ps[i])
  {
    if ps == [] then [] else [Flat(ps[0])] + Flats(ps[1..])
  }

  /** t put before the first of some pieces of text. */
  function Onto(t: string, ps: seq<string>): seq<string>
    requires ps != []
  {
    [t + ps[0]] + ps[1..]
  }

  /** The pieces of ts as text. */
  function PieceTexts(ts: seq<Token>, d: int): (ps: seq<string>)
    ensures ps != []
  {
    if ts == [] then [""]
    else if ts[0] == "," && d == 0 then [""] + PieceTexts(ts[1..], d)
    else Onto(ts[0], PieceTexts(ts[1..], d + NestStep(ts[0])))
  }

  lemma {:induction false} PieceTextsFlat(ts: seq<Token>, d: int)
    ensures PieceTexts(ts, d) == Flats(Pieces(ts, d))
  {
    if ts != [] {
      if ts[0] == "," && d == 0 {
        PieceTextsFlat(ts[1..], d);
        var rest := Pieces(ts[1..], d);
        assert ([[]] + rest)[1..] == rest;
      } else {
        PieceTextsFlat(ts[1..], d + NestStep(ts[0]));
        var rest := Pieces(ts[1..], d + NestStep(ts[0]));
        var ps := [[ts[0]] + rest[0]] + rest[1..];
        assert ps[1..] == rest[1..] && ([ts[0]] + rest[0])[1..] == rest[0];
        assert Flats(ps) == [ts[0] + Flat(rest[0])] + Flats(rest[1..]);
      }
    }
  }

  predicate IsGap(t: Token) {
    t == " " || t == "\t"
  }

  function GapLen(ts: seq<Token>): (n: nat)
    ensures n <= |ts|
    ensures forall i :: 0 <= i < n ==> IsGap(ts[i])
    ensures n < |ts| ==> !IsGap(ts[n])
  {
    if ts == [] || !IsGap(ts[0]) then 0 else 1 + GapLen(ts[1..])
  }

  /** Where the "(" of a call that ts begins with would have to be. */
  function OpenIdx(ts: seq<Token>): (n: nat)
    requires ts != []
    ensures 1 <= n <= |ts|
  {
    1 + GapLen(ts[1..])
  }

  /** ts begins with an identifier, blanks, and "(". */
  predicate IsCallHead(ts: seq<Token>) {
    && ts != [] && ts[0] != "" && IsIdentStart(ts[0][0])
    && OpenIdx(ts) < |ts| && ts[OpenIdx(ts)] == "("
  }

  datatype CallSite = NoCall | Call(name: string, start: nat, open: nat)
  {
    function Shift(n: nat): CallSite {
      match this
      case NoCall => NoCall
      case Call(name, start, open) => Call(name, start + n, open + n)
    }
  }

  /** The first call in ts, its positions in bytes from the start of ts. */
  function FirstCall(ts: seq<Token>): CallSite {
    if ts == [] then NoCall
    else if IsCallHead(ts) then Call(ts[0], 0, |Flat(ts[..OpenIdx(ts)])|)
    else FirstCall(ts[1..]).Shift(|ts[0]|)
  }

  /** Where a scanner started at i in the state "code, not inside a word" finds
      its first token: it steps over the rest of a word it was dropped into. */
  function Settled(s: string, i: nat): (j: nat)
    requires i <= |s|
    ensures i <= j <= |s|
  {
    if i > 0 && IsIdentByte(s[i - 1]) then i + WordLen(s[i..]) else i
  }

  function CallFrom(s: string, j: nat): CallSite
    requires j <= |s|
  {
    FirstCall(Lex(s[j..])).Shift(j)
  }

  /** The byte position, ts starting at j, of the ")" that closes depth d; or -1. */
  function CloseOff(ts: seq<Token>, j: nat, d: int): int {
    var k := CloseIdx(ts, d);
    if k < 0 then -1 else j + |Flat(ts[..k])|
  }

  function CloseFrom(s: string, j: nat, d: int): int
    requires j <= |s|
  {
    CloseOff(Lex(s[j..]), j, d)
  }

  /** s[last..j] followed by ts, cut at the top-level commas of ts, the depth
      before ts being d. */
  function ArgsOff(s: string, last: nat, j: nat, ts: seq<Token>, d: int): seq<string>
    requires last <= j <= |s|
  {
    Onto(s[last..j], PieceTexts(ts, d))
  }

  function ArgsFrom(s: string, last: nat, j: nat, d: int): seq<string>
    requires last <= j <= |s|
  {
    ArgsOff(s, last, j, Lex(s[j..]), d)
  }

  // ----- one step over a token

  lemma LexStep(s: string, j: nat)
    requires j < |s|
    ensures var n := TokLen(s[j..]);
            && j + n <= |s|
            && Lex(s[j..]) == [s[j..j + n]] + Lex(s[j + n..])
  {
    var n := TokLen(s[j..]);
    assert s[j..][..n] == s[j..j + n];
    assert s[j..][n..] == s[j + n..];
  }

  lemma CloseCons(t: Token, r: seq<Token>, j: nat, d: int)
    ensures CloseOff([t] + r, j, d) ==
            if t == ")" && d == 1 then j else CloseOff(r, j + |t|, d + ParenStep(t))
  {
    assert ([t] + r)[1..] == r;
    var k := CloseIdx(r, d + ParenStep(t));
    if k >= 0 && !(t == ")" && d == 1) {
      assert ([t] + r)[..k + 1] == [t] + r[..k];
      assert ([t] + r[..k])[1..] == r[..k];
    }
  }

  lemma ArgsCons(s: string, last: nat, j: nat, t: Token, r: seq<Token>, d: int)
    requires last <= j <= j + |t| <= |s| && s[j..j + |t|] == t
    ensures ArgsOff(s, last, j, [t] + r, d) ==
            if t == "," && d == 0 then [s[last..j]] + ArgsOff(s, j + |t|, j + |t|, r, d)
            else ArgsOff(s, last, j + |t|, r, d + NestStep(t))
  {
    assert ([t] + r)[1..] == r;
    if t == "," && d == 0 {
      var q := PieceTexts(r, d);
      assert s[j + |t|..j + |t|] == "" && "" + q[0] == q[0];
      assert Onto("", q) == q;
      assert s[last..j] + "" == s[last..j];
    } else {
      var q := PieceTexts(r, d + NestStep(t));
      assert s[last..j] + t == s[last..j + |t|];
      assert s[last..j] + (t + q[0]) == s[last..j + |t|] + q[0];
    }
  }

  /** A word is no bracket and no comma, and neither is the rest of it. */
  lemma CloseWord(t: Token, r: seq<Token>, j: nat, d: int)
    requires t != "" && forall i :: 0 <= i < |t| ==> IsIdentByte(t[i])
    ensures CloseOff([t] + r, j, d) == CloseOff(Rest(t) + r, j + 1, d)
  {
    CloseCons(t, r, j, d);
    assert IsIdentByte(t[0]);
    if |t| > 1 {
      assert IsIdentByte(t[1..][0]);
      CloseCons(t[1..], r, j + 1, d);
    } else {
      assert Rest(t) + r == r;
    }
  }

  lemma ArgsWord(s: string, last: nat, j: nat, t: Token, r: seq<Token>, d: int)
    requires last <= j <= j + |t| <= |s| && s[j..j + |t|] == t
    requires t != "" && forall i :: 0 <= i < |t| ==> IsIdentByte(t[i])
    ensures ArgsOff(s, last, j, [t] + r, d) == ArgsOff(s, last, j + 1, Rest(t) + r, d)
  {
    hide ArgsOff, Flat;
    ArgsCons(s, last, j, t, r, d);
    assert IsIdentByte(t[0]);
    if |t| > 1 {
      assert IsIdentByte(t[1..][0]);
      ArgsCons(s, last, j + 1, t[1..], r, d);
    } else {
      assert Rest(t) + r == r;
    }
  }

  /** What is left of a word after its first byte, as a token list. */
  function Rest(t: Token): seq<Token>
    requires t != ""
  {
    if |t| == 1 then [] else [t[1..]]
  }

  lemma WordToken(s: string)
    requires s != "" && IsIdentByte(s[0])
    ensures KindOf(s) == Word && TokLen(s) == WordLen(s) && WordLen(s) == 1 + WordLen(s[1..])
  {
  }

  lemma LexUnfold(s: string)
    requires s != ""
    ensures Lex(s) == [s[..TokLen(s)]] + Lex(s[TokLen(s)..])
  {
  }

  lemma WordTail(s: string)
    requires s != "" && IsIdentByte(s[0])
    ensures var n := WordLen(s); 0 < n && Lex(s[1..]) == Rest(s[..n]) + Lex(s[n..])
  {
    var n := WordLen(s);
    var r := s[1..];
    WordToken(s);
    if n > 1 {
      WordToken(r);
      LexUnfold(r);
      hide Lex, TokLen, WordLen;
      assert r[..n - 1] == s[1..n] == s[..n][1..];
      assert r[n - 1..] == s[n..];
    }
  }

  lemma CommentLength(s: string)
    requires s != "" && !IsIdentByte(s[0])
    ensures KindOf(s) == Mark ==> TokLen(s) == 1
    ensures KindOf(s) in {LineComment, BlockComment} ==> TokLen(s) >= 2
    ensures KindOf(s) == Quoted ==> IsQuote(s[0])
    ensures KindOf(s) != Word
  {
    if KindOf(s) == LineComment {
      assert LineLen(s) == 1 + LineLen(s[1..]);
    }
  }

  /** The token at j, its class, and what the lexer sees one byte further. */
  lemma ByteAt(s: string, j: nat) returns (t: Token, r: seq<Token>)
    requires j < |s|
    ensures |t| == TokLen(s[j..]) && j + |t| <= |s| && t == s[j..j + |t|]
    ensures Lex(s[j..]) == [t] + r && r == Lex(s[j + |t|..])
    ensures match KindOf(s[j..])
            case Word => t != "" && (forall i :: 0 <= i < |t| ==> IsIdentByte(t[i])) && Lex(s[j + 1..]) == Rest(t) + r
            case Mark => t == [s[j]] && !IsIdentByte(s[j])
            case _ => |t| >= 2 || (|t| == 1 && IsQuote(t[0]))
  {
    hide Lex, TokLen, KindOf, WordLen;
    var u := s[j..];
    var n := TokLen(u);
    t := s[j..j + n];
    r := Lex(s[j + n..]);
    LexUnfold(u);
    assert u[..n] == t && u[n..] == s[j + n..];
    if IsIdentByte(s[j]) {
      WordToken(u);
      WordTail(u);
      assert u[1..] == s[j + 1..];
    } else {
      CommentLength(u);
    }
  }

  /** What one byte of code, a literal or a comment does to the search for ")". */
  lemma CloseByte(s: string, j: nat, d: int)
    requires j < |s|
    ensures CloseFrom(s, j, d) ==
            match KindOf(s[j..])
            case Word => CloseFrom(s, j + 1, d)
            case Mark => if s[j] == ')' && d == 1 then j else CloseFrom(s, j + 1, d + ParenStep([s[j]]))
            case _ => CloseFrom(s, j + TokLen(s[j..]), d)
  {
    hide Lex, TokLen, QuotedLen, WordLen, PieceTexts;
    var t, r := ByteAt(s, j);
    if KindOf(s[j..]) == Word {
      CloseWord(t, r, j, d);
    } else {
      CloseCons(t, r, j, d);
    }
  }

  lemma ArgsByte(s: string, last: nat, j: nat, d: int)
    requires last <= j < |s|
    ensures ArgsFrom(s, last, j, d) ==
            match KindOf(s[j..])
            case Word => ArgsFrom(s, last, j + 1, d)
            case Mark =>
              if s[j] == ',' && d == 0 then [s[last..j]] + ArgsFrom(s, j + 1, j + 1, d)
              else ArgsFrom(s, last, j + 1, d + NestStep([s[j]]))
            case _ => ArgsFrom(s, last, j + TokLen(s[j..]), d)
  {
    hide Lex, TokLen, QuotedLen, WordLen, PieceTexts;
    var t, r := ByteAt(s, j);
    if KindOf(s[j..]) == Word {
      ArgsWord(s, last, j, t, r, d);
    } else {
      ArgsCons(s, last, j, t, r, d);
    }
  }

  lemma CallStep(s: string, j: nat)
    requires j < |s|
    requires !IsCallHead(Lex(s[j..]))
    ensures CallFrom(s, j) == CallFrom(s, j + TokLen(s[j..]))
  {
    LexStep(s, j);
    assert Lex(s[j..])[1..] == Lex(s[j + TokLen(s[j..])..]);
  }

  /** A token that is not a word does not end in an identifier byte. */
  lemma TokenEnd(s: string, j: nat)
    requires j < |s|
    requires KindOf(s[j..]) != Word
    ensures var n := TokLen(s[j..]); j + n < |s| ==> !IsIdentByte(s[j + n - 1])
  {
    var r := s[j..];
    var n := TokLen(r);
    TokenPrefix(r);
    if n < |r| {
      match KindOf(r) {
        case Quoted => ClosedEndsQuoted(r[..n][1..], r[0]);
        case BlockComment => ClosedEndsBlock(r[..n][2..]);
        case _ =>
      }
    }
  }

  lemma {:induction false} ClosedEndsQuoted(s: string, q: char)
    requires IsQuote(q)
    requires QuotedClosed(s, q) && QuotedLen(s, q) == |s|
    ensures s[|s| - 1] == q
  {
    if s[0] == '\\' {
      ClosedEndsQuoted(s[2..], q);
    } else if s[0] == q {
      if |s| > 1 { ClosedEndsQuoted(s[2..], q); }
    } else {
      ClosedEndsQuoted(s[1..], q);
    }
  }

  lemma {:induction false} ClosedEndsBlock(s: string)
    requires BlockClosed(s) && BlockLen(s) == |s|
    ensures s[|s| - 1] == '/'
  {
    if !(s[0] == '*' && s[1] == '/') {
      ClosedEndsBlock(s[1..]);
    }
  }

  // ----- the scanners

  lemma {:induction false} LineLenIndex(s: string)
    ensures LineLen(s) == if Text.IndexByte(s, '\n') < 0 then |s| else Text.IndexByte(s, '\n') + 1
  {
    if s != "" && s[0] != '\n' {
      LineLenIndex(s[1..]);
    }
  }

  lemma {:induction false} BlockLenIndex(s: string)
    ensures BlockLen(s) == if Text.Index(s, "*/") < 0 then |s| else Text.Index(s, "*/") + 2
  {
    if |s| >= 2 {
      assert Text.HasPrefix(s, "*/") <==> s[0] == '*' && s[1] == '/';
      if !Text.HasPrefix(s, "*/") {
        BlockLenIndex(s[1..]);
      }
    } else if |s| == 1 {
      assert !Text.HasPrefix(s[1..], "*/");
    }
  }

  /** The last byte of the quoted identifier or comment that s[j] opens. */
  method SkipNonCode(s: string, j: nat) returns (end: int, ok: bool)
    requires j < |s|
    ensures ok <==> KindOf(s[j..]) in {Quoted, LineComment, BlockComment} && s[j] != '\''
    ensures ok ==> end == j + TokLen(s[j..]) - 1
  {
    if s[j] == '`' || s[j] == '"' {
      var q := s[j];
      var k := j + 1;
      ghost var goal := j + TokLen(s[j..]);
      assert s[j..][1..] == s[k..];
      while k < |s|
        invariant j < k <= |s| + 1
        invariant k <= |s| ==> goal == k + QuotedLen(s[k..], q)
        invariant k > |s| ==> goal == |s|
      {
        assert k + 1 <= |s| ==> s[k..][1..] == s[k + 1..];
        assert k + 2 <= |s| ==> s[k..][2..] == s[k + 2..];
        if s[k] == '\\' {
          k := k + 2;
          continue;
        }
        if s[k] == q {
          if k + 1 < |s| && s[k + 1] == q {
            k := k + 2;
            continue;
          }
          return k, true;
        }
        k := k + 1;
      }
      return |s| - 1, true;
    } else if s[j] == '-' && j + 1 < |s| && s[j + 1] == '-' {
      LineLenIndex(s[j..]);
      var k := Text.IndexByte(s[j..], '\n');
      if k >= 0 {
        return j + k, true;
      }
      return |s| - 1, true;
    } else if s[j] == '/' && j + 1 < |s| && s[j + 1] == '*' {
      assert s[j..][2..] == s[j + 2..];
      BlockLenIndex(s[j + 2..]);
      var k := Text.Index(s[j + 2..], "*/");
      if k >= 0 {
        return j + 2 + k + 1, true;
      }
      return |s| - 1, true;
    }
    return 0, false;
  }

  /** The index just past the literal opening at start, or -1 when it never closes. */
  method QuotedLiteralEnd(s: string, start: nat) returns (end: int)
    requires start < |s| && IsQuote(s[start])
    ensures end == if QuotedClosed(s[start + 1..], s[start]) then start + TokLen(s[start..]) else -1
  {
    var q := s[start];
    var j := start + 1;
    ghost var closed := QuotedClosed(s[j..], q);
    ghost var goal := start + TokLen(s[start..]);
    assert s[start..][1..] == s[j..];
    while j < |s|
      invariant start < j <= |s| + 1
      invariant j <= |s| ==> goal == j + QuotedLen(s[j..], q) && closed == QuotedClosed(s[j..], q)
      invariant j > |s| ==> !closed
    {
      assert j + 1 <= |s| ==> s[j..][1..] == s[j + 1..];
      assert j + 2 <= |s| ==> s[j..][2..] == s[j + 2..];
      if s[j] == '\\' {
        j := j + 1;
      } else if s[j] == q {
        if j + 1 < |s| && s[j + 1] == q {
          j := j + 2;
          continue;
        }
        return j + 1;
      }
      j := j + 1;
    }
    return -1;
  }

  /** The state of a scanner loop at j: outside a literal (stop is j itself) or
      in the middle of one that ends at stop. An escape at the very end of the
      text takes j one past it. */
  predicate InString(s: string, j: nat, stop: nat, inStr: bool) {
    && stop <= |s|
    && (!inStr ==> stop == j)
    && (inStr && j <= |s| ==> stop == j + QuotedLen(s[j..], '\''))
    && (inStr && j > |s| ==> stop == |s|)
  }

  /** One byte of the in-string state the three scanners share. */
  lemma InStringStep(s: string, j: nat, stop: nat)
    requires j < |s| && InString(s, j, stop, true)
    ensures s[j] == '\\' ==> InString(s, j + 2, stop, true)
    ensures s[j] == '\'' && j + 1 < |s| && s[j + 1] == '\'' ==> InString(s, j + 2, stop, true)
    ensures s[j] == '\'' && !(j + 1 < |s| && s[j + 1] == '\'') ==> stop == j + 1
    ensures s[j] != '\\' && s[j] != '\'' ==> InString(s, j + 1, stop, true)
  {
    var u := s[j..];
    assert u[1..] == s[j + 1..];
    assert j + 2 <= |s| ==> u[2..] == s[j + 2..];
  }

  /** What class of token begins at j, in terms of its first bytes. */
  lemma TokenHere(s: string, j: nat)
    requires j < |s|
    ensures j + TokLen(s[j..]) <= |s|
    ensures s[j] == '\'' ==> KindOf(s[j..]) == Quoted && InString(s, j + 1, j + TokLen(s[j..]), true)
    ensures KindOf(s[j..]) == Quoted ==> IsQuote(s[j])
    ensures KindOf(s[j..]) == Word <==> IsIdentByte(s[j])
  {
    assert s[j..][1..] == s[j + 1..];
  }

  /** At the end of the text nothing closes, and nothing is cut. */
  lemma CloseAtEnd(s: string, d: int)
    ensures CloseFrom(s, |s|, d) == -1
  {
  }

  lemma ArgsAtEnd(s: string, last: nat, d: int)
    requires last <= |s|
    ensures ArgsFrom(s, last, |s|, d) == [s[last..]]
  {
    assert s[last..|s|] + "" == s[last..];
  }

  lemma ArgsAtStart(s: string)
    ensures ArgsFrom(s, 0, 0, 0) == PieceTexts(Lex(s), 0)
  {
    var ps := PieceTexts(Lex(s), 0);
    assert s[0..] == s && s[0..0] == "";
    assert "" + ps[0] == ps[0] && [ps[0]] + ps[1..] == ps;
  }

  method MatchingParen(s: string, open: nat) returns (close: int)
    requires open < |s| && s[open] == '('
    ensures close == CloseFrom(s, open, 0)
  {
    hide Lex, CloseOff, CloseFrom, TokLen, KindOf, QuotedLen;
    var depth := 0;
    var inStr := false;
    var j := open;
    ghost var stop: nat := j;
    while j < |s|
      invariant open <= j
      invariant InString(s, j, stop, inStr)
      invariant CloseFrom(s, open, 0) == CloseFrom(s, stop, depth)
    {
      var c := s[j];
      if inStr {
        InStringStep(s, j, stop);
        if c == '\\' {
          j := j + 1;
        } else if c == '\'' {
          if j + 1 < |s| && s[j + 1] == '\'' {
            j := j + 1;
          } else {
            inStr := false;
          }
        }
        j := j + 1;
        continue;
      }
      TokenHere(s, j);
      CloseByte(s, j, depth);
      var end, ok := SkipNonCode(s, j);
      if ok {
        j := end + 1;
        stop := j;
        continue;
      }
      stop := j + 1;
      if c == '\'' {
        stop := j + TokLen(s[j..]);
        inStr := true;
      } else if c == '(' {
        depth := depth + 1;
      } else if c == ')' {
        depth := depth - 1;
        if depth == 0 {
          return j;
        }
      }
      j := j + 1;
    }
    CloseAtEnd(s, depth);
    return -1;
  }

  method SplitArgs(s: string) returns (args: seq<string>)
    ensures args == Flats(Args(Lex(s)))
  {
    PieceTextsFlat(Lex(s), 0);
    LexCanonical(s);
    hide Lex, PieceTexts, TokLen, Pieces, Flats, QuotedLen, KindOf, ArgsFrom, Text.TrimSpace;
    args := [];
    var depth := 0;
    var inStr := false;
    var last := 0;
    var j := 0;
    ghost var goal := PieceTexts(Lex(s), 0);
    ghost var stop: nat := j;
    ArgsAtStart(s);
    while j < |s|
      invariant last <= j && last <= stop
      invariant InString(s, j, stop, inStr)
      invariant goal == args + ArgsFrom(s, last, stop, depth)
    {
      var c := s[j];
      if inStr {
        InStringStep(s, j, stop);
        if c == '\\' {
          j := j + 1;
        } else if c == '\'' {
          if j + 1 < |s| && s[j + 1] == '\'' {
            j := j + 1;
          } else {
            inStr := false;
          }
        }
        j := j + 1;
        continue;
      }
      TokenHere(s, j);
      ArgsByte(s, last, j, depth);
      var end, ok := SkipNonCode(s, j);
      if ok {
        j := end + 1;
        stop := j;
        continue;
      }
      stop := j + 1;
      if c == '\'' {
        stop := j + TokLen(s[j..]);
        inStr := true;
      } else if c == '(' || c == '[' {
        depth := depth + 1;
      } else if c == ')' || c == ']' {
        depth := depth - 1;
      } else if c == ',' {
        if depth == 0 {
          ghost var rest := ArgsFrom(s, j + 1, j + 1, depth);
          assert args + ([s[last..j]] + rest) == (args + [s[last..j]]) + rest;
          args := args + [s[last..j]];
          last := j + 1;
        }
      }
      j := j + 1;
    }
    ArgsAtEnd(s, last, depth);
    assert goal == args + [s[last..]];
    if Text.TrimSpace(s) != "" || |args| > 0 {
      args := args + [s[last..]];
    }
  }

  // ----- the search for the next call

  /** Length of the run of blanks and tabs s begins with. */
  function BlankLen(s: string): (n: nat)
    ensures n <= |s|
    ensures forall i :: 0 <= i < n ==> s[i] == ' ' || s[i] == '\t'
    ensures n < |s| ==> s[n] != ' ' && s[n] != '\t'
  {
    if s == "" || (s[0] != ' ' && s[0] != '\t') then 0 else 1 + BlankLen(s[1..])
  }

  lemma MarkToken(s: string)
    requires s != "" && !IsIdentByte(s[0]) && !IsQuote(s[0]) && s[0] != '-' && s[0] != '/'
    ensures KindOf(s) == Mark && Lex(s) == [[s[0]]] + Lex(s[1..])
  {
    assert s[..1] == [s[0]];
  }

  lemma {:induction false} GapBytes(s: string)
    ensures var n := BlankLen(s);
            && GapLen(Lex(s)) == n
            && |Flat(Lex(s)[..n])| == n
            && ((n < |Lex(s)| && Lex(s)[n] == "(") <==> (n < |s| && s[n] == '('))
    decreases |s|
  {
    hide TokLen, KindOf, Lex, Canonical;
    LexCanonical(s);
    if s == "" {
      LexNil();
    } else if s[0] == ' ' || s[0] == '\t' {
      MarkToken(s);
      GapBytes(s[1..]);
      GapCons([s[0]], Lex(s[1..]));
    } else if s[0] == '(' {
      MarkToken(s);
    }
  }

  lemma LexNil()
    ensures Lex("") == []
  {
  }

  lemma GapCons(t: Token, r: seq<Token>)
    requires IsGap(t)
    ensures GapLen([t] + r) == 1 + GapLen(r)
    ensures |Flat(([t] + r)[..1 + GapLen(r)])| == 1 + |Flat(r[..GapLen(r)])|
  {
    var ts, n := [t] + r, GapLen(r);
    assert ts[1..] == r;
    assert ts[..n + 1] == [t] + r[..n];
    assert ([t] + r[..n])[1..] == r[..n];
  }

  lemma HeadTokens(t: Token, r: seq<Token>)
    requires t != "" && IsIdentStart(t[0])
    ensures var g := GapLen(r);
            && (IsCallHead([t] + r) <==> g < |r| && r[g] == "(")
            && (IsCallHead([t] + r) ==> FirstCall([t] + r) == Call(t, 0, |t| + |Flat(r[..g])|))
            && (!IsCallHead([t] + r) ==> FirstCall([t] + r) == FirstCall(r).Shift(|t|))
  {
    var ts, g := [t] + r, GapLen(r);
    assert ts[1..] == r && OpenIdx(ts) == 1 + g;
    assert ts[..1 + g] == [t] + r[..g];
    assert ([t] + r[..g])[1..] == r[..g];
  }

  /** Whether the identifier s begins with is called, and where its "(" is. */
  lemma HeadBytes(s: string)
    requires s != "" && IsIdentStart(s[0])
    ensures var w := WordLen(s); var p := w + BlankLen(s[w..]);
            && w > 0
            && (p < |s| && s[p] == '(' ==> FirstCall(Lex(s)) == Call(s[..w], 0, p))
            && (!(p < |s| && s[p] == '(') ==> FirstCall(Lex(s)) == FirstCall(Lex(s[w..])).Shift(w))
  {
    hide Lex, WordLen, TokLen, KindOf, BlankLen, GapLen, FirstCall, Flat, IsCallHead;
    var w := WordLen(s);
    WordToken(s);
    LexUnfold(s);
    GapBytes(s[w..]);
    HeadTokens(s[..w], Lex(s[w..]));
  }

  /** Tokens that are no call head. */
  lemma SkipToken(s: string, j: nat)
    requires j < |s| && !IsIdentByte(s[j])
    ensures j + TokLen(s[j..]) <= |s|
    ensures CallFrom(s, j) == CallFrom(s, j + TokLen(s[j..]))
    ensures Settled(s, j + TokLen(s[j..])) == j + TokLen(s[j..])
  {
    var n := TokLen(s[j..]);
    LexCanonical(s[j..]);
    CallStep(s, j);
    CommentLength(s[j..]);
    TokenEnd(s, j);
    if j + n == |s| {
      assert s[j + n..] == "";
    }
  }

  /** One byte of a word that is no call head, or that a scan entered midway. */
  lemma SkipWordByte(s: string, j: nat)
    requires j < |s| && IsIdentByte(s[j])
    requires IsIdentStart(s[j]) ==> j > 0 && IsIdentByte(s[j - 1])
    ensures CallFrom(s, Settled(s, j)) == CallFrom(s, Settled(s, j + 1))
  {
    hide Lex, FirstCall, TokLen, KindOf, WordLen, IsCallHead, CallFrom;
    var u := s[j..];
    assert u[1..] == s[j + 1..];
    WordToken(u);
    if !(j > 0 && IsIdentByte(s[j - 1])) {
      NoHeadAt(u);
      CallStep(s, j);
    }
  }

  lemma NoHeadAt(s: string)
    requires s != "" && !IsIdentStart(s[0])
    ensures !IsCallHead(Lex(s))
  {
    LexCanonical(s);
  }

  method NextCall(s: string, i: nat) returns (name: string, start: int, open: int)
    requires i <= |s|
    ensures start < 0 ==> CallFrom(s, Settled(s, i)) == NoCall
    ensures start >= 0 ==> open >= 0 && CallFrom(s, Settled(s, i)) == Call(name, start, open)
  {
    hide Lex, FirstCall, QuotedLen, CallFrom, WordLen, BlankLen, TokLen, KindOf, Settled;
    var inStr := false;
    var j := i;
    ghost var stop: nat := j;
    ghost var goal := CallFrom(s, Settled(s, i));
    while j < |s|
      invariant i <= j
      invariant InString(s, j, stop, inStr)
      invariant goal == CallFrom(s, Settled(s, stop))
      invariant inStr ==> Settled(s, stop) == stop
    {
      var c := s[j];
      if inStr {
        InStringStep(s, j, stop);
        if c == '\\' {
          j := j + 1;
        } else if c == '\'' {
          if j + 1 < |s| && s[j + 1] == '\'' {
            j := j + 1;
          } else {
            inStr := false;
          }
        }
        j := j + 1;
        continue;
      }
      TokenHere(s, j);
      var end, ok := SkipNonCode(s, j);
      if !IsIdentByte(c) {
        NotInWord(s, j);
        SkipToken(s, j);
      }
      if ok {
        j := end + 1;
        stop := j;
        continue;
      }
      stop := j + 1;
      if c == '\'' {
        stop := j + TokLen(s[j..]);
        inStr := true;
      } else if IsIdentStart(c) && (j == 0 || !IsIdentByte(s[j - 1])) {
        var k := j;
        while k < |s| && IsIdentByte(s[k])
          invariant j <= k <= |s|
          invariant k + WordLen(s[k..]) == j + WordLen(s[j..])
        {
          WordToken(s[k..]);
          assert s[k..][1..] == s[k + 1..];
          k := k + 1;
        }
        NoWord(s, k);
        NotInWord(s, j);
        NotInWord(s, k);
        var p := k;
        while p < |s| && (s[p] == ' ' || s[p] == '\t')
          invariant k <= p <= |s|
          invariant p + BlankLen(s[p..]) == k + BlankLen(s[k..])
        {
          assert s[p..][1..] == s[p + 1..];
          p := p + 1;
        }
        CallAt(s, j, k, p);
        if p < |s| && s[p] == '(' {
          return s[j..k], j, p;
        }
        stop := k;
        j := k - 1;
      } else if IsIdentByte(c) {
        SkipWordByte(s, j);
      } else {
        CommentLength(s[j..]);
      }
      j := j + 1;
    }
    assert s[Settled(s, stop)..] == "";
    CallAtEnd(s);
    return "", -1, -1;
  }

  lemma NoWord(s: string, k: nat)
    requires k <= |s| && (k < |s| ==> !IsIdentByte(s[k]))
    ensures WordLen(s[k..]) == 0
  {
  }

  lemma NotInWord(s: string, j: nat)
    requires j <= |s|
    requires j == 0 || !IsIdentByte(s[j - 1]) || j == |s| || !IsIdentByte(s[j])
    ensures Settled(s, j) == j
  {
    if j > 0 && IsIdentByte(s[j - 1]) {
      NoWord(s, j);
    }
  }

  lemma CallAtEnd(s: string)
    ensures CallFrom(s, |s|) == NoCall
  {
  }

  lemma ShiftTwice(c: CallSite, m: nat, n: nat)
    ensures c.Shift(m).Shift(n) == c.Shift(m + n)
  {
  }

  /** The identifier s[j..k], the blanks s[k..p] and what follows them. */
  lemma CallAt(s: string, j: nat, k: nat, p: nat)
    requires j < |s| && IsIdentStart(s[j])
    requires j < k <= p <= |s| && k == j + WordLen(s[j..])
    requires p == k + BlankLen(s[k..])
    ensures CallFrom(s, j) == if p < |s| && s[p] == '(' then Call(s[j..k], j, p) else CallFrom(s, k)
  {
    hide Lex, WordLen, BlankLen, FirstCall, TokLen, KindOf, Flat, IsCallHead;
    var u := s[j..];
    assert u[k - j..] == s[k..] && u[..k - j] == s[j..k];
    HeadBytes(u);
    ShiftTwice(FirstCall(Lex(s[k..])), k - j, j);
  }
}
