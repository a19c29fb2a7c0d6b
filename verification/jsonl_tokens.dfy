/** JSON lines as tokens, and the byte-wise patch as a rewriting of one token. White
    space belongs to the token behind it, so a line is its tokens and the white space
    at its end, byte for byte; brackets may nest to any depth. */
module JsonlTokens {
  import opened Text
  import opened JsonlPatch
  import opened Wrappers

  datatype Lexeme = Quoted(raw: string) | Scalar(text: string) | Mark(c: char)

  /** A lexeme and the white space before it. */
  datatype Token = Token(pre: string, lex: Lexeme)

  // ----- the lexical grammar: sections 2, 3, 6 and 7 of RFC 8259

  predicate IsHex(c: char) {
    '0' <= c <= '9' || 'a' <= c <= 'f' || 'A' <= c <= 'F'
  }

  /** The content of a string literal. */
  predicate StringContent(s: string) {
    if s == "" then true
    else if s[0] == '\\' then
      |s| > 1 &&
      if s[1] == 'u' then
        |s| >= 6 && IsHex(s[2]) && IsHex(s[3]) && IsHex(s[4]) && IsHex(s[5]) && StringContent(s[6..])
      else s[1] in "\"\\/bfnrt" && StringContent(s[2..])
    else s[0] != '"' && s[0] >= ' ' && StringContent(s[1..])
  }

  /** White space within a line. */
  predicate White(s: string) {
    forall i :: 0 <= i < |s| ==> s[i] == ' ' || s[i] == '\t' || s[i] == '\r'
  }

  /** A number or one of true, false and null, by the bytes these are made of. */
  predicate ScalarText(s: string) {
    s != "" && forall i :: 0 <= i < |s| ==>
      'a' <= s[i] <= 'z' || 'A' <= s[i] <= 'Z' || '0' <= s[i] <= '9' || s[i] == '-' || s[i] == '+' || s[i] == '.'
  }

  predicate LexemeOk(x: Lexeme) {
    match x
    case Quoted(raw) => StringContent(raw)
    case Scalar(text) => ScalarText(text)
    case Mark(c) => c in "{}[],:"
  }

  predicate TokenOk(t: Token) {
    White(t.pre) && LexemeOk(t.lex)
  }

  predicate MarkIn(ts: seq<Token>, i: int, cs: string) {
    0 <= i < |ts| && ts[i].lex.Mark? && ts[i].lex.c in cs
  }

  /** What every JSON text of an object is: it begins and ends with a bracket, and a
      comma, colon or closing bracket follows every literal. */
  ghost predicate Lexed(ts: seq<Token>) {
    && (forall i :: 0 <= i < |ts| ==> TokenOk(ts[i]))
    && MarkIn(ts, 0, "{[") && MarkIn(ts, |ts| - 1, "}]")
    && forall i :: 0 <= i < |ts| && !ts[i].lex.Mark? ==> Followed(ts, i)
  }

  predicate Followed(ts: seq<Token>, i: int) {
    MarkIn(ts, i + 1, ",:}]")
  }

  function Body(x: Lexeme): string {
    match x
    case Quoted(raw) => "\"" + raw + "\""
    case Scalar(text) => text
    case Mark(c) => [c]
  }

  function TokenText(t: Token): string {
    t.pre + Body(t.lex)
  }

  function Flat(ts: seq<Token>): string {
    if ts == [] then "" else TokenText(ts[0]) + Flat(ts[1..])
  }

  // ----- which keys the patch finds

  /** A field name as SensitiveCollectorFields has them: it needs no escape and
      cannot be mistaken for what follows a literal. */
  predicate FieldName(key: string) {
    && (forall i :: 0 <= i < |key| ==> key[i] != '"' && key[i] != '\\')
    && (key != "" ==> key[0] !in " \t\r,:}]")
  }

  predicate NoReturn(s: string) {
    '\r' !in s
  }

  /** At token i the patch finds the field: a literal spelled like it behind "{" or
      ",", then a colon and a string, no carriage return before any of these. */
  predicate Found(ts: seq<Token>, i: int, key: string) {
    && MarkIn(ts, i - 1, "{,") && MarkIn(ts, i + 1, ":") && i + 2 < |ts|
    && ts[i].lex == Quoted(key) && ts[i + 2].lex.Quoted?
    && NoReturn(ts[i].pre) && NoReturn(ts[i + 1].pre) && NoReturn(ts[i + 2].pre)
  }

  /** The first token from i on where the field is found, at any depth; or -1. */
  function FirstKey(ts: seq<Token>, key: string, i: nat): (k: int)
    ensures k >= 0 ==> i <= k && Found(ts, k, key) && forall j :: i <= j < k ==> !Found(ts, j, key)
    ensures k < 0 ==> k == -1 && forall j :: i <= j ==> !Found(ts, j, key)
    decreases |ts| - i
  {
    if i >= |ts| then -1 else if Found(ts, i, key) then i else FirstKey(ts, key, i + 1)
  }

  // ----- scanning over string content

  lemma PlainStep(s: string)
    requires s != "" && s[0] != '"' && s[0] != '\\'
    ensures StringEnd(s) == if StringEnd(s[1..]) < 0 then -1 else StringEnd(s[1..]) + 1
  {
  }

  lemma FourPlain(u: string)
    requires |u| >= 4 && forall i :: 0 <= i < 4 ==> u[i] != '"' && u[i] != '\\'
    ensures StringEnd(u) == if StringEnd(u[4..]) < 0 then -1 else StringEnd(u[4..]) + 4
  {
    hide StringEnd;
    PlainStep(u);
    PlainStep(u[1..]);
    PlainStep(u[2..]);
    PlainStep(u[3..]);
    assert u[1..][1..] == u[2..] && u[2..][1..] == u[3..] && u[3..][1..] == u[4..];
  }

  lemma {:induction false} ContentEnd(raw: string, rest: string)
    requires StringContent(raw)
    ensures StringEnd(raw + "\"" + rest) == |raw|
    decreases |raw|
  {
    var s := raw + "\"" + rest;
    if raw == "" {
      assert s[0] == '"';
    } else if raw[0] == '\\' && raw[1] == 'u' {
      ContentEnd(raw[6..], rest);
      var u, v := s[2..], raw[2..];
      assert u == v + "\"" + rest;
      assert u[0] == v[0] && u[1] == v[1] && u[2] == v[2] && u[3] == v[3];
      FourPlain(u);
      assert u[4..] == raw[6..] + "\"" + rest;
    } else if raw[0] == '\\' {
      ContentEnd(raw[2..], rest);
      assert s[2..] == raw[2..] + "\"" + rest;
    } else {
      ContentEnd(raw[1..], rest);
      assert s[1..] == raw[1..] + "\"" + rest;
    }
  }

  /** A quote within string content stands behind a backslash. */
  lemma {:induction false} QuoteEscaped(raw: string, i: nat)
    requires StringContent(raw) && i < |raw| && raw[i] == '"'
    ensures i > 0 && raw[i - 1] == '\\'
    decreases |raw|
  {
    if raw[0] == '\\' && raw[1] == 'u' {
      QuoteEscaped(raw[6..], i - 6);
    } else if raw[0] == '\\' {
      if i > 1 { QuoteEscaped(raw[2..], i - 2); }
    } else {
      QuoteEscaped(raw[1..], i - 1);
    }
  }

  /** Content followed by its quote starts with a plain name and a quote only if
      it is that name. */
  lemma {:induction false} ContentIs(raw: string, rest: string, key: string)
    requires StringContent(raw) && FieldChars(key)
    ensures HasPrefix(raw + "\"" + rest, key + "\"") <==> raw == key
    decreases |raw|
  {
    var s, k := raw + "\"" + rest, key + "\"";
    PrefixStep(s, k);
    if raw == "" {
      assert s[0] == '"';
    } else if key != "" {
      assert s[1..] == raw[1..] + "\"" + rest && k[1..] == key[1..] + "\"";
      assert raw == [raw[0]] + raw[1..] && key == [key[0]] + key[1..];
      if raw[0] != '\\' {
        ContentIs(raw[1..], rest, key[1..]);
      }
    }
  }

  lemma PrefixStep(s: string, k: string)
    requires s != "" && k != ""
    ensures HasPrefix(s, k) <==> s[0] == k[0] && HasPrefix(s[1..], k[1..])
  {
    if |k| <= |s| {
      var p := s[..|k|];
      assert p[0] == s[0] && p[1..] == s[1..][..|k| - 1];
      assert k == [k[0]] + k[1..] && p == [p[0]] + p[1..];
    }
  }

  predicate FieldChars(key: string) {
    forall i :: 0 <= i < |key| ==> key[i] != '"' && key[i] != '\\'
  }

  // ----- blanks

  lemma {:induction false} BlankRunOver(w: string, rest: string)
    requires White(w) && rest != "" && !IsBlank(rest[0])
    ensures NoReturn(w) ==> BlankRun(w + rest) == |w|
    ensures !NoReturn(w) ==> BlankRun(w + rest) < |w| && (w + rest)[BlankRun(w + rest)] == '\r'
  {
    if w == "" {
      assert w + rest == rest;
    } else {
      assert (w + rest)[1..] == w[1..] + rest;
      if w[0] != '\r' {
        BlankRunOver(w[1..], rest);
        assert '\r' in w <==> '\r' in w[1..];
      }
    }
  }

  /** Looking back over white space for "{" or ",". */
  lemma {:induction false} KeyPositionOver(line: string, a: nat, p: nat)
    requires 0 < a <= p <= |line| && White(line[a..p]) && !IsBlank(line[a - 1])
    ensures KeyPosition(line, p) <==> NoReturn(line[a..p]) && (line[a - 1] == '{' || line[a - 1] == ',')
    decreases p
  {
    var w := line[a..p];
    if p > a {
      assert w[|w| - 1] == line[p - 1];
      var v := line[a..p - 1];
      assert w == v + [line[p - 1]];
      assert White(v) by { assert forall i :: 0 <= i < |v| ==> v[i] == w[i]; }
      if line[p - 1] != '\r' {
        KeyPositionOver(line, a, p - 1);
        assert '\r' in w <==> '\r' in v;
      } else {
        assert '\r' in w;
      }
    }
  }

  // ----- positions without a value

  lemma NoQuoteNoValue(line: string, key: string, p: nat)
    requires p <= |line| && (p == |line| || line[p] != '"')
    ensures ValueAt(line, key, p) == -1
  {
    if p < |line| {
      PrefixStep(line[p..], Needle(key));
    }
  }

  lemma AfterQuoteNoValue(line: string, key: string, p: nat)
    requires p + 1 < |line| && line[p + 1] in " \t\r,:}]" && FieldName(key)
    ensures ValueAt(line, key, p) == -1
  {
    var u, n := line[p..], Needle(key);
    PrefixStep(u, n);
    var r := key + "\"";
    assert n[1..] == r && u[1..] == line[p + 1..];
    PrefixStep(u[1..], r);
  }

  lemma EscapedNoValue(line: string, key: string, p: nat)
    requires 0 < p < |line| && line[p - 1] == '\\'
    ensures ValueAt(line, key, p) == -1
  {
  }

  /** Inside string content no position begins a key. */
  lemma ContentNoValue(line: string, key: string, from: nat, raw: string, p: nat)
    requires StringContent(raw) && from + |raw| <= |line| && line[from..from + |raw|] == raw
    requires from <= p < from + |raw|
    ensures ValueAt(line, key, p) == -1
  {
    hide ValueAt, StringContent;
    assert raw[p - from] == line[p];
    if line[p] == '"' {
      QuoteEscaped(raw, p - from);
      assert raw[p - from - 1] == line[p - 1];
      EscapedNoValue(line, key, p);
    } else {
      NoQuoteNoValue(line, key, p);
    }
  }

  lemma GapOver(line: string, i: nat, j: nat, w: string)
    requires i <= j < |line| && line[i..j] == w && White(w) && !IsBlank(line[j])
    ensures NoReturn(w) ==> Past(line, i) == j
    ensures !NoReturn(w) ==> Past(line, i) < |line| && line[Past(line, i)] == '\r'
  {
    BlankRunOver(w, line[j..]);
    assert line[i..] == w + line[j..];
  }

  lemma {:induction false} SkipRegion(line: string, key: string, from: nat, to: nat)
    requires from <= to && to <= |line|
    requires forall p :: from <= p < to ==> ValueAt(line, key, p) == -1
    ensures FirstValue(line, key, from) == FirstValue(line, key, to)
    decreases |line| - from
  {
    hide ValueAt;
    if from < to {
      SkipRegion(line, key, from + 1, to);
    }
  }

  // ----- a token within the line

  /** Where token i begins, its white space included. */
  function At(ts: seq<Token>, i: nat): nat
    requires i <= |ts|
  {
    |Flat(ts[..i])|
  }

  function Begin(ts: seq<Token>, i: nat): nat
    requires i < |ts|
  {
    At(ts, i) + |ts[i].pre|
  }

  ghost predicate Stands(line: string, a: nat, t: Token) {
    var q := a + |t.pre|;
    var e := q + |Body(t.lex)|;
    e <= |line| && line[a..q] == t.pre && line[q..e] == Body(t.lex)
  }

  lemma {:induction false} FlatSplit(ts: seq<Token>, i: nat)
    requires i <= |ts|
    ensures Flat(ts) == Flat(ts[..i]) + Flat(ts[i..])
  {
    hide TokenText;
    if i == 0 {
      assert ts[0..] == ts;
    } else {
      FlatSplit(ts[1..], i - 1);
      assert ts[1..][..i - 1] == ts[..i][1..] && ts[1..][i - 1..] == ts[i..];
      assert ts[..i][0] == ts[0];
    }
  }

  lemma FlatOne(ts: seq<Token>, i: nat)
    requires i < |ts|
    ensures Flat(ts[..i + 1]) == Flat(ts[..i]) + TokenText(ts[i])
    ensures Flat(ts[i..]) == TokenText(ts[i]) + Flat(ts[i + 1..])
  {
    hide TokenText;
    FlatSplit(ts[..i + 1], i);
    assert ts[..i + 1][..i] == ts[..i] && ts[..i + 1][i..] == [ts[i]];
    assert [ts[i]][1..] == [] && Flat([ts[i]]) == TokenText(ts[i]);
    assert ts[i..][1..] == ts[i + 1..];
  }

  /** Token i stands where its predecessors end. */
  lemma {:induction false} StandsAt(ts: seq<Token>, end: string, i: nat)
    requires i < |ts|
    ensures Stands(Flat(ts) + end, At(ts, i), ts[i])
    ensures At(ts, i + 1) == At(ts, i) + |ts[i].pre| + |Body(ts[i].lex)| <= |Flat(ts)|
    ensures (Flat(ts) + end)[At(ts, i + 1)..] == Flat(ts[i + 1..]) + end
  {
    hide Body, Flat;
    FlatSplit(ts, i);
    FlatOne(ts, i);
    assert TokenText(ts[i]) == ts[i].pre + Body(ts[i].lex);
    Place(Flat(ts[..i]), ts[i].pre, Body(ts[i].lex), Flat(ts[i + 1..]), end);
  }

  lemma Place(h: string, p: string, b: string, r: string, end: string)
    ensures var line := h + ((p + b) + r) + end;
            && line[|h|..|h| + |p|] == p && line[|h| + |p|..|h| + |p| + |b|] == b
            && line[|h| + |p| + |b|..] == r + end
  {
    var line := h + ((p + b) + r) + end;
    assert line == h + p + b + (r + end);
  }

  /** The byte a token ends with, and the one its lexeme begins with. */
  lemma EndBytes(line: string, a: nat, t: Token)
    requires Stands(line, a, t) && TokenOk(t)
    ensures var q := a + |t.pre|; var e := q + |Body(t.lex)|;
            && q < e && !IsBlank(line[e - 1])
            && (line[e - 1] == '{' || line[e - 1] == ',' <==> t.lex == Mark('{') || t.lex == Mark(','))
            && line[q] != ' ' && line[q] != '\t' && line[q] != '\r'
            && (line[q] == ':' <==> t.lex == Mark(':')) && (line[q] == '"' <==> t.lex.Quoted?)
            && (t.lex.Mark? ==> line[q] == t.lex.c)
  {
    var q := a + |t.pre|;
    var b := Body(t.lex);
    assert line[q..q + |b|][0] == line[q] && line[q..q + |b|][|b| - 1] == line[q + |b| - 1];
  }

  /** A literal that begins with the field's needle is the field's name. */
  lemma QuotedIs(line: string, a: nat, t: Token, key: string)
    requires Stands(line, a, t) && TokenOk(t) && t.lex.Quoted? && FieldName(key)
    ensures HasPrefix(line[a + |t.pre|..], Needle(key)) <==> t.lex.raw == key
  {
    hide StringContent, HasPrefix;
    var q, raw := a + |t.pre|, t.lex.raw;
    var rest := line[q + |raw| + 2..];
    var n, u := Needle(key), line[q..];
    AroundQuoted(line, q, raw);
    PrefixStep(u, n);
    assert n[1..] == key + "\"";
    ContentIs(raw, rest, key);
  }

  lemma AroundQuoted(line: string, q: nat, raw: string)
    requires q + |raw| + 2 <= |line| && line[q..q + |raw| + 2] == "\"" + raw + "\""
    ensures line[q..][0] == '"' && line[q..][1..] == raw + "\"" + line[q + |raw| + 2..]
    ensures line[q + 1..q + 1 + |raw|] == raw
  {
    var t := "\"" + raw + "\"";
    assert line[q..] == line[q..q + |raw| + 2] + line[q + |raw| + 2..];
    assert line[q..][1..] == t[1..] + line[q + |raw| + 2..];
    assert t[1..] == raw + "\"";
    assert line[q..q + |raw| + 2][1..|raw| + 1] == t[1..|raw| + 1] == raw;
  }

  // ----- where a line has a value of the field

  lemma AfterStart(line: string, a: nat, t: Token, key: string)
    requires Stands(line, a, t) && TokenOk(t) && 0 < a && !IsBlank(line[a - 1])
    ensures KeyPosition(line, a + |t.pre|) <==> NoReturn(t.pre) && (line[a - 1] == '{' || line[a - 1] == ',')
  {
    hide LexemeOk, Body;
    KeyPositionOver(line, a, a + |t.pre|);
  }

  /** Past the white space before a token, or at a carriage return in it. */
  lemma PastPre(line: string, a: nat, t: Token)
    requires Stands(line, a, t) && TokenOk(t)
    ensures NoReturn(t.pre) ==> Past(line, a) == a + |t.pre|
    ensures !NoReturn(t.pre) ==> Past(line, a) < |line| && line[Past(line, a)] == '\r'
  {
    EndBytes(line, a, t);
    hide LexemeOk, Body, Past;
    GapOver(line, a, a + |t.pre|, t.pre);
  }

  /** Where the string stands whose literal the cursor meets first from p on; or -1. */
  function StringFrom(line: string, p: nat): int
    requires p <= |line|
  {
    var v := Past(line, p);
    if v < |line| && line[v] == '"' then v else -1
  }

  lemma {:induction false} KeyBytes(line: string, a: nat, t: Token, next: Token, key: string)
    requires Stands(line, a, t) && TokenOk(t) && t.lex.Quoted? && FieldName(key) && 0 < a && !IsBlank(line[a - 1])
    requires Stands(line, a + |t.pre| + |Body(t.lex)|, next) && TokenOk(next)
    ensures var e := a + |t.pre| + |Body(t.lex)|;
            ValueAt(line, key, a + |t.pre|) ==
            if t.lex.raw == key && NoReturn(t.pre) && (line[a - 1] == '{' || line[a - 1] == ',')
               && NoReturn(next.pre) && next.lex == Mark(':')
            then StringFrom(line, e + |next.pre| + 1) else -1
  {
    hide StringContent, KeyPosition, HasPrefix, FieldName, ValueAt, Past, Needle, White, NoReturn;
    var q, e := a + |t.pre|, a + |t.pre| + |Body(t.lex)|;
    EndBytes(line, e, next);
    QuotedIs(line, a, t, key);
    AfterStart(line, a, t, key);
    PastPre(line, e, next);
    if t.lex.raw != key {
      NoPrefixNoValue(line, key, q);
    } else {
      NeedleLength(key);
      ValueSteps(line, key, q);
    }
  }

  lemma NeedleLength(key: string)
    ensures |Needle(key)| == |key| + 2 == |Body(Quoted(key))|
  {
  }

  lemma StringAfter(line: string, a: nat, t: Token)
    requires Stands(line, a, t) && TokenOk(t)
    ensures StringFrom(line, a) == if NoReturn(t.pre) && t.lex.Quoted? then a + |t.pre| else -1
  {
    hide Past, NoReturn, TokenOk, Body;
    EndBytes(line, a, t);
    PastPre(line, a, t);
  }

  /** At a literal the field's value is found exactly when the token says so, and it
      is the literal two tokens on. */
  lemma {:induction false} KeyValue(ts: seq<Token>, end: string, i: nat, key: string)
    requires Lexed(ts) && 0 < i < |ts| && ts[i].lex.Quoted? && FieldName(key)
    ensures Begin(ts, i) <= |Flat(ts)|
    ensures ValueAt(Flat(ts) + end, key, Begin(ts, i)) == if Found(ts, i, key) then Begin(ts, i + 2) else -1
  {
    hide Flat, At, Stands, TokenOk, FieldName, ValueAt, StringFrom, NoReturn, Body;
    var line := Flat(ts) + end;
    StandsAt(ts, end, i - 1);
    StandsAt(ts, end, i);
    assert Followed(ts, i) && TokenOk(ts[i - 1]) && TokenOk(ts[i]) && TokenOk(ts[i + 1]);
    StandsAt(ts, end, i + 1);
    EndBytes(line, At(ts, i - 1), ts[i - 1]);
    MarkBody(':');
    KeyBytes(line, At(ts, i), ts[i], ts[i + 1], key);
    if ts[i + 1].lex == Mark(':') {
      assert i + 2 < |ts| && TokenOk(ts[i + 2]);
      StandsAt(ts, end, i + 2);
      StringAfter(line, At(ts, i + 2), ts[i + 2]);
    }
  }

  lemma MarkBody(c: char)
    ensures |Body(Mark(c))| == 1
  {
  }

  lemma NoPrefixNoValue(line: string, key: string, p: nat)
    requires p <= |line| && !HasPrefix(line[p..], Needle(key))
    ensures ValueAt(line, key, p) == -1
  {
  }

  /** Nowhere else in a token does a value of the field begin. */
  lemma {:induction false} NoOtherValue(ts: seq<Token>, end: string, i: nat, key: string, p: nat)
    requires Lexed(ts) && i < |ts| && FieldName(key) && At(ts, i) <= p < At(ts, i + 1)
    requires p != Begin(ts, i) || !ts[i].lex.Quoted?
    ensures p < |Flat(ts)| && ValueAt(Flat(ts) + end, key, p) == -1
  {
    hide Flat, At, Stands, FieldName, ValueAt, Body, LexemeOk, White;
    var line, t := Flat(ts) + end, ts[i];
    StandsAt(ts, end, i);
    assert TokenOk(t);
    if t.lex.Quoted? && p > Begin(ts, i) {
      assert Followed(ts, i);
      StandsAt(ts, end, i + 1);
      InQuoted(line, At(ts, i), t, ts[i + 1], key, p);
    } else {
      OutsideQuoted(line, At(ts, i), t, key, p);
    }
  }

  lemma OutsideQuoted(line: string, a: nat, t: Token, key: string, p: nat)
    requires Stands(line, a, t) && TokenOk(t) && a <= p < a + |t.pre| + |Body(t.lex)|
    requires t.lex.Quoted? ==> p < a + |t.pre|
    ensures ValueAt(line, key, p) == -1
  {
    var q := a + |t.pre|;
    if p < q {
      assert line[p] == t.pre[p - a];
    } else {
      assert line[p] == Body(t.lex)[p - q];
    }
    NoQuoteNoValue(line, key, p);
  }

  lemma InQuoted(line: string, a: nat, t: Token, next: Token, key: string, p: nat)
    requires Stands(line, a, t) && TokenOk(t) && t.lex.Quoted? && FieldName(key)
    requires Stands(line, a + |t.pre| + |Body(t.lex)|, next) && TokenOk(next) && next.lex.Mark? && next.lex.c in ",:}]"
    requires a + |t.pre| < p < a + |t.pre| + |Body(t.lex)|
    ensures ValueAt(line, key, p) == -1
  {
    hide StringContent, ValueAt, FieldName;
    var q, raw := a + |t.pre|, t.lex.raw;
    var e := q + |raw| + 2;
    AroundQuoted(line, q, raw);
    if p == e - 1 {
      EndBytes(line, e, next);
      assert next.pre != "" ==> line[e] == next.pre[0];
      AfterQuoteNoValue(line, key, p);
    } else {
      ContentNoValue(line, key, q + 1, raw, p);
    }
  }

  lemma EndNoValue(ts: seq<Token>, end: string, key: string, p: nat)
    requires White(end) && |Flat(ts)| <= p <= |Flat(ts)| + |end|
    ensures ValueAt(Flat(ts) + end, key, p) == -1
  {
    var line := Flat(ts) + end;
    assert p < |line| ==> line[p] == end[p - |Flat(ts)|];
    NoQuoteNoValue(line, key, p);
  }

  lemma AtEnds(ts: seq<Token>)
    ensures At(ts, 0) == 0 && At(ts, |ts|) == |Flat(ts)|
  {
    assert ts[..0] == [] && ts[..|ts|] == ts;
  }

  /** The first value the byte search finds is that of the first key found. */
  lemma {:induction false} FirstFound(ts: seq<Token>, end: string, key: string, i: nat)
    requires Lexed(ts) && White(end) && FieldName(key) && i <= |ts|
    ensures At(ts, i) <= |Flat(ts)|
    ensures FirstValue(Flat(ts) + end, key, At(ts, i)) ==
            var k := FirstKey(ts, key, i); if k < 0 then -1 else Begin(ts, k + 2)
    decreases |ts| - i
  {
    hide Flat, At, Lexed, Found, FieldName, ValueAt, FirstValue, White;
    var line := Flat(ts) + end;
    AtEnds(ts);
    if i == |ts| {
      forall p | |Flat(ts)| <= p <= |line| ensures ValueAt(line, key, p) == -1 {
        EndNoValue(ts, end, key, p);
      }
      SkipRegion(line, key, |Flat(ts)|, |line|);
      JsonlPatch.AtEnd(line, key);
    } else {
      StandsAt(ts, end, i);
      FirstFound(ts, end, key, i + 1);
      OverToken(ts, end, key, i);
    }
  }

  lemma {:induction false} QuotedWidth(ts: seq<Token>, end: string, i: nat)
    requires i < |ts| && ts[i].lex.Quoted?
    ensures Begin(ts, i) + 2 <= At(ts, i + 1) <= |Flat(ts)|
  {
    hide Flat, At, Stands;
    StandsAt(ts, end, i);
  }

  lemma FoundQuoted(ts: seq<Token>, i: nat, key: string)
    ensures Found(ts, i, key) ==> i < |ts| && ts[i].lex.Quoted?
  {
  }

  /** The search over one token: it stops where the field is found, else goes on. */
  lemma {:induction false} OverToken(ts: seq<Token>, end: string, key: string, i: nat)
    requires Lexed(ts) && FieldName(key) && i < |ts|
    ensures At(ts, i) <= At(ts, i + 1) <= |Flat(ts)|
    ensures FirstValue(Flat(ts) + end, key, At(ts, i)) ==
            if Found(ts, i, key) then Begin(ts, i + 2) else FirstValue(Flat(ts) + end, key, At(ts, i + 1))
  {
    hide Flat, At, FieldName, ValueAt, FirstValue, Stands, TokenOk, Found, Followed, Body;
    var line, a, q := Flat(ts) + end, At(ts, i), Begin(ts, i);
    StandsAt(ts, end, i);
    assert Found(ts, i, key) ==> ts[i].lex.Quoted? by { FoundQuoted(ts, i, key); }
    if ts[i].lex.Quoted? {
      assert i > 0;
      QuotedWidth(ts, end, i);
      forall p | a <= p < At(ts, i + 1) && p != q ensures ValueAt(line, key, p) == -1 {
        NoOtherValue(ts, end, i, key, p);
      }
      KeyValue(ts, end, i, key);
      SkipRegion(line, key, a, q);
      FirstHere(line, key, q);
      if !Found(ts, i, key) {
        SkipRegion(line, key, q + 1, At(ts, i + 1));
      }
    } else {
      forall p | a <= p < At(ts, i + 1) ensures ValueAt(line, key, p) == -1 {
        NoOtherValue(ts, end, i, key, p);
      }
      SkipRegion(line, key, a, At(ts, i + 1));
    }
  }

  // ----- the patch as a rewriting of one token

  datatype Rewritten = Rewritten(tokens: seq<Token>, hit: bool, count: nat)

  /** A literal's content passed through the redactor, when that changes it. */
  function Redone(raw: string, codec: Codec, redact: Redactor): string {
    match codec.decode(raw)
    case None => raw
    case Some(v) => if redact(v).0 == v then raw else codec.encode(redact(v).0)
  }

  predicate Changes(raw: string, codec: Codec, redact: Redactor) {
    codec.decode(raw).Some? && redact(codec.decode(raw).value).0 != codec.decode(raw).value
  }

  function Rewrite(ts: seq<Token>, key: string, codec: Codec, redact: Redactor): (r: Rewritten)
    ensures |r.tokens| == |ts|
  {
    var k := FirstKey(ts, key, 0);
    if k < 0 then Rewritten(ts, false, 0)
    else
      var raw := ts[k + 2].lex.raw;
      match codec.decode(raw)
      case None => Rewritten(ts, false, 0)
      case Some(v) =>
        Rewritten(ts[k + 2 := ts[k + 2].(lex := Quoted(Redone(raw, codec, redact)))], Changes(raw, codec, redact),
                  redact(v).1)
  }

  /** Replacing a literal between head and rest. */
  lemma PatchLiteral(head: string, raw: string, rest: string, codec: Codec, redact: Redactor)
    requires StringContent(raw)
    ensures var line := head + ("\"" + raw + "\"") + rest;
            PatchAt(line, |head|, codec, redact) ==
            (match codec.decode(raw)
             case None => Patched(line, false, 0)
             case Some(v) =>
               if redact(v).0 == v then Patched(line, false, redact(v).1)
               else Patched(head + ("\"" + codec.encode(redact(v).0) + "\"") + rest, true, redact(v).1))
  {
    hide StringContent, StringEnd, PatchAt;
    var line := head + ("\"" + raw + "\"") + rest;
    assert line[|head| + 1..] == raw + "\"" + rest;
    ContentEnd(raw, rest);
    PatchSteps(line, |head|, codec, redact);
    var end := |head| + 1 + |raw|;
    assert line[|head| + 1..end] == raw && line[..|head|] == head && line[end + 1..] == rest;
  }

  lemma AroundToken(ts: seq<Token>, end: string, j: nat)
    requires j < |ts|
    ensures Flat(ts) + end == (Flat(ts[..j]) + ts[j].pre) + Body(ts[j].lex) + (Flat(ts[j + 1..]) + end)
    ensures |Flat(ts[..j]) + ts[j].pre| == Begin(ts, j)
  {
    hide Flat, Body;
    FlatSplit(ts, j);
    FlatOne(ts, j);
    var h, p, b, r := Flat(ts[..j]), ts[j].pre, Body(ts[j].lex), Flat(ts[j + 1..]);
    assert TokenText(ts[j]) == p + b;
    assert h + ((p + b) + r) + end == (h + p) + b + (r + end);
  }

  /** On the tokens of any JSON object, however nested, patching the bytes rewrites
      the string behind the first key found, and nothing else. */
  lemma {:induction false} PatchTokens(ts: seq<Token>, end: string, key: string, codec: Codec, redact: Redactor)
    requires Lexed(ts) && White(end) && FieldName(key)
    ensures var r := Rewrite(ts, key, codec, redact);
            Patch(Flat(ts) + end, key, codec, redact) == Patched(Flat(r.tokens) + end, r.hit, r.count)
  {
    hide Flat, FirstValue, PatchAt, FieldName, White, StringContent;
    AtEnds(ts);
    FirstFound(ts, end, key, 0);
    var k := FirstKey(ts, key, 0);
    if k >= 0 {
      var j := k + 2;
      var raw, us := ts[j].lex.raw, Rewrite(ts, key, codec, redact).tokens;
      assert TokenOk(ts[j]);
      AroundToken(ts, end, j);
      PatchLiteral(Flat(ts[..j]) + ts[j].pre, raw, Flat(ts[j + 1..]) + end, codec, redact);
      if codec.decode(raw).Some? {
        AroundToken(us, end, j);
        assert us[..j] == ts[..j] && us[j + 1..] == ts[j + 1..];
      }
    }
  }
}
