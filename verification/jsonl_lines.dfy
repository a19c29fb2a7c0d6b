/** A line holds one object: its tokens, the white space at its end, and the tree. */
module JsonlLines {
  import opened Text
  import opened JsonlTokens
  import opened JsonlTrees

  function Lexemes(ts: seq<Token>): (ls: seq<Lexeme>)
    ensures |ls| == |ts|
    ensures forall i :: 0 <= i < |ts| ==> ls[i] == ts[i].lex
  {
    if ts == [] then [] else [ts[0].lex] + Lexemes(ts[1..])
  }

  /** The tokens are valid and spell this object. */
  ghost predicate Spells(ts: seq<Token>, t: Tree) {
    t.Record? && Lexemes(ts) == Spell(t) && forall i :: 0 <= i < |ts| ==> TokenOk(ts[i])
  }

  ghost predicate LineOf(line: string, t: Tree) {
    exists ts: seq<Token>, end: string :: White(end) && Spells(ts, t) && line == Flat(ts) + end
  }

  lemma SpellsLexed(ts: seq<Token>, t: Tree)
    requires Spells(ts, t)
    ensures Lexed(ts)
  {
    hide Spell, TokenOk, SpellMembers;
    var ls, n := Lexemes(ts), |ts|;
    SpellEnds(t);
    assert ts[0].lex == ls[0] && ts[n - 1].lex == ls[n - 1];
    SpellFenced(t, Mark('}'));
    forall i | 0 <= i < n && !ts[i].lex.Mark? ensures Followed(ts, i) {
      assert (Spell(t) + [Mark('}')])[i] == ls[i];
      assert (Spell(t) + [Mark('}')])[i + 1] == ls[i + 1];
    }
  }

  lemma SpellEnds(t: Tree)
    requires t.Record?
    ensures var s := Spell(t); |s| > 1 && s[0] == Mark('{') && s[|s| - 1] == Mark('}')
  {
  }

  // ----- a line reads as one object

  lemma WhiteCut(w: string, r: string, w': string, r': string)
    requires White(w) && White(w') && r != "" && r' != "" && !White(r[..1]) && !White(r'[..1])
    requires w + r == w' + r'
    ensures w == w' && r == r'
  {
    var s := w + r;
    assert s[|w|] == r[..1][0] && (w' + r')[|w'|] == r'[..1][0];
    assert forall i :: 0 <= i < |w| ==> s[i] == w[i];
    assert forall i :: 0 <= i < |w'| ==> s[i] == w'[i];
    assert |w| == |w'|;
    SeqCut(w, r, w', r');
  }

  lemma ContentCut(raw: string, r: string, raw': string, r': string)
    requires StringContent(raw) && StringContent(raw')
    requires raw + "\"" + r == raw' + "\"" + r'
    ensures raw == raw' && r == r'
  {
    hide StringContent;
    ContentEnd(raw, r);
    ContentEnd(raw', r');
    SeqCut(raw + "\"", r, raw' + "\"", r');
    SeqCut(raw, "\"", raw', "\"");
  }

  predicate ScalarByte(c: char) {
    'a' <= c <= 'z' || 'A' <= c <= 'Z' || '0' <= c <= '9' || c == '-' || c == '+' || c == '.'
  }

  lemma ScalarCut(t: string, r: string, t': string, r': string)
    requires ScalarText(t) && ScalarText(t') && r != "" && r' != "" && !ScalarByte(r[0]) && !ScalarByte(r'[0])
    requires t + r == t' + r'
    ensures t == t' && r == r'
  {
    var s := t + r;
    assert s[|t|] == r[0] && (t' + r')[|t'|] == r'[0];
    assert forall i :: 0 <= i < |t| ==> s[i] == t[i];
    assert forall i :: 0 <= i < |t'| ==> s[i] == t'[i];
    assert |t| == |t'|;
    SeqCut(t, r, t', r');
  }

  /** What a lexeme's text begins with. */
  lemma BodyFirst(x: Lexeme, r: string)
    requires LexemeOk(x)
    ensures var s := Body(x) + r; s != "" && !White(s[..1]) && (s[0] == '"' <==> x.Quoted?)
    ensures var s := Body(x) + r; ScalarByte(s[0]) <==> x.Scalar?
    ensures x.Mark? ==> (Body(x) + r)[0] == x.c && (Body(x) + r)[1..] == r
    ensures x.Quoted? ==> (Body(x) + r)[1..] == x.raw + "\"" + r
  {
    hide StringContent;
    var s := Body(x) + r;
    assert s[0] == Body(x)[0] && s[..1][0] == s[0];
    if x.Quoted? {
      assert s == "\"" + (x.raw + "\"" + r);
    }
  }

  /** What may follow a literal cannot go on with it. */
  predicate Open(x: Lexeme, r: string) {
    x.Scalar? ==> r != "" && !ScalarByte(r[0])
  }

  lemma BodyCut(x: Lexeme, r: string, x': Lexeme, r': string)
    requires LexemeOk(x) && LexemeOk(x') && Open(x, r) && Open(x', r')
    requires Body(x) + r == Body(x') + r'
    ensures x == x' && r == r'
  {
    hide StringContent, ScalarText, Body;
    BodyFirst(x, r);
    BodyFirst(x', r');
    if x.Quoted? {
      ContentCut(x.raw, r, x'.raw, r');
    } else if x.Scalar? {
      ScalarBody(x);
      ScalarBody(x');
      ScalarCut(x.text, r, x'.text, r');
    }
  }

  lemma ScalarBody(x: Lexeme)
    requires x.Scalar?
    ensures Body(x) == x.text
  {
  }

  lemma TokenCut(x: Token, r: string, x': Token, r': string)
    requires TokenOk(x) && TokenOk(x') && Open(x.lex, r) && Open(x'.lex, r')
    requires TokenText(x) + r == TokenText(x') + r'
    ensures x == x' && r == r'
  {
    hide White, LexemeOk, Body, Open;
    BodyFirst(x.lex, r);
    BodyFirst(x'.lex, r');
    Assoc(x.pre, Body(x.lex), r);
    Assoc(x'.pre, Body(x'.lex), r');
    WhiteCut(x.pre, Body(x.lex) + r, x'.pre, Body(x'.lex) + r');
    BodyCut(x.lex, r, x'.lex, r');
  }

  lemma TokensOpen(ts: seq<Token>, end: string, i: nat)
    requires Lexed(ts) && i < |ts|
    ensures Flat(ts[i..]) + end == TokenText(ts[i]) + (Flat(ts[i + 1..]) + end)
    ensures Open(ts[i].lex, Flat(ts[i + 1..]) + end)
  {
    hide Flat, TokenText, White;
    FlatOne(ts, i);
    if ts[i].lex.Scalar? {
      assert Followed(ts, i) && TokenOk(ts[i + 1]);
      FlatOne(ts, i + 1);
      TokenFirst(ts[i + 1], Flat(ts[i + 2..]) + end);
    }
  }

  lemma TokenFirst(t: Token, r: string)
    requires TokenOk(t) && t.lex.Mark?
    ensures TokenText(t) + r != "" && !ScalarByte((TokenText(t) + r)[0])
  {
    assert TokenText(t) + r == t.pre + ([t.lex.c] + r);
    if t.pre != "" {
      assert (TokenText(t) + r)[0] == t.pre[0];
    }
  }

  lemma NotWhite(t: Token, r: string, end: string)
    requires TokenOk(t) && White(end)
    ensures TokenText(t) + r != end
  {
    hide LexemeOk, Body;
    BodyFirst(t.lex, r);
    var s, n := TokenText(t) + r, |t.pre|;
    assert s == t.pre + (Body(t.lex) + r);
    var b := Body(t.lex) + r;
    assert b[..1][0] == b[0] == s[n];
  }

  /** The tokens and the end of a line are read off its bytes. */
  lemma {:induction false} TokensOnce(ts: seq<Token>, end: string, ts': seq<Token>, end': string, i: nat)
    requires Lexed(ts) && Lexed(ts') && White(end) && White(end') && i <= |ts| && i <= |ts'|
    requires Flat(ts[i..]) + end == Flat(ts'[i..]) + end'
    ensures ts[i..] == ts'[i..] && end == end'
    decreases |ts| - i
  {
    hide Flat, TokenText, TokenOk, Open, White, Followed, MarkIn;
    if i < |ts| { TokensOpen(ts, end, i); }
    if i < |ts'| { TokensOpen(ts', end', i); }
    if i == |ts| && i == |ts'| {
      assert ts[i..] == [] && ts'[i..] == [];
      FlatNil(end);
      FlatNil(end');
    } else if i == |ts| {
      FlatNil(end);
      NotWhite(ts'[i], Flat(ts'[i + 1..]) + end', end);
    } else if i == |ts'| {
      FlatNil(end');
      NotWhite(ts[i], Flat(ts[i + 1..]) + end, end');
    } else {
      TokenCut(ts[i], Flat(ts[i + 1..]) + end, ts'[i], Flat(ts'[i + 1..]) + end');
      TokensOnce(ts, end, ts', end', i + 1);
      assert ts[i..] == [ts[i]] + ts[i + 1..] && ts'[i..] == [ts'[i]] + ts'[i + 1..];
    }
  }

  lemma FlatNil(end: string)
    ensures Flat([]) + end == end
  {
  }

  /** Reading a line is unambiguous: no two objects are written alike. */
  lemma ReadsOnce(line: string, t: Tree, t': Tree)
    requires LineOf(line, t) && LineOf(line, t')
    ensures t == t'
  {
    hide Flat, Spell, White, TokenOk;
    var ts: seq<Token>, end: string :| White(end) && Spells(ts, t) && line == Flat(ts) + end;
    var ts': seq<Token>, end': string :| White(end') && Spells(ts', t') && line == Flat(ts') + end';
    SpellsLexed(ts, t);
    SpellsLexed(ts', t');
    assert ts[0..] == ts && ts'[0..] == ts';
    TokensOnce(ts, end, ts', end', 0);
    SpellOnce(t, t');
  }
}
