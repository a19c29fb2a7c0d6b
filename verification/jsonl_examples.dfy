/** Codecs that read and write as encoding/json does exist; and two lines on which
    the search for a field goes wrong. */
module JsonlExamples {
  import opened Text
  import opened JsonlPatch
  import opened Wrappers
  import opened JsonlTokens
  import opened JsonlTrees
  import opened JsonlLines
  import opened JsonlMeaning

  // ----- a codec

  function HexDigit(n: nat): char
    requires n < 16
  {
    "0123456789abcdef"[n]
  }

  function HexValue(c: char): (n: nat)
    requires IsHex(c)
    ensures n < 16
  {
    if c <= '9' then (c - '0') as nat else if c <= 'F' then (c - 'A') as nat + 10 else (c - 'a') as nat + 10
  }

  /** One character, escaped where section 7 of RFC 8259 asks for it. */
  function EscapeChar(c: char): string {
    if c == '"' || c == '\\' then ['\\', c]
    else if c < ' ' then "\\u00" + [HexDigit(c as nat / 16), HexDigit(c as nat % 16)]
    else [c]
  }

  function Escape(v: string): string {
    if v == "" then "" else EscapeChar(v[0]) + Escape(v[1..])
  }

  /** The bytes of a code point in UTF-8; surrogates are not paired. */
  function Utf8(n: nat): string
    requires n < 0x1_0000
  {
    if n < 0x80 then [n as char]
    else if n < 0x800 then [(0xC0 + n / 64) as char, (0x80 + n % 64) as char]
    else [(0xE0 + n / 4096) as char, (0x80 + n / 64 % 64) as char, (0x80 + n % 64) as char]
  }

  function Simple(c: char): char {
    if c == 'b' then 8 as char else if c == 'f' then 12 as char else if c == 'n' then 10 as char
    else if c == 'r' then 13 as char else if c == 't' then 9 as char else c
  }

  function Unescaped(s: string): string
    requires StringContent(s)
  {
    if s == "" then ""
    else if s[0] == '\\' && s[1] == 'u' then
      Utf8(((HexValue(s[2]) * 16 + HexValue(s[3])) * 16 + HexValue(s[4])) * 16 + HexValue(s[5])) + Unescaped(s[6..])
    else if s[0] == '\\' then [Simple(s[1])] + Unescaped(s[2..])
    else [s[0]] + Unescaped(s[1..])
  }

  function Unescape(s: string): Option<string> {
    if StringContent(s) then Some(Unescaped(s)) else None
  }

  lemma HexBack(n: nat)
    requires n < 16
    ensures IsHex(HexDigit(n)) && HexValue(HexDigit(n)) == n
  {
  }

  lemma {:induction false} EscapeFirst(c: char, rest: string)
    requires StringContent(rest)
    ensures var s := EscapeChar(c) + rest; StringContent(s) && Unescaped(s) == [c] + Unescaped(rest)
  {
    var e := EscapeChar(c);
    var s := e + rest;
    if c == '"' || c == '\\' {
      assert s[2..] == rest;
    } else if c < ' ' {
      HexBack(c as nat / 16);
      HexBack(c as nat % 16);
      HexBack(0);
      assert s[6..] == rest && s[1] == 'u' && s[2] == '0' == s[3];
      assert s[4] == HexDigit(c as nat / 16) && s[5] == HexDigit(c as nat % 16);
    } else {
      assert s[1..] == rest;
    }
  }

  lemma {:induction false} EscapeBack(v: string)
    ensures StringContent(Escape(v)) && Unescaped(Escape(v)) == v
  {
    if v != "" {
      EscapeBack(v[1..]);
      EscapeFirst(v[0], Escape(v[1..]));
    }
  }

  lemma {:induction false} PlainBack(s: string)
    requires PlainText(s)
    ensures StringContent(s) && Unescaped(s) == s
  {
    if s != "" {
      assert PlainText(s[1..]);
      PlainBack(s[1..]);
    }
  }

  /** There is a codec as the main results ask for, whatever the redactor. */
  lemma CodecExists(redact: Redactor)
    ensures var codec := Codec(Unescape, Escape); Faithful(codec) && ReadsBack(codec, redact)
  {
    hide StringContent, Unescaped, Escape, PlainText;
    var codec := Codec(Unescape, Escape);
    forall v ensures StringContent(Escape(v)) && Unescape(Escape(v)) == Some(v) { EscapeBack(v); }
    forall key | PlainText(key) ensures Unescape(key) == Some(key) { PlainBack(key); }
  }

  // ----- two lines

  function Bare(ls: seq<Lexeme>): (ts: seq<Token>)
    ensures |ts| == |ls| && forall i :: 0 <= i < |ls| ==> ts[i] == Token("", ls[i])
  {
    if ls == [] then [] else [Token("", ls[0])] + Bare(ls[1..])
  }

  lemma Letters()
    ensures StringContent("k") && StringContent("x") && StringContent("a") && StringContent("b")
    ensures PlainText("k") && PlainText("x") && PlainText("a") && PlainText("b") && FieldName("k")
  {
    PlainBack("x");
    PlainBack("k");
    PlainBack("a");
    PlainBack("b");
  }

  lemma PlainReads(codec: Codec, s: string)
    requires Faithful(codec) && PlainText(s)
    ensures codec.decode(s) == Some(s)
  {
    hide PlainText, StringContent;
  }

  /** A row of one field. */
  function OneField(value: string): Tree {
    Record(Member("k", Str(value), NoMembers))
  }

  lemma OneSpelled(value: string)
    ensures Spell(OneField(value)) == [Mark('{'), Quoted("k"), Mark(':'), Quoted(value), Mark('}')]
  {
    assert MembersTail(NoMembers) == [] && Spell(Str(value)) + [] == Spell(Str(value));
    assert SpellMembers(Member("k", Str(value), NoMembers)) == [Quoted("k"), Mark(':')] + Spell(Str(value));
  }

  /** The one field, with a carriage return before its key. */
  const AFTER_RETURN := [Token("", Mark('{')), Token("\r", Quoted("k")), Token("", Mark(':')), Token("", Quoted("a")),
                         Token("", Mark('}'))]

  /** A field can be missed: behind a carriage return, which JSON allows there, the
      key is not taken for one, and a value that calls for a change stays. */
  lemma FieldMissed(codec: Codec, redact: Redactor)
    requires Faithful(codec) && redact("a").0 != "a"
    ensures LineOf(Flat(AFTER_RETURN), OneField("a"))
    ensures PatchFields(Flat(AFTER_RETURN), ["k"], codec, redact) == (Flat(AFTER_RETURN), 0)
    ensures Mapped(Read(codec, OneField("a")), ["k"], redact) != Read(codec, OneField("a"))
  {
    var ts := AFTER_RETURN;
    AfterReturnSpells();
    AfterReturnHides();
    Letters();
    hide *;
    Trivial();
    BareLine(ts, OneField("a"));
    assert Flat(ts) + "" == Flat(ts);
    SpellsLexed(ts, OneField("a"));
    PatchFieldsTokens(ts, "", ["k"], codec, redact);
    NoKey(ts, codec, redact);
    OneRead(codec, redact);
  }

  lemma AfterReturnSpells()
    ensures Spells(AFTER_RETURN, OneField("a"))
  {
    Letters();
    OneSpelled("a");
    hide Spell, StringContent;
    var ts := AFTER_RETURN;
    assert Lexemes(ts) == Spell(OneField("a"));
    assert White("") && White("\r");
  }

  lemma AfterReturnHides()
    ensures forall i :: !Found(AFTER_RETURN, i, "k")
  {
    assert '\r' in AFTER_RETURN[1].pre;
  }

  lemma OneRead(codec: Codec, redact: Redactor)
    requires Faithful(codec) && redact("a").0 != "a"
    ensures Mapped(Read(codec, OneField("a")), ["k"], redact) != Read(codec, OneField("a"))
  {
    Letters();
    PlainReads(codec, "a");
    PlainReads(codec, "k");
    assert Read(codec, OneField("a")) == OneField("a");
    assert Mapped(OneField("a"), ["k"], redact) == OneField(redact("a").0);
  }

  lemma NoKey(ts: seq<Token>, codec: Codec, redact: Redactor)
    requires forall i :: !Found(ts, i, "k")
    ensures Final(ts, ["k"], codec, redact) == ts && Total(ts, ["k"], codec, redact) == 0
  {
    hide Found;
    assert FirstKey(ts, "k", 0) == -1;
    assert ["k"][1..] == [];
  }

  /** A row whose first field holds a row with a field of the same name. */
  function InnerFirst(inner: string, outer: string): Tree {
    Record(Member("x", OneField(inner), Member("k", Str(outer), NoMembers)))
  }

  function InnerSpelled(inner: string, outer: string): seq<Lexeme> {
    [Mark('{'), Quoted("x"), Mark(':'), Mark('{'), Quoted("k"), Mark(':'), Quoted(inner), Mark('}'),
     Mark(','), Quoted("k"), Mark(':'), Quoted(outer), Mark('}')]
  }

  lemma InnerSpells(inner: string, outer: string)
    ensures Spell(InnerFirst(inner, outer)) == InnerSpelled(inner, outer)
  {
    OneSpelled(inner);
    var last := Member("k", Str(outer), NoMembers);
    assert MembersTail(NoMembers) == [] && Spell(Str(outer)) + [] == Spell(Str(outer));
    assert SpellMembers(last) == [Quoted("k"), Mark(':')] + Spell(Str(outer));
    assert MembersTail(last) == [Mark(','), Quoted("k"), Mark(':'), Quoted(outer)];
    hide Spell;
    assert SpellMembers(Member("x", OneField(inner), last)) ==
           [Quoted("x"), Mark(':')] + (Spell(OneField(inner)) + MembersTail(last));
    RowSpelled(Member("x", OneField(inner), last));
  }

  lemma RowSpelled(ms: Members)
    ensures Spell(Record(ms)) == [Mark('{')] + (SpellMembers(ms) + [Mark('}')])
  {
  }

  /** On {"x":{"k":"a"},"k":"b"} the search stops at the inner key: the field of the
      row itself keeps its value, and the row read is wrong if that calls for a change. */
  lemma InnerKeyTaken(codec: Codec, redact: Redactor)
    requires Faithful(codec)
    ensures var line := Flat(Bare(InnerSpelled("a", "b")));
            && LineOf(line, InnerFirst("a", "b"))
            && LineOf(PatchFields(line, ["k"], codec, redact).0, InnerFirst(Redone("a", codec, redact), "b"))
    ensures redact("b").0 != "b" ==>
              Read(codec, InnerFirst(Redone("a", codec, redact), "b")) !=
              Mapped(Read(codec, InnerFirst("a", "b")), ["k"], redact)
  {
    hide *;
    var want := Redone("a", codec, redact);
    Letters();
    RedoneValid("a", codec, redact);
    InnerLine("a", "b");
    InnerLine(want, "b");
    InnerPatched(codec, redact);
    InnerWrong(codec, redact, want);
  }

  lemma InnerLine(inner: string, outer: string)
    requires StringContent(inner) && StringContent(outer)
    ensures Spells(Bare(InnerSpelled(inner, outer)), InnerFirst(inner, outer))
    ensures LineOf(Flat(Bare(InnerSpelled(inner, outer))), InnerFirst(inner, outer))
  {
    hide *;
    InnerSpells(inner, outer);
    InnerOk(inner, outer);
    BareSpells(InnerFirst(inner, outer));
    BareLine(Bare(InnerSpelled(inner, outer)), InnerFirst(inner, outer));
  }

  lemma InnerPatched(codec: Codec, redact: Redactor)
    requires Faithful(codec)
    ensures PatchFields(Flat(Bare(InnerSpelled("a", "b"))), ["k"], codec, redact).0 ==
            Flat(Bare(InnerSpelled(Redone("a", codec, redact), "b")))
  {
    hide *;
    Trivial();
    var ts, us := Bare(InnerSpelled("a", "b")), Bare(InnerSpelled(Redone("a", codec, redact), "b"));
    Letters();
    InnerLine("a", "b");
    SpellsLexed(ts, InnerFirst("a", "b"));
    PatchFieldsTokens(ts, "", ["k"], codec, redact);
    InnerFinal(codec, redact);
    assert Flat(ts) + "" == Flat(ts) && Flat(us) + "" == Flat(us);
  }

  lemma BareSpells(t: Tree)
    requires t.Record? && forall i :: 0 <= i < |Spell(t)| ==> LexemeOk(Spell(t)[i])
    ensures Spells(Bare(Spell(t)), t)
  {
    hide LexemeOk, Spell;
    assert Lexemes(Bare(Spell(t))) == Spell(t);
  }

  lemma Trivial()
    ensures White("") && DistinctFields(["k"])
  {
  }

  lemma BareLine(ts: seq<Token>, t: Tree)
    requires Spells(ts, t)
    ensures LineOf(Flat(ts), t)
  {
    hide Spells, Flat;
    assert White("") && Flat(ts) == Flat(ts) + "";
  }

  lemma InnerOk(inner: string, outer: string)
    requires StringContent(inner) && StringContent(outer)
    ensures forall i :: 0 <= i < |InnerSpelled(inner, outer)| ==> LexemeOk(InnerSpelled(inner, outer)[i])
    ensures InnerFirst(inner, outer).Record?
  {
    Letters();
    hide StringContent;
  }

  lemma InnerWrong(codec: Codec, redact: Redactor, inner: string)
    requires Faithful(codec)
    ensures redact("b").0 != "b" ==>
              Read(codec, InnerFirst(inner, "b")) != Mapped(Read(codec, InnerFirst("a", "b")), ["k"], redact)
  {
    Letters();
    PlainReads(codec, "b");
    PlainReads(codec, "k");
    hide StringContent, PlainText;
    InnerRead(codec, inner, "b");
    InnerRead(codec, "a", "b");
    InnerMapped(Decoded(codec, "a"), "b", redact);
  }

  lemma InnerRead(codec: Codec, inner: string, outer: string)
    requires Faithful(codec)
    ensures Read(codec, InnerFirst(inner, outer)) == InnerFirst(Decoded(codec, inner), Decoded(codec, outer))
  {
    Letters();
    PlainReads(codec, "x");
    PlainReads(codec, "k");
    hide StringContent, PlainText;
    var last := Member("k", Str(outer), NoMembers);
    MemberRead(codec, "k", Str(inner), NoMembers);
    MemberRead(codec, "k", Str(outer), NoMembers);
    MemberRead(codec, "x", OneField(inner), last);
  }

  lemma MemberRead(codec: Codec, key: string, value: Tree, rest: Members)
    ensures ReadMembers(codec, Member(key, value, rest)) ==
            Member(Decoded(codec, key), Read(codec, value), ReadMembers(codec, rest))
  {
  }

  lemma InnerMapped(inner: string, outer: string, redact: Redactor)
    ensures Mapped(InnerFirst(inner, outer), ["k"], redact) == InnerFirst(inner, redact(outer).0)
  {
    var last := Member("k", Str(outer), NoMembers);
    assert MapMembers(last, ["k"], redact) == Member("k", Str(redact(outer).0), NoMembers);
  }

  lemma InnerKeys()
    ensures FirstKey(Bare(InnerSpelled("a", "b")), "k", 0) == 4
  {
    hide FirstKey, Bare;
    var ts := Bare(InnerSpelled("a", "b"));
    assert Found(ts, 4, "k");
    assert !Found(ts, 0, "k") && !Found(ts, 1, "k") && !Found(ts, 2, "k") && !Found(ts, 3, "k");
  }

  lemma InnerFinal(codec: Codec, redact: Redactor)
    ensures Final(Bare(InnerSpelled("a", "b")), ["k"], codec, redact) ==
            Bare(InnerSpelled(Redone("a", codec, redact), "b"))
  {
    InnerKeys();
    hide Redone, FirstKey, Bare;
    var ts := Bare(InnerSpelled("a", "b"));
    forall j ensures Taken(ts, ["k"], j) <==> j == 6 {
    }
  }
}
