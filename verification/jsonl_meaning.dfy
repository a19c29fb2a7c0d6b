/** What patching JSON lines means for the rows they carry. */
module JsonlMeaning {
  import opened Text
  import opened JsonlPatch
  import opened Wrappers
  import opened JsonlTokens
  import opened JsonlTrees
  import opened JsonlLines

  /** The string functions of encoding/json: every string is written as valid
      content, valid content can be read, and text that needs no escape reads as
      itself. */
  ghost predicate Faithful(codec: Codec) {
    && (forall v {:trigger codec.encode(v)} :: StringContent(codec.encode(v)))
    && (forall raw {:trigger codec.decode(raw)} :: StringContent(raw) ==> codec.decode(raw).Some?)
    && (forall key {:trigger codec.decode(key)} :: PlainText(key) ==> codec.decode(key) == Some(key))
  }

  /** What the redactor makes of a string that was read reads back once written. */
  ghost predicate ReadsBack(codec: Codec, redact: Redactor) {
    forall raw {:trigger redact(codec.decode(raw).value)} :: StringContent(raw) && codec.decode(raw).Some? ==>
      var v := redact(codec.decode(raw).value).0;
      codec.decode(codec.encode(v)) == Some(v)
  }

  /** ASCII without quote, backslash and control characters. */
  predicate PlainText(s: string) {
    forall i :: 0 <= i < |s| ==> s[i] != '"' && s[i] != '\\' && ' ' <= s[i] <= '~'
  }

  function Decoded(codec: Codec, raw: string): string {
    match codec.decode(raw)
    case None => ""
    case Some(v) => v
  }

  /** The value a tree carries: its strings decoded. */
  function Read(codec: Codec, t: Tree): (v: Tree)
    decreases t
  {
    match t
    case Str(raw) => Str(Decoded(codec, raw))
    case Number(text) => Number(text)
    case Array(items) => Array(ReadItems(codec, items))
    case Record(members) => Record(ReadMembers(codec, members))
  }

  function ReadItems(codec: Codec, items: Items): Items
    decreases items
  {
    match items
    case NoItems => NoItems
    case Item(head, tail) => Item(Read(codec, head), ReadItems(codec, tail))
  }

  function ReadMembers(codec: Codec, ms: Members): Members
    decreases ms
  {
    match ms
    case NoMembers => NoMembers
    case Member(key, value, rest) => Member(Decoded(codec, key), Read(codec, value), ReadMembers(codec, rest))
  }

  /** The row with the named string fields passed through the redactor; nested
      values are not fields of the row. */
  function MapMembers(ms: Members, fields: seq<string>, redact: Redactor): Members
    decreases ms
  {
    match ms
    case NoMembers => NoMembers
    case Member(key, value, rest) =>
      Member(key, if key in fields && value.Str? then Str(redact(value.raw).0) else value,
             MapMembers(rest, fields, redact))
  }

  function Mapped(row: Tree, fields: seq<string>, redact: Redactor): Tree {
    if row.Record? then Record(MapMembers(row.members, fields, redact)) else row
  }

  // ----- all fields, one after the other

  predicate DistinctFields(fields: seq<string>) {
    forall i, j :: 0 <= i < j < |fields| ==> fields[i] != fields[j]
  }

  /** Token j is the string behind the first key found of a field. */
  predicate Taken(ts: seq<Token>, fields: seq<string>, j: int) {
    && 2 <= j < |ts| && ts[j - 2].lex.Quoted? && ts[j - 2].lex.raw in fields
    && FirstKey(ts, ts[j - 2].lex.raw, 0) == j - 2
  }

  function Final(ts: seq<Token>, fields: seq<string>, codec: Codec, redact: Redactor): (us: seq<Token>)
    ensures |us| == |ts|
    ensures forall j :: 0 <= j < |ts| ==>
              us[j] == if Taken(ts, fields, j) then ts[j].(lex := Quoted(Redone(ts[j].lex.raw, codec, redact)))
                       else ts[j]
  {
    seq(|ts|, j requires 0 <= j < |ts| =>
      if Taken(ts, fields, j) then ts[j].(lex := Quoted(Redone(ts[j].lex.raw, codec, redact))) else ts[j])
  }

  function Total(ts: seq<Token>, fields: seq<string>, codec: Codec, redact: Redactor): nat {
    if fields == [] then 0 else Rewrite(ts, fields[0], codec, redact).count + Total(ts, fields[1..], codec, redact)
  }

  lemma RedoneValid(raw: string, codec: Codec, redact: Redactor)
    requires Faithful(codec) && StringContent(raw)
    ensures StringContent(Redone(raw, codec, redact))
  {
    hide StringContent;
  }

  /** Rewriting the string behind a key changes no key. */
  lemma RewriteKeys(ts: seq<Token>, key: string, codec: Codec, redact: Redactor, i: int, other: string)
    ensures Found(Rewrite(ts, key, codec, redact).tokens, i, other) == Found(ts, i, other)
  {
    hide FirstKey;
    var k := FirstKey(ts, key, 0);
    if k >= 0 {
      FirstFacts(ts, key);
    }
  }

  lemma FirstFacts(ts: seq<Token>, key: string)
    ensures var k := FirstKey(ts, key, 0);
            k >= 0 ==> Found(ts, k, key) && 0 < k && k + 2 < |ts| && ts[k + 2].lex.Quoted? && ts[k].lex == Quoted(key)
                       && ts[k + 1].lex == Mark(':')
  {
  }

  lemma SameFirst(ts: seq<Token>, us: seq<Token>, key: string)
    requires |ts| == |us| && forall i :: Found(ts, i, key) == Found(us, i, key)
    ensures FirstKey(ts, key, 0) == FirstKey(us, key, 0)
  {
    hide Found;
    var a, b := FirstKey(ts, key, 0), FirstKey(us, key, 0);
    if a >= 0 { assert Found(us, a, key); }
    if b >= 0 { assert Found(ts, b, key); }
  }

  lemma {:induction false} RewriteLexed(ts: seq<Token>, key: string, codec: Codec, redact: Redactor)
    requires Lexed(ts) && Faithful(codec)
    ensures Lexed(Rewrite(ts, key, codec, redact).tokens)
  {
    hide StringContent, FirstKey, White, Faithful, Redone;
    var us, k := Rewrite(ts, key, codec, redact).tokens, FirstKey(ts, key, 0);
    FirstFacts(ts, key);
    if k >= 0 {
      assert TokenOk(ts[k + 2]);
      RedoneValid(ts[k + 2].lex.raw, codec, redact);
      forall i | 0 <= i < |us| ensures TokenOk(us[i]) && (!us[i].lex.Mark? ==> Followed(us, i)) {
        assert TokenOk(ts[i]) && (!ts[i].lex.Mark? ==> Followed(ts, i));
      }
    }
  }

  /** The other fields take the same tokens before and after. */
  lemma {:induction false} TakenStep(ts: seq<Token>, fields: seq<string>, codec: Codec, redact: Redactor, j: nat)
    requires fields != [] && DistinctFields(fields) && j < |ts|
    ensures var us := Rewrite(ts, fields[0], codec, redact).tokens;
            && (Taken(ts, fields, j) <==> Taken(us, fields[1..], j) || (j >= 2 && FirstKey(ts, fields[0], 0) == j - 2))
            && !(Taken(us, fields[1..], j) && j >= 2 && FirstKey(ts, fields[0], 0) == j - 2)
  {
    hide FirstKey, Found, Redone;
    var us, f := Rewrite(ts, fields[0], codec, redact).tokens, fields[0];
    assert fields == [f] + fields[1..];
    assert f !in fields[1..] by {
      forall i | 0 <= i < |fields[1..]| ensures fields[1..][i] != f { assert fields[1..][i] == fields[i + 1]; }
    }
    FirstFacts(ts, f);
    if j >= 2 && ts[j - 2].lex.Quoted? && us[j - 2].lex.Quoted? {
      forall key, i ensures Found(us, i, key) == Found(ts, i, key) {
        RewriteKeys(ts, f, codec, redact, i, key);
      }
      SameFirst(ts, us, ts[j - 2].lex.raw);
      SameFirst(ts, us, us[j - 2].lex.raw);
      FirstFacts(ts, ts[j - 2].lex.raw);
      FirstFacts(us, us[j - 2].lex.raw);
      KeyBefore(ts, ts[j - 2].lex.raw, f);
      KeyBefore(ts, us[j - 2].lex.raw, f);
    }
  }

  /** A key found is no string that was rewritten. */
  lemma KeyBefore(ts: seq<Token>, key: string, f: string)
    ensures FirstKey(ts, key, 0) >= 0 && FirstKey(ts, f, 0) >= 0 ==> FirstKey(ts, key, 0) != FirstKey(ts, f, 0) + 2
  {
    FirstFacts(ts, f);
  }

  lemma {:induction false} FinalStep(ts: seq<Token>, fields: seq<string>, codec: Codec, redact: Redactor)
    requires fields != [] && DistinctFields(fields)
    ensures var us := Rewrite(ts, fields[0], codec, redact).tokens;
            Final(us, fields[1..], codec, redact) == Final(ts, fields, codec, redact)
  {
    hide FirstKey, Taken, DistinctFields;
    var us := Rewrite(ts, fields[0], codec, redact).tokens;
    var a, b := Final(us, fields[1..], codec, redact), Final(ts, fields, codec, redact);
    FirstFacts(ts, fields[0]);
    forall j | 0 <= j < |ts| ensures a[j] == b[j] {
      TakenStep(ts, fields, codec, redact, j);
    }
  }

  lemma TotalStep(ts: seq<Token>, us: seq<Token>, fields: seq<string>, codec: Codec, redact: Redactor)
    requires |ts| == |us| && forall key, i :: Found(ts, i, key) == Found(us, i, key)
    requires forall f :: f in fields ==> var k := FirstKey(ts, f, 0); k >= 0 ==> k + 2 < |ts| && us[k + 2] == ts[k + 2]
    ensures Total(us, fields, codec, redact) == Total(ts, fields, codec, redact)
  {
    hide Found, FirstKey, Redone;
    if fields != [] {
      SameFirst(ts, us, fields[0]);
      assert fields[0] in fields && forall f :: f in fields[1..] ==> f in fields;
      FirstFacts(ts, fields[0]);
      TotalStep(ts, us, fields[1..], codec, redact);
    }
  }

  /** On the tokens of any JSON object: every field's first string is redacted and
      no other byte changes, whatever the order of the fields. */
  lemma {:induction false} PatchFieldsTokens(ts: seq<Token>, end: string, fields: seq<string>, codec: Codec,
                                            redact: Redactor)
    requires Lexed(ts) && White(end) && Faithful(codec) && DistinctFields(fields)
    requires forall f :: f in fields ==> FieldName(f)
    ensures PatchFields(Flat(ts) + end, fields, codec, redact) ==
            (Flat(Final(ts, fields, codec, redact)) + end, Total(ts, fields, codec, redact))
    decreases |fields|
  {
    hide Flat, Lexed, FieldName, Patch, Faithful, White, Final, Rewrite, Found, FirstKey;
    if fields == [] {
      FinalNil(ts, codec, redact);
    } else {
      var us := Rewrite(ts, fields[0], codec, redact).tokens;
      assert fields[0] in fields && forall f :: f in fields[1..] ==> f in fields;
      assert DistinctFields(fields[1..]) by {
        var rest := fields[1..];
        forall i, j | 0 <= i < j < |rest| ensures rest[i] != rest[j] { assert rest[i] == fields[i + 1]; }
      }
      PatchTokens(ts, end, fields[0], codec, redact);
      RewriteLexed(ts, fields[0], codec, redact);
      PatchFieldsTokens(us, end, fields[1..], codec, redact);
      FinalStep(ts, fields, codec, redact);
      TotalTail(ts, fields, codec, redact);
    }
  }

  lemma FinalNil(ts: seq<Token>, codec: Codec, redact: Redactor)
    ensures Final(ts, [], codec, redact) == ts
  {
  }

  lemma {:induction false} TotalTail(ts: seq<Token>, fields: seq<string>, codec: Codec, redact: Redactor)
    requires fields != [] && DistinctFields(fields)
    ensures var us := Rewrite(ts, fields[0], codec, redact).tokens;
            Total(us, fields[1..], codec, redact) == Total(ts, fields[1..], codec, redact)
  {
    hide Found, FirstKey, Redone;
    var us, f := Rewrite(ts, fields[0], codec, redact).tokens, fields[0];
    forall key, i ensures Found(ts, i, key) == Found(us, i, key) {
      RewriteKeys(ts, f, codec, redact, i, key);
    }
    FirstFacts(ts, f);
    forall g | g in fields[1..]
      ensures var k := FirstKey(ts, g, 0); k >= 0 ==> k + 2 < |ts| && us[k + 2] == ts[k + 2]
    {
      assert g != f by {
        var i :| 0 <= i < |fields[1..]| && fields[1..][i] == g;
        assert g == fields[i + 1];
      }
      FirstFacts(ts, g);
    }
    TotalStep(ts, us, fields[1..], codec, redact);
  }

  // ----- the spelling of what was read

  function DecodedLexeme(codec: Codec, x: Lexeme): Lexeme {
    if x.Quoted? then Quoted(Decoded(codec, x.raw)) else x
  }

  function DecodedAll(codec: Codec, ls: seq<Lexeme>): (r: seq<Lexeme>)
    ensures |r| == |ls|
    ensures forall i :: 0 <= i < |ls| ==> r[i] == DecodedLexeme(codec, ls[i])
  {
    if ls == [] then [] else [DecodedLexeme(codec, ls[0])] + DecodedAll(codec, ls[1..])
  }

  lemma DecodedJoin(codec: Codec, a: seq<Lexeme>, b: seq<Lexeme>)
    ensures DecodedAll(codec, a + b) == DecodedAll(codec, a) + DecodedAll(codec, b)
  {
    hide DecodedLexeme;
  }

  lemma DecodedWrap(codec: Codec, o: char, ls: seq<Lexeme>, c: char)
    ensures DecodedAll(codec, [Mark(o)] + (ls + [Mark(c)])) == [Mark(o)] + (DecodedAll(codec, ls) + [Mark(c)])
  {
  }

  lemma {:induction false} ReadSpell(codec: Codec, t: Tree)
    ensures Spell(Read(codec, t)) == DecodedAll(codec, Spell(t))
    decreases t
  {
    hide DecodedAll;
    match t
    case Str(raw) => assert DecodedAll(codec, [Quoted(raw)]) == [Quoted(Decoded(codec, raw))];
    case Number(text) => assert DecodedAll(codec, [Scalar(text)]) == [Scalar(text)];
    case Array(items) =>
      ReadItemsSpell(codec, items);
      DecodedWrap(codec, '[', SpellItems(items), ']');
    case Record(members) =>
      ReadMembersSpell(codec, members);
      DecodedWrap(codec, '{', SpellMembers(members), '}');
  }

  lemma DecodedMarks(codec: Codec)
    ensures DecodedAll(codec, []) == [] && DecodedAll(codec, [Mark(',')]) == [Mark(',')]
    ensures forall key :: DecodedAll(codec, [Quoted(key), Mark(':')]) == [Quoted(Decoded(codec, key)), Mark(':')]
  {
  }

  lemma {:induction false} ReadItemsSpell(codec: Codec, items: Items)
    ensures SpellItems(ReadItems(codec, items)) == DecodedAll(codec, SpellItems(items))
    decreases items
  {
    hide DecodedAll, Spell;
    DecodedMarks(codec);
    match items
    case NoItems =>
    case Item(head, tail) =>
      ReadSpell(codec, head);
      ReadItemsSpell(codec, tail);
      DecodedJoin(codec, [Mark(',')], SpellItems(tail));
      DecodedJoin(codec, Spell(head), if tail.NoItems? then [] else [Mark(',')] + SpellItems(tail));
  }

  lemma {:induction false} ReadMembersSpell(codec: Codec, ms: Members)
    ensures SpellMembers(ReadMembers(codec, ms)) == DecodedAll(codec, SpellMembers(ms))
    ensures MembersTail(ReadMembers(codec, ms)) == DecodedAll(codec, MembersTail(ms))
    decreases ms
  {
    hide DecodedAll, Spell;
    DecodedMarks(codec);
    match ms
    case NoMembers =>
    case Member(key, value, rest) =>
      ReadSpell(codec, value);
      ReadMembersSpell(codec, rest);
      DecodedJoin(codec, Spell(value), MembersTail(rest));
      DecodedJoin(codec, [Quoted(key), Mark(':')], Spell(value) + MembersTail(rest));
      DecodedJoin(codec, [Mark(',')], SpellMembers(ms));
  }

  // ----- the spelling of a mapped row

  /** The lexeme at j is a string behind a key and a colon, with d brackets open. */
  predicate ValueAtDepth(ls: seq<Lexeme>, d: int, j: int) {
    2 <= j < |ls| && ls[j - 2].Quoted? && ls[j - 1] == Mark(':') && ls[j].Quoted? && Depth(ls[..j - 2]) == d
  }

  ghost predicate Redacted(ls: seq<Lexeme>, out: seq<Lexeme>, d: int, fields: seq<string>, redact: Redactor) {
    && |out| == |ls|
    && forall j :: 0 <= j < |ls| ==> out[j] == RedactedLexeme(ls, d, j, fields, redact)
  }

  function RedactedLexeme(ls: seq<Lexeme>, d: int, j: nat, fields: seq<string>, redact: Redactor): Lexeme
    requires j < |ls|
  {
    if ValueAtDepth(ls, d, j) && ls[j - 2].raw in fields then Quoted(redact(ls[j].raw).0) else ls[j]
  }

  /** No key, colon and value lie across the border of a and b. */
  predicate Border(a: seq<Lexeme>, b: seq<Lexeme>) {
    || (a != [] && a[|a| - 1].Mark? && a[|a| - 1] != Mark(':'))
    || (b != [] && b[0].Mark? && b[0] != Mark(':'))
  }

  lemma {:induction false} RedactedLeft(a: seq<Lexeme>, b: seq<Lexeme>, d: int, fields: seq<string>, redact: Redactor,
                                        j: nat)
    requires j < |a|
    ensures RedactedLexeme(a + b, d, j, fields, redact) == RedactedLexeme(a, d, j, fields, redact)
  {
    hide Depth;
    if j >= 2 { assert (a + b)[..j - 2] == a[..j - 2]; }
  }

  lemma {:induction false} ValueRight(a: seq<Lexeme>, b: seq<Lexeme>, d: int, j: nat)
    requires j < |b| && Border(a, b)
    ensures ValueAtDepth(a + b, d + Depth(a), |a| + j) <==> ValueAtDepth(b, d, j)
  {
    hide Depth;
    var s, n := a + b, |a|;
    assert s[n + j] == b[j];
    if j >= 2 {
      assert s[n + j - 2] == b[j - 2] && s[n + j - 1] == b[j - 1];
      assert s[..n + j - 2] == a + b[..j - 2];
      DepthJoin(a, b[..j - 2]);
    } else if j == 1 {
      assert s[n] == b[0];
      if n > 0 { assert s[n - 1] == a[n - 1]; }
    } else if n > 0 {
      assert s[n - 1] == a[n - 1];
    }
  }

  lemma {:induction false} RedactedRight(a: seq<Lexeme>, b: seq<Lexeme>, d: int, fields: seq<string>, redact: Redactor,
                                         j: nat)
    requires j < |b| && Border(a, b)
    ensures RedactedLexeme(a + b, d + Depth(a), |a| + j, fields, redact) == RedactedLexeme(b, d, j, fields, redact)
  {
    ValueRight(a, b, d, j);
    hide Depth, Border;
    var s, n := a + b, |a|;
    assert s[n + j] == b[j];
    if ValueAtDepth(b, d, j) {
      assert s[n + j - 2] == b[j - 2];
    }
  }

  lemma {:induction false} RedactedJoin(a: seq<Lexeme>, a': seq<Lexeme>, b: seq<Lexeme>, b': seq<Lexeme>, d: int,
                                        fields: seq<string>, redact: Redactor)
    requires Redacted(a, a', d + Depth(a), fields, redact) && Redacted(b, b', d, fields, redact) && Border(a, b)
    ensures Redacted(a + b, a' + b', d + Depth(a), fields, redact)
  {
    hide Depth, RedactedLexeme, Border;
    var s, n, e := a + b, |a|, d + Depth(a);
    forall j | 0 <= j < |s| ensures (a' + b')[j] == RedactedLexeme(s, e, j, fields, redact) {
      if j < n {
        RedactedLeft(a, b, e, fields, redact, j);
      } else {
        RedactedRight(a, b, d, fields, redact, j - n);
      }
    }
  }

  lemma RedactedMark(c: char, d: int, fields: seq<string>, redact: Redactor)
    ensures Redacted([Mark(c)], [Mark(c)], d, fields, redact)
  {
  }

  /** One member: its value is redacted if it is a string, a nested one is kept. */
  lemma {:induction false} RedactedMember(key: string, value: Tree, fields: seq<string>, redact: Redactor)
    ensures var v := if key in fields && value.Str? then Str(redact(value.raw).0) else value;
            Redacted([Quoted(key), Mark(':')] + Spell(value), [Quoted(key), Mark(':')] + Spell(v), 0, fields, redact)
  {
    hide Depth;
    var k, v := [Quoted(key), Mark(':')], Spell(value);
    SpellEven(value);
    KeyFlat(key);
    forall j | 2 < j < |k + v| ensures !ValueAtDepth(k + v, 0, j) {
      if j >= 4 {
        assert (k + v)[..j - 2] == k + v[..j - 4];
        DepthJoin(k, v[..j - 4]);
        NestedFirst(value);
      }
    }
    assert (k + v)[..0] == [];
    NestedFirst(value);
  }

  lemma KeyFlat(key: string)
    ensures Depth([Quoted(key), Mark(':')]) == 0 && Depth([]) == 0
  {
    DepthJoin([Quoted(key)], [Mark(':')]);
    assert [Quoted(key)] + [Mark(':')] == [Quoted(key), Mark(':')];
    DepthOne(Quoted(key));
    DepthOne(Mark(':'));
  }

  lemma NestedFirst(t: Tree)
    ensures |Spell(t)| > 1 ==> Spell(t)[0].Mark?
    ensures Spell(t)[0].Quoted? <==> t.Str?
    ensures t.Str? ==> Spell(t) == [Quoted(t.raw)]
  {
  }

  lemma {:induction false} MembersRedacted(ms: Members, fields: seq<string>, redact: Redactor)
    ensures Redacted(SpellMembers(ms), SpellMembers(MapMembers(ms, fields, redact)), 0, fields, redact)
    ensures Redacted(MembersTail(ms), MembersTail(MapMembers(ms, fields, redact)), 0, fields, redact)
    decreases ms
  {
    hide Spell, Redacted, Depth;
    RedactedNil(fields, redact);
    if ms.Member? {
      var out := MapMembers(ms, fields, redact);
      var k, v, v' := [Quoted(ms.key), Mark(':')], Spell(ms.value), Spell(out.value);
      RedactedMember(ms.key, ms.value, fields, redact);
      MembersRedacted(ms.rest, fields, redact);
      SpellEven(ms.value);
      KeyFlat(ms.key);
      DepthJoin(k, v);
      var w, w' := MembersTail(ms.rest), MembersTail(out.rest);
      if ms.rest.Member? {
        RedactedJoin(k + v, k + v', w, w', 0, fields, redact);
      }
      assert k + (v + w) == (k + v) + w && k + (v' + w') == (k + v') + w';
      assert w == [] && w' == [] ==> (k + v) + w == k + v && (k + v') + w' == k + v';
      DepthOne(Mark(','));
      RedactedMark(',', 0, fields, redact);
      RedactedJoin([Mark(',')], [Mark(',')], SpellMembers(ms), SpellMembers(out), 0, fields, redact);
    }
  }

  lemma RedactedNil(fields: seq<string>, redact: Redactor)
    ensures Redacted([], [], 0, fields, redact)
  {
  }

  /** Mapping a row redacts, in its spelling, the strings of the named fields at
      depth one. */
  lemma {:induction false} MappedSpell(row: Tree, fields: seq<string>, redact: Redactor)
    requires row.Record?
    ensures Redacted(Spell(row), Spell(Mapped(row, fields, redact)), 1, fields, redact)
  {
    hide Redacted, Depth, SpellMembers;
    var ms := row.members;
    var b, b' := SpellMembers(ms), SpellMembers(MapMembers(ms, fields, redact));
    MembersRedacted(ms, fields, redact);
    MembersEven(ms);
    RedactedMark('}', 0, fields, redact);
    RedactedJoin(b, b', [Mark('}')], [Mark('}')], 0, fields, redact);
    RedactedMark('{', 1, fields, redact);
    DepthOne(Mark('{'));
    RedactedJoin([Mark('{')], [Mark('{')], b + [Mark('}')], b' + [Mark('}')], 0, fields, redact);
  }

  // ----- a line with other strings in it

  predicate Alike(x: Lexeme, y: Lexeme) {
    x == y || (x.Quoted? && y.Quoted?)
  }

  ghost predicate AllAlike(ls: seq<Lexeme>, out: seq<Lexeme>) {
    |ls| == |out| && forall i :: 0 <= i < |ls| ==> Alike(ls[i], out[i])
  }

  lemma {:induction false} AlikeSplit(a: seq<Lexeme>, b: seq<Lexeme>, out: seq<Lexeme>)
    requires AllAlike(a + b, out)
    ensures |out| == |a| + |b|
    ensures out == out[..|a|] + out[|a|..] && AllAlike(a, out[..|a|]) && AllAlike(b, out[|a|..])
  {
    hide Alike;
    forall i | 0 <= i < |a| ensures Alike(a[i], out[..|a|][i]) { assert (a + b)[i] == a[i]; }
    forall i | 0 <= i < |b| ensures Alike(b[i], out[|a|..][i]) { assert (a + b)[|a| + i] == b[i]; }
  }

  lemma AlikeWrap(o: char, b: seq<Lexeme>, c: char, out: seq<Lexeme>) returns (mid: seq<Lexeme>)
    requires AllAlike([Mark(o)] + (b + [Mark(c)]), out)
    ensures AllAlike(b, mid) && out == [Mark(o)] + (mid + [Mark(c)])
  {
    AlikeSplit([Mark(o)], b + [Mark(c)], out);
    var rest := out[1..];
    assert AllAlike(b + [Mark(c)], rest);
    AlikeSplit(b, [Mark(c)], rest);
    mid := rest[..|b|];
    assert rest[|b|..] == [Mark(c)] && out[..1] == [Mark(o)];
  }

  /** Other strings in the same places spell a tree of the same kind. */
  lemma {:induction false} Refill(t: Tree, out: seq<Lexeme>) returns (u: Tree)
    requires AllAlike(Spell(t), out)
    ensures Spell(u) == out && (u.Record? <==> t.Record?)
    decreases t
  {
    hide AllAlike;
    match t
    case Str(_) =>
      SpellAlikeOne(t, out);
      u := Str(out[0].raw);
    case Number(_) =>
      SpellAlikeOne(t, out);
      u := t;
    case Array(items) =>
      var mid := AlikeWrap('[', SpellItems(items), ']', out);
      var us := RefillItems(items, mid);
      u := Array(us);
    case Record(members) =>
      var mid := AlikeWrap('{', SpellMembers(members), '}', out);
      var us := RefillMembers(members, mid);
      u := Record(us);
  }

  lemma SpellAlikeOne(t: Tree, out: seq<Lexeme>)
    requires AllAlike(Spell(t), out) && (t.Str? || t.Number?)
    ensures out == [out[0]] && (t.Str? ==> out[0].Quoted?) && (t.Number? ==> out[0] == Scalar(t.text))
  {
  }

  lemma {:induction false} RefillItems(items: Items, out: seq<Lexeme>) returns (us: Items)
    requires AllAlike(SpellItems(items), out)
    ensures SpellItems(us) == out && (us.NoItems? <==> items.NoItems?)
    decreases items
  {
    hide AllAlike, Spell;
    match items
    case NoItems =>
      AlikeNil(out);
      us := NoItems;
    case Item(head, tail) =>
      var h := Spell(head);
      var w := if tail.NoItems? then [] else [Mark(',')] + SpellItems(tail);
      AlikeSplit(h, w, out);
      var u := Refill(head, out[..|h|]);
      if tail.NoItems? {
        us := Item(u, NoItems);
        AlikeNil(out[|h|..]);
      } else {
        var rest := AlikeComma(SpellItems(tail), out[|h|..]);
        var vs := RefillItems(tail, rest);
        us := Item(u, vs);
      }
  }

  lemma AlikeNil(out: seq<Lexeme>)
    requires AllAlike([], out)
    ensures out == []
  {
  }

  lemma AlikeComma(ls: seq<Lexeme>, out: seq<Lexeme>) returns (rest: seq<Lexeme>)
    requires AllAlike([Mark(',')] + ls, out)
    ensures out == [Mark(',')] + rest && AllAlike(ls, rest)
  {
    assert |out| == |[Mark(',')] + ls|;
    AlikeSplit([Mark(',')], ls, out);
    rest := out[1..];
    assert out[..1] == [Mark(',')];
  }

  lemma AlikeKey(key: string, ls: seq<Lexeme>, out: seq<Lexeme>) returns (k: string, rest: seq<Lexeme>)
    requires AllAlike([Quoted(key), Mark(':')] + ls, out)
    ensures out == [Quoted(k), Mark(':')] + rest && AllAlike(ls, rest)
  {
    AlikeSplit([Quoted(key), Mark(':')], ls, out);
    assert |out| == |[Quoted(key), Mark(':')] + ls|;
    k := out[..2][0].raw;
    rest := out[2..];
    assert out[..2] == [Quoted(k), Mark(':')];
  }

  lemma {:induction false} RefillMembers(ms: Members, out: seq<Lexeme>) returns (us: Members)
    requires AllAlike(SpellMembers(ms), out)
    ensures SpellMembers(us) == out && (us.NoMembers? <==> ms.NoMembers?)
    decreases ms
  {
    hide AllAlike, Spell;
    match ms
    case NoMembers =>
      AlikeNil(out);
      us := NoMembers;
    case Member(key, value, rest) =>
      var v := Spell(value);
      var k, behind := AlikeKey(key, v + MembersTail(rest), out);
      AlikeSplit(v, MembersTail(rest), behind);
      var u := Refill(value, behind[..|v|]);
      if rest.NoMembers? {
        AlikeNil(behind[|v|..]);
        us := Member(k, u, NoMembers);
      } else {
        var w := AlikeComma(SpellMembers(rest), behind[|v|..]);
        var vs := RefillMembers(rest, w);
        us := Member(k, u, vs);
      }
  }

  // ----- meaning

  /** Token i is the key of a string that is a field of the row itself. */
  predicate TopKey(ts: seq<Token>, i: int) {
    ValueAtDepth(Lexemes(ts), 1, i + 2)
  }

  /** The field's first key found belongs to the row itself, and every key of the row
      that reads as the field is that one; keys whose strings stay as they are do
      not matter. */
  predicate Served(ts: seq<Token>, f: string, codec: Codec, redact: Redactor) {
    var k := FirstKey(ts, f, 0);
    && (k >= 0 && Changes(ts[k + 2].lex.raw, codec, redact) ==> TopKey(ts, k))
    && forall i :: 0 <= i < |ts| && TopKey(ts, i) ==>
         Decoded(codec, ts[i].lex.raw) == f && Changes(ts[i + 2].lex.raw, codec, redact) ==> i == k
  }

  predicate Wanted(ts: seq<Token>, fields: seq<string>, codec: Codec, j: int) {
    2 <= j < |ts| && TopKey(ts, j - 2) && Decoded(codec, ts[j - 2].lex.raw) in fields
  }

  /** The strings that change are those that should. */
  ghost predicate RightStrings(ts: seq<Token>, fields: seq<string>, codec: Codec, redact: Redactor) {
    forall j :: 0 <= j < |ts| && ts[j].lex.Quoted? && Changes(ts[j].lex.raw, codec, redact) ==>
                (Taken(ts, fields, j) <==> Wanted(ts, fields, codec, j))
  }

  lemma {:induction false} FieldServed(ts: seq<Token>, fields: seq<string>, codec: Codec, redact: Redactor, f: string)
    requires f in fields && (forall g :: g in fields ==> codec.decode(g) == Some(g))
    requires RightStrings(ts, fields, codec, redact)
    ensures Served(ts, f, codec, redact)
  {
    hide FirstKey, Found, Changes, Depth;
    var k := FirstKey(ts, f, 0);
    FirstFacts(ts, f);
    if k >= 0 && Changes(ts[k + 2].lex.raw, codec, redact) {
      assert Taken(ts, fields, k + 2);
    }
    forall i | 0 <= i < |ts| && TopKey(ts, i) && Decoded(codec, ts[i].lex.raw) == f
               && Changes(ts[i + 2].lex.raw, codec, redact)
      ensures i == k
    {
      assert Wanted(ts, fields, codec, i + 2);
      assert Taken(ts, fields, i + 2);
    }
  }

  lemma {:induction false} ServedRight(ts: seq<Token>, fields: seq<string>, codec: Codec, redact: Redactor)
    requires forall g :: g in fields ==> codec.decode(g) == Some(g)
    ensures RightStrings(ts, fields, codec, redact) <==> forall f :: f in fields ==> Served(ts, f, codec, redact)
  {
    hide FirstKey, Found, Changes, Depth;
    if RightStrings(ts, fields, codec, redact) {
      forall f | f in fields ensures Served(ts, f, codec, redact) {
        FieldServed(ts, fields, codec, redact, f);
      }
    } else {
      var j :| 0 <= j < |ts| && ts[j].lex.Quoted? && Changes(ts[j].lex.raw, codec, redact)
               && Taken(ts, fields, j) != Wanted(ts, fields, codec, j);
      var f := Decoded(codec, ts[j - 2].lex.raw);
      assert f in fields && TopKey(ts, j - 2) ==> Wanted(ts, fields, codec, j);
      FirstFacts(ts, f);
      assert !Served(ts, f, codec, redact);
    }
  }

  lemma {:induction false} DecodedDepth(codec: Codec, ls: seq<Lexeme>)
    ensures Depth(DecodedAll(codec, ls)) == Depth(ls)
  {
    if ls != [] {
      DecodedDepth(codec, ls[1..]);
      assert DecodedAll(codec, ls)[1..] == DecodedAll(codec, ls[1..]);
    }
  }

  /** Reading keeps the keys of the row in their places. */
  lemma {:induction false} DecodedValue(codec: Codec, ls: seq<Lexeme>, d: int, j: int)
    ensures ValueAtDepth(DecodedAll(codec, ls), d, j) <==> ValueAtDepth(ls, d, j)
  {
    hide Depth;
    if 2 <= j < |ls| {
      DecodedDepth(codec, ls[..j - 2]);
      assert DecodedAll(codec, ls)[..j - 2] == DecodedAll(codec, ls[..j - 2]);
    }
  }

  /** At one token the string read after the patch is the mapped one exactly when
      the patch should take it or it stays as it is. */
  lemma {:induction false} TokenMeaning(ts: seq<Token>, fields: seq<string>, codec: Codec, redact: Redactor, j: nat)
    requires Faithful(codec) && ReadsBack(codec, redact) && j < |ts| && LexemeOk(ts[j].lex)
    ensures var was := DecodedAll(codec, Lexemes(ts));
            DecodedLexeme(codec, Final(ts, fields, codec, redact)[j].lex) ==
            RedactedLexeme(was, 1, j, fields, redact) <==>
            (ts[j].lex.Quoted? && Changes(ts[j].lex.raw, codec, redact) ==>
              (Taken(ts, fields, j) <==> Wanted(ts, fields, codec, j)))
  {
    hide StringContent, Depth, FirstKey, Found, PlainText, Faithful, ReadsBack;
    var was, us := DecodedAll(codec, Lexemes(ts)), Final(ts, fields, codec, redact);
    DecodedValue(codec, Lexemes(ts), 1, j);
    TakenQuoted(ts, fields, j);
    if ts[j].lex.Quoted? {
      RedoneReads(ts[j].lex.raw, codec, redact);
    }
  }

  lemma TakenQuoted(ts: seq<Token>, fields: seq<string>, j: nat)
    ensures Taken(ts, fields, j) ==> ts[j].lex.Quoted?
  {
    hide FirstKey;
    if Taken(ts, fields, j) { FirstFacts(ts, ts[j - 2].lex.raw); }
  }

  lemma RedoneReads(raw: string, codec: Codec, redact: Redactor)
    requires Faithful(codec) && ReadsBack(codec, redact) && StringContent(raw)
    ensures Decoded(codec, Redone(raw, codec, redact)) == redact(Decoded(codec, raw)).0
    ensures Changes(raw, codec, redact) <==> redact(Decoded(codec, raw)).0 != Decoded(codec, raw)
  {
    hide StringContent, PlainText;
    assert codec.decode(raw).Some?;
  }

  lemma {:induction false} FinalSpells(ts: seq<Token>, t: Tree, fields: seq<string>, codec: Codec, redact: Redactor)
    returns (u: Tree)
    requires Spells(ts, t) && Faithful(codec)
    ensures Spells(Final(ts, fields, codec, redact), u)
  {
    hide StringContent, FirstKey, Spell, Faithful, White, Redone, Taken;
    var us := Final(ts, fields, codec, redact);
    forall i | 0 <= i < |us| ensures TokenOk(us[i]) && Alike(ts[i].lex, us[i].lex) {
      assert TokenOk(ts[i]);
      TakenQuoted(ts, fields, i);
      if Taken(ts, fields, i) { RedoneValid(ts[i].lex.raw, codec, redact); }
    }
    u := Refill(t, Lexemes(us));
  }

  /** Patching the bytes of any line that holds an object gives a line that holds an
      object. What is read from it is the row with the named fields redacted exactly
      when every field is served. */
  lemma {:induction false} PatchCommutes(ts: seq<Token>, end: string, t: Tree, fields: seq<string>, codec: Codec,
                                         redact: Redactor)
    requires Spells(ts, t) && White(end) && Faithful(codec) && ReadsBack(codec, redact)
    requires DistinctFields(fields) && forall f :: f in fields ==> FieldName(f) && PlainText(f)
    ensures var out := PatchFields(Flat(ts) + end, fields, codec, redact).0;
            && out == Flat(Final(ts, fields, codec, redact)) + end
            && (exists u :: LineOf(out, u))
            && forall u :: LineOf(out, u) ==>
                 (Read(codec, u) == Mapped(Read(codec, t), fields, redact) <==>
                  forall f :: f in fields ==> Served(ts, f, codec, redact))
  {
    hide Flat, Spell, Final, Served, Faithful, PlainText, FieldName, White, TokenOk, DistinctFields;
    hide Read, Mapped, PatchFields, DecodedAll, Redacted, ReadsBack;
    var us := Final(ts, fields, codec, redact);
    SpellsLexed(ts, t);
    PatchFieldsTokens(ts, end, fields, codec, redact);
    var out := Flat(us) + end;
    var u := FinalSpells(ts, t, fields, codec, redact);
    assert LineOf(out, u);
    TreesMeaning(ts, t, u, fields, codec, redact);
    forall u' | LineOf(out, u') ensures u' == u {
      ReadsOnce(out, u, u');
    }
  }

  lemma {:induction false} TreesMeaning(ts: seq<Token>, t: Tree, u: Tree, fields: seq<string>, codec: Codec,
                                        redact: Redactor)
    requires Spells(ts, t) && Faithful(codec) && ReadsBack(codec, redact)
    requires Spells(Final(ts, fields, codec, redact), u) && forall f :: f in fields ==> PlainText(f)
    ensures Read(codec, u) == Mapped(Read(codec, t), fields, redact) <==>
            forall f :: f in fields ==> Served(ts, f, codec, redact)
  {
    hide Spell, Served, PlainText, White, ReadsBack, DecodedLexeme, RedactedLexeme, Taken, Wanted, Changes;
    var us, row := Final(ts, fields, codec, redact), Read(codec, t);
    var want := Mapped(row, fields, redact);
    ReadSpell(codec, t);
    ReadSpell(codec, u);
    MappedSpell(row, fields, redact);
    SpellOnce(Read(codec, u), want);
    ServedRight(ts, fields, codec, redact);
    var a, b := Spell(Read(codec, u)), Spell(want);
    assert a == b <==> forall j :: 0 <= j < |ts| ==> a[j] == b[j];
    forall j | 0 <= j < |ts|
      ensures a[j] == b[j] <==>
              (ts[j].lex.Quoted? && Changes(ts[j].lex.raw, codec, redact) ==>
                (Taken(ts, fields, j) <==> Wanted(ts, fields, codec, j)))
    {
      assert TokenOk(ts[j]);
      TokenMeaning(ts, fields, codec, redact, j);
    }
  }
}
