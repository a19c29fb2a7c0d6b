/** Rows as the server writes them: every field is served. */
module JsonlRows {
  import opened Text
  import opened JsonlPatch
  import opened JsonlTokens
  import opened JsonlTrees
  import opened JsonlLines
  import opened JsonlMeaning
  import opened Wrappers

  // ----- values without records: strings, numbers and arrays, no maps or named tuples

  predicate NoRecord(t: Tree)
    decreases t
  {
    match t
    case Str(_) => true
    case Number(_) => true
    case Array(items) => NoRecords(items)
    case Record(_) => false
  }

  predicate NoRecords(items: Items)
    decreases items
  {
    items.Item? ==> NoRecord(items.head) && NoRecords(items.tail)
  }

  predicate FlatValues(ms: Members)
    decreases ms
  {
    ms.Member? ==> NoRecord(ms.value) && FlatValues(ms.rest)
  }

  predicate NoColon(ls: seq<Lexeme>) {
    Mark(':') !in ls
  }

  lemma {:induction false} ValueNoColon(t: Tree)
    requires NoRecord(t)
    ensures NoColon(Spell(t))
    decreases t
  {
    if t.Array? { ItemsNoColon(t.items); }
  }

  lemma {:induction false} ItemsNoColon(items: Items)
    requires NoRecords(items)
    ensures NoColon(SpellItems(items))
    decreases items
  {
    hide Spell;
    if items.Item? {
      ValueNoColon(items.head);
      ItemsNoColon(items.tail);
    }
  }

  // ----- where keys stand

  predicate KeyAt(ls: seq<Lexeme>, i: int) {
    0 <= i && i + 1 < |ls| && ls[i].Quoted? && ls[i + 1] == Mark(':')
  }

  /** All keys stand at depth d, behind a brace or a comma or at the front. */
  ghost predicate KeysTop(ls: seq<Lexeme>, d: int) {
    forall i :: KeyAt(ls, i) ==> Depth(ls[..i]) == d && (i > 0 ==> ls[i - 1] == Mark('{') || ls[i - 1] == Mark(','))
  }

  lemma {:induction false} KeysJoin(a: seq<Lexeme>, b: seq<Lexeme>, d: int)
    requires KeysTop(a, d + Depth(a)) && KeysTop(b, d)
    requires a != [] && b != [] && b[0] != Mark(':') &&
             (a[|a| - 1] == Mark('{') || a[|a| - 1] == Mark(',') || !KeyAt(b, 0))
    ensures KeysTop(a + b, d + Depth(a))
  {
    hide Depth;
    var s, n := a + b, |a|;
    forall i | KeyAt(s, i)
      ensures Depth(s[..i]) == d + Depth(a) && (i > 0 ==> s[i - 1] == Mark('{') || s[i - 1] == Mark(','))
    {
      if i < n {
        assert KeyAt(a, i) && s[..i] == a[..i];
      } else {
        assert KeyAt(b, i - n) && s[..i] == a + b[..i - n];
        DepthJoin(a, b[..i - n]);
      }
    }
  }

  lemma NoKeys(ls: seq<Lexeme>, d: int)
    requires NoColon(ls)
    ensures KeysTop(ls, d)
  {
  }

  lemma KeyFirst(key: string)
    ensures KeysTop([Quoted(key), Mark(':')], 0)
  {
    assert Depth([]) == 0;
    var k := [Quoted(key), Mark(':')];
    forall i | KeyAt(k, i) ensures i == 0 && k[..i] == [] {
    }
  }

  lemma {:induction false} MembersKeys(ms: Members)
    requires FlatValues(ms)
    ensures KeysTop(SpellMembers(ms), 0) && KeysTop(MembersTail(ms), 0)
    decreases ms
  {
    hide Spell, Depth, KeysTop, NoColon;
    NoColonNil();
    NoKeys([], 0);
    if ms.Member? {
      var k, v, w := [Quoted(ms.key), Mark(':')], Spell(ms.value), MembersTail(ms.rest);
      KeyFirst(ms.key);
      KeyFlat(ms.key);
      ValueNoColon(ms.value);
      NoKeys(v, 0);
      ValueOpens(ms.value);
      KeysJoin(k, v, 0);
      MembersKeys(ms.rest);
      SpellEven(ms.value);
      DepthJoin(k, v);
      if ms.rest.Member? {
        KeysJoin(k + v, w, 0);
      } else {
        assert k + v + w == k + v;
      }
      assert k + v + w == k + (v + w);
      NoKeys([Mark(',')], 0);
      DepthOne(Mark(','));
      KeysJoin([Mark(',')], SpellMembers(ms), 0);
    }
  }

  lemma NoColonNil()
    ensures NoColon([]) && NoColon([Mark(',')]) && NoColon([Mark('{')]) && NoColon([Mark('}')])
  {
  }

  lemma ValueOpens(t: Tree)
    requires NoColon(Spell(t))
    ensures Spell(t)[0] != Mark(':') && !KeyAt(Spell(t), 0)
  {
    hide Spell;
  }

  lemma {:induction false} RowKeys(t: Tree)
    requires t.Record? && FlatValues(t.members)
    ensures KeysTop(Spell(t), 1)
  {
    hide Depth, KeysTop, NoColon, SpellMembers;
    NoColonNil();
    var b := SpellMembers(t.members);
    NoKeys([Mark('}')], 0);
    NoKeys([Mark('{')], 1);
    MembersKeys(t.members);
    MembersEven(t.members);
    DepthOne(Mark('{'));
    if b == [] {
      assert b + [Mark('}')] == [Mark('}')];
    } else {
      KeysJoin(b, [Mark('}')], 0);
    }
    MembersOpens(t.members);
    KeysJoin([Mark('{')], b + [Mark('}')], 0);
  }

  lemma MembersOpens(ms: Members)
    ensures SpellMembers(ms) != [] ==> SpellMembers(ms)[0].Quoted?
  {
  }

  // ----- rows

  /** No carriage return between the tokens; a field's name is read at one key at
      most, which spells it without escapes. */
  ghost predicate PlainlyNamed(ts: seq<Token>, fields: seq<string>, codec: Codec) {
    && (forall i :: 0 <= i < |ts| ==> NoReturn(ts[i].pre))
    && (forall i :: Names(ts, fields, codec, i) ==> ts[i].lex.raw == Decoded(codec, ts[i].lex.raw))
    && forall i, j :: Names(ts, fields, codec, i) && Names(ts, fields, codec, j) && ts[i].lex == ts[j].lex ==> i == j
  }

  predicate Names(ts: seq<Token>, fields: seq<string>, codec: Codec, i: int) {
    KeyAt(Lexemes(ts), i) && Decoded(codec, ts[i].lex.raw) in fields
  }

  /** The search recognises every key of a field that has a string. */
  lemma {:induction false} KeyFound(ts: seq<Token>, t: Tree, fields: seq<string>, codec: Codec, i: int)
    requires Spells(ts, t) && FlatValues(t.members) && PlainlyNamed(ts, fields, codec)
    requires Names(ts, fields, codec, i) && i + 2 < |ts| && ts[i + 2].lex.Quoted?
    ensures Found(ts, i, Decoded(codec, ts[i].lex.raw))
  {
    hide Spell, Depth, TokenOk, NoReturn, FlatValues;
    RowKeys(t);
    SpellEnds(t);
    assert KeyAt(Lexemes(ts), i);
  }

  lemma {:induction false} RowServed(ts: seq<Token>, t: Tree, fields: seq<string>, f: string, codec: Codec,
                                     redact: Redactor)
    requires Spells(ts, t) && FlatValues(t.members) && PlainlyNamed(ts, fields, codec)
    requires f in fields && codec.decode(f) == Some(f)
    ensures Served(ts, f, codec, redact)
  {
    hide Spell, Depth, TokenOk, FirstKey, NoReturn, Changes, Found, FlatValues;
    RowKeys(t);
    var k := FirstKey(ts, f, 0);
    FirstFacts(ts, f);
    if k >= 0 {
      assert KeyAt(Lexemes(ts), k) && Names(ts, fields, codec, k);
    }
    forall i | 0 <= i < |ts| && TopKey(ts, i) && Decoded(codec, ts[i].lex.raw) == f ensures i == k {
      assert KeyAt(Lexemes(ts), i) && Names(ts, fields, codec, i);
      KeyFound(ts, t, fields, codec, i);
    }
  }

  /** A row of strings, numbers and arrays of these, written without carriage returns
      between tokens and with the fields' names unescaped and given once, reads after
      the patch as the row with the named fields redacted. */
  lemma {:induction false} RowsRedacted(ts: seq<Token>, end: string, t: Tree, u: Tree, fields: seq<string>,
                                        codec: Codec, redact: Redactor)
    requires Spells(ts, t) && White(end) && Faithful(codec) && ReadsBack(codec, redact)
    requires DistinctFields(fields) && forall f :: f in fields ==> FieldName(f) && PlainText(f)
    requires FlatValues(t.members) && PlainlyNamed(ts, fields, codec)
    requires LineOf(PatchFields(Flat(ts) + end, fields, codec, redact).0, u)
    ensures Read(codec, u) == Mapped(Read(codec, t), fields, redact)
  {
    hide Spells, White, FieldName, FlatValues, PlainlyNamed, PatchFields, LineOf, Flat, Served, ReadsBack, PlainText;
    forall f | f in fields ensures Served(ts, f, codec, redact) {
      RowServed(ts, t, fields, f, codec, redact);
    }
    PatchCommutes(ts, end, t, fields, codec, redact);
  }

  /** The fields redacted in the two collector files. */
  const TABLES := ["create_table_query", "engine_full", "as_select"]

  const DICTIONARIES := ["source", "last_exception"]

  /** The field lists in use are as the results ask for. */
  lemma FieldsInUse()
    ensures DistinctFields(TABLES) && DistinctFields(DICTIONARIES)
    ensures forall f :: f in TABLES || f in DICTIONARIES ==> FieldName(f) && PlainText(f)
  {
    Name("create_table_query");
    Name("engine_full");
    Name("as_select");
    Name("source");
    Name("last_exception");
  }

  predicate Lower(s: string) {
    s != "" && forall i :: 0 <= i < |s| ==> 'a' <= s[i] <= 'z' || s[i] == '_'
  }

  lemma Name(f: string)
    requires Lower(f)
    ensures FieldName(f) && PlainText(f)
  {
  }
}
