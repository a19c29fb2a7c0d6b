/** JSON values as trees, spelled as lexemes: spelling is unambiguous, and brackets
    in the spelling tell how deep a lexeme lies. A tree holds its strings either as
    they are written or decoded; the spelling is the same but for them. */
module JsonlTrees {
  import opened Text
  import opened JsonlTokens

  datatype Tree = Str(raw: string) | Number(text: string) | Array(items: Items) | Record(members: Members)

  datatype Items = NoItems | Item(head: Tree, tail: Items)

  datatype Members = NoMembers | Member(key: string, value: Tree, rest: Members)

  function Spell(t: Tree): (r: seq<Lexeme>)
    ensures r != []
    decreases t, 1
  {
    match t
    case Str(raw) => [Quoted(raw)]
    case Number(text) => [Scalar(text)]
    case Array(items) => [Mark('[')] + (SpellItems(items) + [Mark(']')])
    case Record(members) => [Mark('{')] + (SpellMembers(members) + [Mark('}')])
  }

  function SpellItems(items: Items): seq<Lexeme>
    decreases items, 0
  {
    match items
    case NoItems => []
    case Item(head, tail) => Spell(head) + (if tail.NoItems? then [] else [Mark(',')] + SpellItems(tail))
  }

  function SpellMembers(ms: Members): seq<Lexeme>
    decreases ms, 0
  {
    match ms
    case NoMembers => []
    case Member(key, value, rest) => [Quoted(key), Mark(':')] + (Spell(value) + MembersTail(rest))
  }

  /** The comma and what follows it, if any. */
  function MembersTail(rest: Members): seq<Lexeme>
    decreases rest, 1
  {
    if rest.NoMembers? then [] else [Mark(',')] + SpellMembers(rest)
  }

  // ----- a spelling reads back

  lemma SeqCut<T>(a: seq<T>, b: seq<T>, a': seq<T>, b': seq<T>)
    requires |a| == |a'| && a + b == a' + b'
    ensures a == a' && b == b'
  {
    assert (a + b)[..|a|] == a && (a' + b')[..|a|] == a';
    assert (a + b)[|a|..] == b && (a' + b')[|a|..] == b';
  }

  lemma Head<T>(x: T, s: seq<T>)
    ensures ([x] + s)[0] == x && ([x] + s)[1..] == s
  {
  }

  lemma Assoc<T>(a: seq<T>, b: seq<T>, c: seq<T>)
    ensures (a + b) + c == a + (b + c)
  {
  }

  /** What a value's spelling begins with. */
  function First(t: Tree): Lexeme {
    match t
    case Str(raw) => Quoted(raw)
    case Number(text) => Scalar(text)
    case Array(_) => Mark('[')
    case Record(_) => Mark('{')
  }

  /** The inside of the brackets and the closing one, with what follows. */
  function Inside(t: Tree, r: seq<Lexeme>): seq<Lexeme> {
    match t
    case Str(raw) => r
    case Number(text) => r
    case Array(items) => SpellItems(items) + ([Mark(']')] + r)
    case Record(members) => SpellMembers(members) + ([Mark('}')] + r)
  }

  lemma SpellFirst(t: Tree, r: seq<Lexeme>)
    ensures Spell(t) + r == [First(t)] + Inside(t, r)
    ensures (Spell(t) + r)[0] == First(t) && (Spell(t) + r)[1..] == Inside(t, r)
  {
    match t
    case Str(_) =>
    case Number(_) =>
    case Array(items) => Wrapped(Mark('['), SpellItems(items), [Mark(']')], r);
    case Record(members) => Wrapped(Mark('{'), SpellMembers(members), [Mark('}')], r);
  }

  lemma Wrapped<T>(x: T, b: seq<T>, c: seq<T>, r: seq<T>)
    ensures [x] + (b + c) + r == [x] + (b + (c + r))
  {
  }

  /** Equal spellings are spellings of equal trees. */
  lemma {:induction false} SpellCut(t: Tree, r: seq<Lexeme>, t': Tree, r': seq<Lexeme>)
    requires Spell(t) + r == Spell(t') + r'
    ensures t == t' && r == r'
    decreases t, 2
  {
    hide Spell, SpellItems, SpellMembers;
    SpellFirst(t, r);
    SpellFirst(t', r');
    match t
    case Str(_) =>
    case Number(_) =>
    case Array(items) => ItemsCut(items, r, t'.items, r');
    case Record(members) => MembersCut(members, r, t'.members, r');
  }

  function AfterItem(tail: Items, r: seq<Lexeme>): (s: seq<Lexeme>)
    ensures s != [] && s[0] == (if tail.NoItems? then Mark(']') else Mark(','))
    ensures s[1..] == if tail.NoItems? then r else SpellItems(tail) + ([Mark(']')] + r)
  {
    if tail.NoItems? then [Mark(']')] + r else [Mark(',')] + (SpellItems(tail) + ([Mark(']')] + r))
  }

  lemma ItemsOpen(items: Items, r: seq<Lexeme>)
    ensures items.NoItems? ==> SpellItems(items) + ([Mark(']')] + r) == [Mark(']')] + r
    ensures items.Item? ==>
              SpellItems(items) + ([Mark(']')] + r) == Spell(items.head) + AfterItem(items.tail, r)
  {
    hide Spell;
    var e := [Mark(']')] + r;
    if items.Item? && items.tail.Item? {
      ItemParts(Spell(items.head), [Mark(',')], SpellItems(items.tail), e);
    } else if items.Item? {
      assert Spell(items.head) + [] == Spell(items.head);
    }
  }

  lemma ItemParts<T>(h: seq<T>, m: seq<T>, s: seq<T>, e: seq<T>)
    ensures h + (m + s) + e == h + (m + (s + e))
  {
  }

  lemma {:induction false} ItemsCut(items: Items, r: seq<Lexeme>, items': Items, r': seq<Lexeme>)
    requires SpellItems(items) + ([Mark(']')] + r) == SpellItems(items') + ([Mark(']')] + r')
    ensures items == items' && r == r'
    decreases items, 1
  {
    hide Spell, SpellItems;
    ItemsOpen(items, r);
    ItemsOpen(items', r');
    Head(Mark(']'), r);
    Head(Mark(']'), r');
    if items.Item? { SpellFirst(items.head, AfterItem(items.tail, r)); }
    if items'.Item? { SpellFirst(items'.head, AfterItem(items'.tail, r')); }
    if items.Item? && items'.Item? {
      SpellCut(items.head, AfterItem(items.tail, r), items'.head, AfterItem(items'.tail, r'));
      if items.tail.Item? {
        ItemsCut(items.tail, r, items'.tail, r');
      }
    }
  }

  function AfterMember(rest: Members, r: seq<Lexeme>): (s: seq<Lexeme>)
    ensures s != [] && s[0] == (if rest.NoMembers? then Mark('}') else Mark(','))
    ensures s[1..] == if rest.NoMembers? then r else SpellMembers(rest) + ([Mark('}')] + r)
  {
    if rest.NoMembers? then [Mark('}')] + r else [Mark(',')] + (SpellMembers(rest) + ([Mark('}')] + r))
  }

  lemma MembersOpen(ms: Members, r: seq<Lexeme>)
    ensures ms.NoMembers? ==> SpellMembers(ms) + ([Mark('}')] + r) == [Mark('}')] + r
    ensures ms.Member? ==>
              SpellMembers(ms) + ([Mark('}')] + r) ==
              [Quoted(ms.key)] + ([Mark(':')] + (Spell(ms.value) + AfterMember(ms.rest, r)))
  {
    hide Spell;
    if ms.Member? {
      var k, v := [Quoted(ms.key), Mark(':')], Spell(ms.value);
      var e := [Mark('}')] + r;
      MemberParts(k, v, MembersTail(ms.rest), e);
      assert k == [Quoted(ms.key)] + [Mark(':')];
      Assoc([Quoted(ms.key)], [Mark(':')], v + AfterMember(ms.rest, r));
      if ms.rest.Member? {
        Assoc([Mark(',')], SpellMembers(ms.rest), e);
      }
    }
  }

  lemma MemberParts<T>(k: seq<T>, v: seq<T>, m: seq<T>, e: seq<T>)
    ensures k + (v + m) + e == k + (v + (m + e))
  {
  }

  lemma {:induction false} MembersCut(ms: Members, r: seq<Lexeme>, ms': Members, r': seq<Lexeme>)
    requires SpellMembers(ms) + ([Mark('}')] + r) == SpellMembers(ms') + ([Mark('}')] + r')
    ensures ms == ms' && r == r'
    decreases ms, 1
  {
    hide Spell, SpellMembers, AfterMember;
    MembersOpen(ms, r);
    MembersOpen(ms', r');
    Head(Mark('}'), r);
    Head(Mark('}'), r');
    if ms.Member? { TwoHeads(ms, r); }
    if ms'.Member? { TwoHeads(ms', r'); }
    if ms.Member? && ms'.Member? {
      SpellCut(ms.value, AfterMember(ms.rest, r), ms'.value, AfterMember(ms'.rest, r'));
      TailKind(ms.rest, r);
      TailKind(ms'.rest, r');
      if ms.rest.Member? {
        MembersCut(ms.rest, r, ms'.rest, r');
      }
    }
  }

  lemma TailKind(rest: Members, r: seq<Lexeme>)
    ensures var s := AfterMember(rest, r);
            && s != [] && s[0] == (if rest.NoMembers? then Mark('}') else Mark(','))
            && s[1..] == (if rest.NoMembers? then r else SpellMembers(rest) + ([Mark('}')] + r))
            && rest.NoMembers? == (s[0] == Mark('}'))
  {
  }

  lemma TwoHeads(ms: Members, r: seq<Lexeme>)
    requires ms.Member?
    ensures var v := Spell(ms.value) + AfterMember(ms.rest, r);
            var s := [Quoted(ms.key)] + ([Mark(':')] + v);
            s[0] == Quoted(ms.key) && s[1] == Mark(':') && s[2..] == v
  {
    hide Spell, AfterMember;
  }

  lemma SpellOnce(t: Tree, t': Tree)
    ensures Spell(t) == Spell(t') <==> t == t'
  {
    hide Spell;
    if Spell(t) == Spell(t') {
      SpellCut(t, [], t', []);
    }
  }

  // ----- every literal is followed by a comma, a colon or a closing bracket

  predicate Ends(x: Lexeme) {
    x.Mark? && x.c in ",:}]"
  }

  ghost predicate Fenced(ls: seq<Lexeme>) {
    forall i :: 0 <= i < |ls| && !ls[i].Mark? ==> i + 1 < |ls| && Ends(ls[i + 1])
  }

  lemma FencedJoin(a: seq<Lexeme>, b: seq<Lexeme>, c: seq<Lexeme>)
    requires b != [] && Fenced(a + [b[0]]) && Fenced(b + c)
    requires b[0].Mark?
    ensures Fenced(a + (b + c))
  {
    var s := a + (b + c);
    forall i | 0 <= i < |s| && !s[i].Mark? ensures i + 1 < |s| && Ends(s[i + 1]) {
      if i < |a| {
        assert (a + [b[0]])[i] == s[i] && (a + [b[0]])[i + 1] == s[i + 1];
      } else {
        assert (b + c)[i - |a|] == s[i];
        assert (b + c)[i - |a| + 1] == s[i + 1];
      }
    }
  }

  lemma {:induction false} SpellFenced(t: Tree, x: Lexeme)
    requires Ends(x)
    ensures Fenced(Spell(t) + [x])
    decreases t, 2
  {
    match t
    case Str(_) =>
    case Number(_) =>
    case Array(items) =>
      ItemsFenced(items);
      FencedWrap(Mark('['), SpellItems(items), Mark(']'), x);
    case Record(members) =>
      MembersFenced(members);
      FencedWrap(Mark('{'), SpellMembers(members), Mark('}'), x);
  }

  lemma FencedWrap(o: Lexeme, b: seq<Lexeme>, c: Lexeme, x: Lexeme)
    requires o.Mark? && c.Mark? && x.Mark? && Fenced(b + [c])
    ensures Fenced([o] + (b + [c]) + [x])
  {
    var s := [o] + (b + [c]) + [x];
    forall i | 0 <= i < |s| && !s[i].Mark? ensures i + 1 < |s| && Ends(s[i + 1]) {
      assert (b + [c])[i - 1] == s[i];
      assert (b + [c])[i] == s[i + 1];
    }
  }

  lemma {:induction false} ItemsFenced(items: Items)
    ensures Fenced(SpellItems(items) + [Mark(']')])
    decreases items, 1
  {
    hide Spell;
    if items.Item? {
      if items.tail.NoItems? {
        SpellFenced(items.head, Mark(']'));
        assert Spell(items.head) + [] == Spell(items.head);
      } else {
        SpellFenced(items.head, Mark(','));
        ItemsFenced(items.tail);
        var a, b, c := Spell(items.head), SpellItems(items.tail), [Mark(']')];
        FencedComma(b + c);
        assert [Mark(',')] + (b + c) == ([Mark(',')] + b) + c;
        FencedJoin(a, [Mark(',')] + b, c);
        Assoc(a, [Mark(',')] + b, c);
      }
    }
  }

  lemma FencedComma(s: seq<Lexeme>)
    requires Fenced(s)
    ensures Fenced([Mark(',')] + s)
  {
    var u := [Mark(',')] + s;
    forall i | 0 <= i < |u| && !u[i].Mark? ensures i + 1 < |u| && Ends(u[i + 1]) {
      assert s[i - 1] == u[i] && s[i] == u[i + 1];
    }
  }

  lemma {:induction false} MembersFenced(ms: Members)
    ensures Fenced(SpellMembers(ms) + [Mark('}')])
    decreases ms, 1
  {
    hide Spell;
    if ms.Member? {
      var v, c := Spell(ms.value), [Mark('}')];
      var k := [Quoted(ms.key), Mark(':')];
      if ms.rest.NoMembers? {
        SpellFenced(ms.value, Mark('}'));
        assert v + [] == v;
        FencedKey(ms.key, v + c);
        Assoc(k, v, c);
      } else {
        SpellFenced(ms.value, Mark(','));
        MembersFenced(ms.rest);
        var b := SpellMembers(ms.rest);
        FencedComma(b + c);
        assert [Mark(',')] + (b + c) == ([Mark(',')] + b) + c;
        FencedJoin(v, [Mark(',')] + b, c);
        FencedKey(ms.key, v + (([Mark(',')] + b) + c));
        MemberParts(k, v, [Mark(',')] + b, c);
      }
    }
  }

  lemma FencedKey(key: string, s: seq<Lexeme>)
    requires Fenced(s)
    ensures Fenced([Quoted(key), Mark(':')] + s)
  {
    var u := [Quoted(key), Mark(':')] + s;
    forall i | 0 <= i < |u| && !u[i].Mark? ensures i + 1 < |u| && Ends(u[i + 1]) {
      if i > 0 {
        assert s[i - 2] == u[i] && s[i - 1] == u[i + 1];
      }
    }
  }

  // ----- depth

  function Opens(x: Lexeme): int {
    if x == Mark('{') || x == Mark('[') then 1 else if x == Mark('}') || x == Mark(']') then -1 else 0
  }

  /** How many brackets are open behind these lexemes. */
  function Depth(ls: seq<Lexeme>): int {
    if ls == [] then 0 else Opens(ls[0]) + Depth(ls[1..])
  }

  lemma {:induction false} DepthJoin(a: seq<Lexeme>, b: seq<Lexeme>)
    ensures Depth(a + b) == Depth(a) + Depth(b)
  {
    if a == [] {
      assert a + b == b;
    } else {
      assert (a + b)[1..] == a[1..] + b;
      DepthJoin(a[1..], b);
    }
  }

  /** All brackets are closed at the end and none too many anywhere. */
  ghost predicate Even(ls: seq<Lexeme>) {
    Depth(ls) == 0 && forall k :: 0 <= k <= |ls| ==> Depth(ls[..k]) >= 0
  }

  lemma EvenJoin(a: seq<Lexeme>, b: seq<Lexeme>)
    requires Even(a) && Even(b)
    ensures Even(a + b)
  {
    hide Depth;
    DepthJoin(a, b);
    var s := a + b;
    forall k | 0 <= k <= |s| ensures Depth(s[..k]) >= 0 {
      if k <= |a| {
        assert s[..k] == a[..k];
      } else {
        assert s[..k] == a + b[..k - |a|];
        DepthJoin(a, b[..k - |a|]);
      }
    }
  }

  lemma EvenOne(x: Lexeme)
    requires Opens(x) == 0
    ensures Even([x])
  {
    var s := [x];
    assert s[1..] == [];
    forall k | 0 <= k <= |s| ensures Depth(s[..k]) >= 0 {
      assert k == 1 ==> s[..k] == s;
    }
  }

  lemma DepthOne(x: Lexeme)
    ensures Depth([x]) == Opens(x)
  {
    var s := [x];
    assert Depth(s[1..]) == 0;
    assert s[0] == x;
  }

  /** Between the brackets at least one is open. */
  lemma EvenWrap(o: Lexeme, s: seq<Lexeme>, c: Lexeme)
    requires Opens(o) == 1 && Opens(c) == -1 && Even(s)
    ensures Even([o] + (s + [c]))
    ensures forall k :: 0 < k < |s| + 2 ==> Depth(([o] + (s + [c]))[..k]) >= 1
  {
    var u := [o] + (s + [c]);
    DepthOne(o);
    DepthOne(c);
    DepthJoin([o], s + [c]);
    DepthJoin(s, [c]);
    forall k | 0 < k < |s| + 2 ensures Depth(u[..k]) >= 1 {
      assert u[..k] == [o] + s[..k - 1];
      DepthJoin([o], s[..k - 1]);
    }
    assert u[..|u|] == u && u[..0] == [];
    DepthJoin([], []);
  }

  lemma {:induction false} SpellEven(t: Tree)
    ensures Even(Spell(t))
    ensures forall k :: 0 < k < |Spell(t)| ==> Depth(Spell(t)[..k]) >= 1
    decreases t, 2
  {
    hide Depth, Even;
    match t
    case Str(raw) => EvenOne(Quoted(raw));
    case Number(text) => EvenOne(Scalar(text));
    case Array(items) =>
      ItemsEven(items);
      EvenWrap(Mark('['), SpellItems(items), Mark(']'));
    case Record(members) =>
      MembersEven(members);
      EvenWrap(Mark('{'), SpellMembers(members), Mark('}'));
  }

  lemma EvenNil()
    ensures Even([])
  {
  }

  lemma {:induction false} ItemsEven(items: Items)
    ensures Even(SpellItems(items))
    decreases items, 1
  {
    hide Spell, Even;
    EvenNil();
    if items.Item? {
      SpellEven(items.head);
      ItemsEven(items.tail);
      EvenOne(Mark(','));
      EvenJoin([Mark(',')], SpellItems(items.tail));
      EvenJoin(Spell(items.head), if items.tail.NoItems? then [] else [Mark(',')] + SpellItems(items.tail));
    }
  }

  lemma {:induction false} MembersEven(ms: Members)
    ensures Even(SpellMembers(ms))
    decreases ms, 1
  {
    hide Spell, Even;
    EvenNil();
    if ms.Member? {
      SpellEven(ms.value);
      TailEven(ms.rest);
      EvenOne(Quoted(ms.key));
      EvenOne(Mark(':'));
      EvenJoin([Quoted(ms.key)], [Mark(':')]);
      assert [Quoted(ms.key)] + [Mark(':')] == [Quoted(ms.key), Mark(':')];
      EvenJoin(Spell(ms.value), MembersTail(ms.rest));
      EvenJoin([Quoted(ms.key), Mark(':')], Spell(ms.value) + MembersTail(ms.rest));
    }
  }

  lemma {:induction false} TailEven(rest: Members)
    ensures Even(MembersTail(rest))
    decreases rest, 2
  {
    hide Even;
    EvenNil();
    if rest.Member? {
      MembersEven(rest);
      EvenOne(Mark(','));
      EvenJoin([Mark(',')], SpellMembers(rest));
    }
  }
}
