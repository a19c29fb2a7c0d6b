/** Printing a command, and how a POSIX shell reads it back. */
module Shell {
  import opened Wrappers
  import opened Text

  const MASK := "****"

  // ----- the printer

  /** The name of the flag an argument is, and whether its value is attached. */
  function FlagName(a: string): (string, bool) {
    if !HasPrefix(a, "-") then ("", false)
    else
      var name := TrimDashes(a);
      var i := IndexByte(name, '=');
      if i >= 0 then (name[..i], true) else (name, false)
  }

  function TrimDashes(a: string): string {
    if a != "" && a[0] == '-' then TrimDashes(a[1..]) else a
  }

  predicate Secret(name: string) {
    name == "password" || name == "salt"
  }

  predicate SafeByte(c: char) {
    || 'A' <= c <= 'Z' || 'a' <= c <= 'z' || '0' <= c <= '9'
    || c in {'_', '.', '/', ':', '=', '@', '%', '+', ',', '-'}
  }

  predicate ShellSafe(a: string) {
    a != "" && forall i :: 0 <= i < |a| ==> SafeByte(a[i])
  }

  function EscapeQuotes(a: string): string {
    var i := IndexByte(a, '\'');
    if i < 0 then a else a[..i] + "'\\''" + EscapeQuotes(a[i + 1..])
  }

  function Quoted(a: string): string {
    if ShellSafe(a) then a else "'" + EscapeQuotes(a) + "'"
  }

  /** Argument i with a secret value masked: its own, or the one it is for the flag before it. */
  function Masked(args: seq<string>, i: nat): string
    requires i < |args|
  {
    var (name, attached) := FlagName(args[i]);
    if Secret(name) && attached then args[i][..IndexByte(args[i], '=') + 1] + MASK
    else if i > 0 && Secret(FlagName(args[i - 1]).0) && !FlagName(args[i - 1]).1 then MASK
    else args[i]
  }

  function MaskedArgs(args: seq<string>): seq<string> {
    seq(|args|, i requires 0 <= i < |args| => Masked(args, i))
  }

  function QuotedAll(args: seq<string>): seq<string> {
    seq(|args|, i requires 0 <= i < |args| => Quoted(args[i]))
  }

  method Shown(binary: string, args: seq<string>) returns (line: string)
    ensures line == Join([binary] + QuotedAll(MaskedArgs(args)), " ")
  {
    hide FlagName, Quoted, IndexByte;
    var parts := [binary];
    for i := 0 to |args|
      invariant |parts| == i + 1 && parts[0] == binary
      invariant forall j :: 0 <= j < i ==> parts[j + 1] == Quoted(Masked(args, j))
    {
      var a := args[i];
      var (name, attached) := FlagName(a);
      if Secret(name) && attached {
        AttachedHasEquals(a);
        a := a[..IndexByte(a, '=') + 1] + MASK;
      } else if i > 0 {
        var (prev, prevAttached) := FlagName(args[i - 1]);
        if Secret(prev) && !prevAttached {
          a := MASK;
        }
      }
      parts := parts + [Quoted(a)];
    }
    assert parts == [binary] + QuotedAll(MaskedArgs(args));
    line := Join(parts, " ");
  }

  lemma {:induction false} DashesOff(a: string)
    ensures |TrimDashes(a)| <= |a| && TrimDashes(a) == a[|a| - |TrimDashes(a)|..]
  {
    if a != "" && a[0] == '-' {
      DashesOff(a[1..]);
      var n := |TrimDashes(a)|;
      assert a[1..][|a| - 1 - n..] == a[|a| - n..];
    }
  }

  lemma AttachedHasEquals(a: string)
    ensures FlagName(a).1 ==> IndexByte(a, '=') >= 0
  {
    DashesOff(a);
    var t := TrimDashes(a);
    var i := IndexByte(t, '=');
    if HasPrefix(a, "-") && i >= 0 {
      assert t[i] == a[|a| - |t| + i];
      assert '=' in a;
    }
  }

  // ----- the reader (POSIX.1-2017 Shell Command Language, sections 2.2.1, 2.2.2 and 2.3)

  /** Characters a shell gives a meaning to outside quotes. */
  predicate Special(c: char) {
    || c in {'|', '&', ';', '<', '>', '(', ')', '$', '`', '"', '\n', '*', '?', '[', ']', '#', '~', '{', '}', '!', '^'}
    || c as int >= 0x80
  }

  /** A character that stands for itself. */
  predicate PlainByte(c: char) {
    !Special(c) && c != ' ' && c != '\t' && c != '\'' && c != '\\'
  }

  predicate PlainPath(s: string) {
    s != "" && forall i :: 0 <= i < |s| ==> PlainByte(s[i])
  }

  /** The words of s, `word` being the one under way; none if a quote is left open or
      an unquoted character is more than text. */
  function Words(s: string, word: Option<string>): Option<seq<string>>
    decreases |s|
  {
    if s == "" then Some(if word.Some? then [word.value] else [])
    else if s[0] == ' ' || s[0] == '\t' then
      match Words(s[1..], None)
      case None => None
      case Some(rest) => Some((if word.Some? then [word.value] else []) + rest)
    else if s[0] == '\'' then
      var i := IndexByte(s[1..], '\'');
      if i < 0 then None else Words(s[i + 2..], Some(SoFar(word) + s[1..i + 1]))
    else if s[0] == '\\' then
      if |s| == 1 then None
      else if s[1] == '\n' then Words(s[2..], word)
      else Words(s[2..], Some(SoFar(word) + [s[1]]))
    else if Special(s[0]) then None
    else Words(s[1..], Some(SoFar(word) + [s[0]]))
  }

  function SoFar(word: Option<string>): string {
    if word.Some? then word.value else ""
  }

  // ----- reading back what was printed

  lemma SafePlain(a: string)
    requires ShellSafe(a)
    ensures PlainPath(a)
  {
  }

  lemma ReadByte(c: char, rest: string, word: Option<string>)
    requires PlainByte(c)
    ensures Words([c] + rest, word) == Words(rest, Some(SoFar(word) + [c]))
  {
    assert ([c] + rest)[1..] == rest;
  }

  lemma {:induction false} ReadBytes(a: string, rest: string, w: string)
    requires forall i :: 0 <= i < |a| ==> PlainByte(a[i])
    ensures Words(a + rest, Some(w)) == Words(rest, Some(w + a))
    decreases |a|
  {
    hide Words, PlainByte;
    if a == "" {
      assert a + rest == rest && w + a == w;
    } else {
      ReadByte(a[0], a[1..] + rest, Some(w));
      assert [a[0]] + (a[1..] + rest) == a + rest;
      ReadBytes(a[1..], rest, w + [a[0]]);
      assert w + [a[0]] + a[1..] == w + a;
    }
  }

  lemma {:induction false} FirstByteAt(p: string, c: char, rest: string)
    requires c !in p
    ensures IndexByte(p + ([c] + rest), c) == |p|
    decreases |p|
  {
    var s := p + ([c] + rest);
    if p == "" {
      assert s == [c] + rest;
    } else {
      assert s[1..] == p[1..] + ([c] + rest) && s[0] == p[0];
      FirstByteAt(p[1..], c, rest);
    }
  }

  /** One run of quoted text without a quote in it. */
  lemma ReadRun(p: string, rest: string, word: Option<string>)
    requires '\'' !in p
    ensures Words("'" + p + ("'" + rest), word) == Words(rest, Some(SoFar(word) + p))
  {
    var s := "'" + p + ("'" + rest);
    assert s[1..] == p + ("'" + rest);
    FirstByteAt(p, '\'', rest);
    assert s[|p| + 2..] == rest && s[1..|p| + 1] == p;
  }

  lemma ReadEscaped(rest: string, w: string)
    ensures Words("\\'" + rest, Some(w)) == Words(rest, Some(w + "'"))
  {
    var s := "\\'" + rest;
    assert s[0] == '\\' && s[1] == '\'' && s[2..] == rest;
  }

  lemma {:induction false} EscapeNext(a: string)
    ensures var i := IndexByte(a, '\'');
            if i < 0 then '\'' !in a && EscapeQuotes(a) == a
            else
              && '\'' !in a[..i] && EscapeQuotes(a) == a[..i] + "'\\''" + EscapeQuotes(a[i + 1..])
              && a == a[..i] + "'" + a[i + 1..]
  {
  }

  lemma {:induction false} ReadQuoted(a: string, rest: string, w: string)
    ensures Words("'" + EscapeQuotes(a) + ("'" + rest), Some(w)) == Words(rest, Some(w + a))
    decreases |a|
  {
    hide Words, EscapeQuotes, IndexByte;
    var i := IndexByte(a, '\'');
    EscapeNext(a);
    if i < 0 {
      ReadRun(a, rest, Some(w));
    } else {
      var p, more := a[..i], a[i + 1..];
      var tail := "'" + EscapeQuotes(more) + ("'" + rest);
      Regroup(p, EscapeQuotes(more), rest);
      ReadRun(p, "\\'" + tail, Some(w));
      ReadEscaped(tail, w + p);
      ReadQuoted(more, rest, w + p + "'");
      Gather(w, p, more);
    }
  }

  lemma Gather(w: string, p: string, more: string)
    ensures w + p + "'" + more == w + (p + "'" + more)
  {
  }

  /** A quote opens a word as it goes on with one. */
  lemma QuoteOpens(s: string)
    requires s != "" && s[0] == '\''
    ensures Words(s, None) == Words(s, Some(""))
  {
  }

  lemma Regroup(p: string, e: string, rest: string)
    ensures "'" + (p + "'\\''" + e) + ("'" + rest) == "'" + p + ("'" + ("\\'" + ("'" + e + ("'" + rest))))
  {
  }

  lemma ReadArg(a: string, rest: string)
    ensures Words(Quoted(a) + rest, None) == Words(rest, Some(a))
  {
    hide Words, ShellSafe, EscapeQuotes;
    if ShellSafe(a) {
      SafePlain(a);
      ReadPlain(a, rest);
    } else {
      var s := "'" + EscapeQuotes(a) + ("'" + rest);
      assert Quoted(a) + rest == s;
      QuoteOpens(s);
      ReadQuoted(a, rest, "");
      assert "" + a == a;
    }
  }

  lemma ReadPlain(a: string, rest: string)
    requires PlainPath(a)
    ensures Words(a + rest, None) == Words(rest, Some(a))
  {
    hide Words, PlainByte;
    ReadByte(a[0], a[1..] + rest, None);
    assert [a[0]] + (a[1..] + rest) == a + rest && "" + [a[0]] == [a[0]];
    ReadBytes(a[1..], rest, [a[0]]);
    assert a == [a[0]] + a[1..];
  }

  lemma ReadBlank(rest: string, word: Option<string>)
    ensures Words(" " + rest, word) ==
            match Words(rest, None)
            case None => None
            case Some(words) => Some((if word.Some? then [word.value] else []) + words)
  {
    assert (" " + rest)[1..] == rest;
  }

  /** The printed arguments, each behind a blank. */
  function Tail(args: seq<string>): string {
    if args == [] then "" else " " + Quoted(args[0]) + Tail(args[1..])
  }

  lemma {:induction false} ReadTail(args: seq<string>, word: Option<string>)
    ensures Words(Tail(args), word) == Some((if word.Some? then [word.value] else []) + args)
    decreases |args|
  {
    var done := if word.Some? then [word.value] else [];
    if args == [] {
      assert done + args == done;
    } else {
      hide Words, Quoted;
      var rest := Quoted(args[0]) + Tail(args[1..]);
      assert Tail(args) == " " + rest;
      ReadBlank(rest, word);
      ReadArg(args[0], Tail(args[1..]));
      ReadTail(args[1..], Some(args[0]));
      assert [args[0]] + args[1..] == args;
    }
  }

  lemma {:induction false} JoinTail(first: string, args: seq<string>)
    ensures Join([first] + QuotedAll(args), " ") == first + Tail(args)
    decreases |args|
  {
    hide Quoted;
    var parts := [first] + QuotedAll(args);
    if args != [] {
      JoinTail(Quoted(args[0]), args[1..]);
      assert parts[1..] == [Quoted(args[0])] + QuotedAll(args[1..]);
      assert first + " " + (Quoted(args[0]) + Tail(args[1..])) == first + (" " + Quoted(args[0]) + Tail(args[1..]));
    }
  }

  /** Whatever the arguments, a shell reads the text printed behind the binary's path
      as exactly the arguments, secret values masked. */
  lemma ShownReadsBack(binary: string, args: seq<string>)
    ensures var line := Join([binary] + QuotedAll(MaskedArgs(args)), " ");
            && HasPrefix(line, binary)
            && Words(line[|binary|..], None) == Some(MaskedArgs(args))
  {
    hide Words, MaskedArgs, QuotedAll, Join;
    var masked := MaskedArgs(args);
    JoinTail(binary, masked);
    ReadTail(masked, None);
    assert (binary + Tail(masked))[|binary|..] == Tail(masked);
    assert [] + masked == masked;
  }

  // ----- secrets

  predicate Dashes(d: string) {
    d != "" && forall i :: 0 <= i < |d| ==> d[i] == '-'
  }

  lemma {:induction false} DashesFall(d: string, rest: string)
    requires Dashes(d) && (rest == "" || rest[0] != '-')
    ensures TrimDashes(d + rest) == rest
    decreases |d|
  {
    assert (d + rest)[1..] == d[1..] + rest;
    if |d| > 1 {
      DashesFall(d[1..], rest);
    } else {
      assert d[1..] + rest == rest;
    }
  }

  lemma FlagAlone(d: string, name: string)
    requires Dashes(d) && (name == "password" || name == "salt")
    ensures FlagName(d + name) == (name, false)
  {
    DashesFall(d, name);
    assert (d + name)[0] == '-';
  }

  lemma FlagWith(d: string, name: string, v: string)
    requires Dashes(d) && (name == "password" || name == "salt")
    ensures FlagName(d + name + "=" + v) == (name, true)
    ensures IndexByte(d + name + "=" + v, '=') == |d| + |name|
  {
    var a := d + name + "=" + v;
    assert a == d + (name + ("=" + v)) == (d + name) + ("=" + v);
    DashesFall(d, name + ("=" + v));
    FirstByteAt(name, '=', v);
    FirstByteAt(d + name, '=', v);
    assert a[0] == '-';
  }

  /** The value behind "=" of a secret flag does not show in the line. */
  lemma AttachedHidden(binary: string, args: seq<string>, i: nat, d: string, name: string, v: string, other: string)
    requires i < |args| && Dashes(d) && (name == "password" || name == "salt") && args[i] == d + name + "=" + v
    ensures Printed(binary, args) == Printed(binary, args[i := d + name + "=" + other])
  {
    hide FlagName, IndexByte;
    var more := args[i := d + name + "=" + other];
    FlagWith(d, name, v);
    FlagWith(d, name, other);
    var h := d + name + "=";
    assert (h + v)[..|h|] == h == (h + other)[..|h|];
    forall j | 0 <= j < |args| ensures Masked(args, j) == Masked(more, j) {
    }
    assert MaskedArgs(args) == MaskedArgs(more);
  }

  /** The argument behind a secret flag does not show in the line either, as long as it
      does not itself look like a flag. */
  lemma FollowingHidden(binary: string, args: seq<string>, i: nat, d: string, name: string, other: string)
    requires i + 1 < |args| && Dashes(d) && (name == "password" || name == "salt") && args[i] == d + name
    requires !HasPrefix(args[i + 1], "-") && !HasPrefix(other, "-")
    ensures Printed(binary, args) == Printed(binary, args[i + 1 := other])
  {
    var more := args[i + 1 := other];
    FlagAlone(d, name);
    assert FlagName(args[i + 1]) == ("", false) == FlagName(other);
    hide FlagName, IndexByte;
    forall j | 0 <= j < |args| ensures Masked(args, j) == Masked(more, j) {
    }
    assert MaskedArgs(args) == MaskedArgs(more);
  }

  /** Whatever it looks like, it is masked as a whole, exactly when it is not itself a
      secret flag with its value. */
  lemma FollowingMasked(args: seq<string>, i: nat, d: string, name: string)
    requires i + 1 < |args| && Dashes(d) && (name == "password" || name == "salt") && args[i] == d + name
    ensures Masked(args, i + 1) == "****" <==> !SecretWithValue(args[i + 1])
  {
    FlagAlone(d, name);
    hide TrimDashes;
    var a := args[i + 1];
    var (n, attached) := FlagName(a);
    if Secret(n) && attached {
      ItselfFlag(a);
      AttachedHasEquals(a);
      assert a[0] == '-';
    } else if SecretWithValue(a) {
      var e, m, v :| Dashes(e) && (m == "password" || m == "salt") && a == e + m + "=" + v;
      FlagWith(e, m, v);
    }
  }

  ghost predicate SecretAlone(a: string) {
    exists d, name :: Dashes(d) && (name == "password" || name == "salt") && a == d + name
  }

  lemma AloneFlag(a: string)
    ensures SecretAlone(a) <==> Secret(FlagName(a).0) && !FlagName(a).1
  {
    if SecretAlone(a) {
      var d, name :| Dashes(d) && (name == "password" || name == "salt") && a == d + name;
      FlagAlone(d, name);
    } else if Secret(FlagName(a).0) && !FlagName(a).1 {
      var d := DashesSplit(a);
      assert a == d + TrimDashes(a);
    }
  }

  lemma ValueFlag(a: string)
    ensures SecretWithValue(a) <==> Secret(FlagName(a).0) && FlagName(a).1
  {
    if Secret(FlagName(a).0) && FlagName(a).1 {
      ItselfFlag(a);
    }
    if d, name, v :| Dashes(d) && (name == "password" || name == "salt") && a == d + name + "=" + v {
      FlagWith(d, name, v);
    }
  }

  /** What is printed for each argument: of a secret flag with its value the flag, of
      the value behind a secret flag nothing, all else as it is. */
  lemma MaskedExactly(args: seq<string>, i: nat)
    requires i < |args|
    ensures forall d, name, v ::
              Dashes(d) && (name == "password" || name == "salt") && args[i] == d + name + "=" + v ==>
              Masked(args, i) == d + name + "=" + "****"
    ensures !SecretWithValue(args[i]) ==>
              Masked(args, i) == if i > 0 && SecretAlone(args[i - 1]) then "****" else args[i]
  {
    ValueFlag(args[i]);
    if i > 0 { AloneFlag(args[i - 1]); }
    forall d, name, v | Dashes(d) && (name == "password" || name == "salt") && args[i] == d + name + "=" + v
      ensures Masked(args, i) == d + name + "=" + "****"
    {
      FlagWith(d, name, v);
      hide FlagName, IndexByte;
      var h := d + name + "=";
      assert (h + v)[..|h|] == h;
    }
  }

  ghost predicate SecretWithValue(a: string) {
    exists d, name, v :: Dashes(d) && (name == "password" || name == "salt") && a == d + name + "=" + v
  }

  lemma {:induction false} DashesSplit(a: string) returns (d: string)
    requires HasPrefix(a, "-")
    ensures Dashes(d) && a == d + TrimDashes(a)
  {
    assert a[..1][0] == a[0] == '-';
    if HasPrefix(a[1..], "-") {
      d := DashesSplit(a[1..]);
      d := "-" + d;
    } else {
      d := "-";
      NoDash(a[1..]);
    }
    assert a == [a[0]] + a[1..];
  }

  lemma NoDash(a: string)
    requires !HasPrefix(a, "-")
    ensures TrimDashes(a) == a
  {
    assert a != "" ==> a[..1] == [a[0]];
  }

  lemma ItselfFlag(a: string)
    requires Secret(FlagName(a).0) && FlagName(a).1
    ensures SecretWithValue(a) && HasPrefix(a, "-")
  {
    var d := DashesSplit(a);
    var t := TrimDashes(a);
    var i := IndexByte(t, '=');
    assert t == t[..i] + "=" + t[i + 1..];
    assert a == d + t[..i] + "=" + t[i + 1..];
  }

  // ----- the path of the binary, which is printed unquoted

  function Printed(binary: string, args: seq<string>): string {
    Join([binary] + QuotedAll(MaskedArgs(args)), " ")
  }

  function Size(words: seq<string>): nat {
    if words == [] then 0 else |words[0]| + Size(words[1..])
  }

  lemma SizeFirst(w: string, rest: seq<string>)
    ensures Size([w] + rest) == |w| + Size(rest)
  {
    assert ([w] + rest)[1..] == rest;
  }

  /** Words are never longer than what they are read from, and as long only if every
      character stands for itself. */
  lemma {:induction false} Lossless(s: string, word: Option<string>)
    requires Words(s, word).Some?
    ensures Size(Words(s, word).value) <= |SoFar(word)| + |s|
    ensures Size(Words(s, word).value) == |SoFar(word)| + |s| ==> forall i :: 0 <= i < |s| ==> PlainByte(s[i])
    decreases |s|
  {
    hide PlainByte, Special, IndexByte;
    var most := |SoFar(word)| + |s|;
    if s == "" {
      OneSize(word);
    } else if s[0] == ' ' || s[0] == '\t' {
      Lossless(s[1..], None);
      var rest := Words(s[1..], None).value;
      OneSize(word);
      if word.Some? { SizeFirst(word.value, rest); } else { assert [] + rest == rest; }
      assert Size(Words(s, word).value) < most;
    } else if s[0] == '\'' {
      var i := IndexByte(s[1..], '\'');
      Lossless(s[i + 2..], Some(SoFar(word) + s[1..i + 1]));
      assert Size(Words(s, word).value) < most;
    } else if s[0] == '\\' {
      Lossless(s[2..], if s[1] == '\n' then word else Some(SoFar(word) + [s[1]]));
      assert Size(Words(s, word).value) < most;
    } else {
      Lossless(s[1..], Some(SoFar(word) + [s[0]]));
      Itself(s[0]);
      assert s == [s[0]] + s[1..];
    }
  }

  lemma OneSize(word: Option<string>)
    ensures Size(if word.Some? then [word.value] else []) == |SoFar(word)|
  {
    if word.Some? { SizeFirst(word.value, []); assert [word.value] + [] == [word.value]; }
  }

  lemma Itself(c: char)
    ensures !Special(c) && c != ' ' && c != '\t' && c != '\'' && c != '\\' ==> PlainByte(c)
  {
  }

  lemma PrintedAlone(binary: string)
    ensures Printed(binary, []) == binary && MaskedArgs([]) == []
  {
    assert [binary] + QuotedAll(MaskedArgs([])) == [binary];
  }

  lemma PlainPrinted(binary: string, args: seq<string>)
    requires PlainPath(binary)
    ensures Words(Printed(binary, args), None) == Some([binary] + MaskedArgs(args))
  {
    hide Words, PlainPath, MaskedArgs, QuotedAll, Join;
    JoinTail(binary, MaskedArgs(args));
    ReadPlain(binary, Tail(MaskedArgs(args)));
    ReadTail(MaskedArgs(args), Some(binary));
  }

  /** The whole line reads back, for all arguments, exactly when no character of the
      binary's path means anything to a shell. */
  lemma PrintedReadsBack(binary: string)
    ensures (forall args :: Words(Printed(binary, args), None) == Some([binary] + MaskedArgs(args))) <==>
            PlainPath(binary)
  {
    hide PlainPath, MaskedArgs, QuotedAll, Join, Printed;
    if PlainPath(binary) {
      forall args ensures Words(Printed(binary, args), None) == Some([binary] + MaskedArgs(args)) {
        PlainPrinted(binary, args);
      }
    } else if forall args :: Words(Printed(binary, args), None) == Some([binary] + MaskedArgs(args)) {
      PrintedAlone(binary);
      assert [binary] + MaskedArgs([]) == [binary];
      assert Words(Printed(binary, []), None) == Some([binary] + MaskedArgs([]));
      OneWordPlain(binary);
    }
  }

  lemma OneWordPlain(s: string)
    requires Words(s, None) == Some([s])
    ensures PlainPath(s)
  {
    Lossless(s, None);
    SizeFirst(s, []);
    assert [s] + [] == [s];
  }

  lemma Grouped(a: string, b: string, tail: string)
    ensures a + " " + b + tail == a + (" " + (b + tail))
  {
  }

  /** A path with a blank in it is printed as two words, whatever the arguments. */
  lemma {:induction false} BlankSplitsPath(a: string, b: string, args: seq<string>)
    requires PlainPath(a) && PlainPath(b)
    ensures Words(Printed(a + " " + b, args), None) == Some([a, b] + MaskedArgs(args))
  {
    hide Words, PlainPath, MaskedArgs, QuotedAll, Join, Tail;
    var masked := MaskedArgs(args);
    var tail := Tail(masked);
    JoinTail(a + " " + b, masked);
    Grouped(a, b, tail);
    ReadPlain(a, " " + (b + tail));
    ReadBlank(b + tail, Some(a));
    ReadPlain(b, tail);
    ReadTail(masked, Some(b));
    assert [a] + ([b] + masked) == [a, b] + masked;
  }
}
