/** The probe's file and its reader agree about every section of a member's file.
    The reader splits at a mark, a line break and "## "; the file's own headings are
    the only places where that mark stands, as long as no reply, partial reply or error
    text has a line that begins like a heading. */
module KeeperAgreement {
  import opened Wrappers
  import opened Text
  import opened FourLetter
  import opened Members

  // ----- where headings can stand

  /** No heading mark occurs in s. */
  ghost predicate NoMark(s: string) {
    forall i :: 0 <= i <= |s| ==> !HasPrefix(s[i..], MARK)
  }

  /** No line of t begins like a heading. */
  ghost predicate NoHeading(t: string) {
    NoMark("\n" + t)
  }

  lemma Within(a: string, b: string, i: nat)
    requires i + |MARK| <= |a|
    ensures HasPrefix((a + b)[i..], MARK) <==> HasPrefix(a[i..], MARK)
  {
    assert (a + b)[i..][..|MARK|] == a[i..][..|MARK|];
  }

  lemma NotBefore(a: string, b: string, i: nat)
    requires NoMark(a) && (b == "" || b[0] == '\n') && i < |a|
    ensures !HasPrefix((a + b)[i..], MARK)
  {
    if i + |MARK| <= |a| {
      Within(a, b, i);
    } else if b != "" && i + |MARK| <= |a| + |b| {
      var t := (a + b)[i..][..|MARK|];
      assert t[|a| - i] == b[0] == '\n';
      assert MARK[|a| - i] != '\n';
    }
  }

  lemma Join2(a: string, b: string)
    requires NoMark(a) && NoMark(b) && (b == "" || b[0] == '\n')
    ensures NoMark(a + b)
  {
    forall i | 0 <= i <= |a + b| ensures !HasPrefix((a + b)[i..], MARK) {
      if i < |a| {
        NotBefore(a, b, i);
      } else {
        assert (a + b)[i..] == b[i - |a|..];
      }
    }
  }

  lemma Part(s: string, i: nat, j: nat)
    requires NoMark(s) && i <= j <= |s|
    ensures NoMark(s[i..j])
  {
    forall k | 0 <= k <= j - i ensures !HasPrefix(s[i..j][k..], MARK) {
      if k + |MARK| <= j - i {
        assert s[i..j][k..][..|MARK|] == s[i + k..][..|MARK|];
      }
    }
  }

  lemma OneLineNoMark(s: string)
    requires '\n' !in s
    ensures NoMark(s)
  {
    forall i | 0 <= i <= |s| ensures !HasPrefix(s[i..], MARK) {
      if i + |MARK| <= |s| {
        assert s[i..][..|MARK|][0] == s[i];
        assert s[i] in s;
      }
    }
  }

  /** A line break before text that does not begin like a heading. */
  lemma LineNoMark(x: string)
    requires x != "" && x[0] != '#' && NoMark(x)
    ensures NoHeading(x)
  {
    var t := "\n" + x;
    forall i | 0 <= i <= |t| ensures !HasPrefix(t[i..], MARK) {
      if i == 0 {
        assert |t| >= 4 ==> t[0..][..4][1] == x[0];
      } else {
        assert t[i..] == x[i - 1..];
      }
    }
  }

  // ----- splitting

  lemma IndexIs(s: string, sub: string, k: nat)
    requires k <= |s| && HasPrefix(s[k..], sub) && forall i :: 0 <= i < k ==> !HasPrefix(s[i..], sub)
    ensures Index(s, sub) == k
  {
  }

  lemma MarkAfter(x: string, part: string)
    requires NoMark(x)
    ensures Index(x + (MARK + part), MARK) == |x|
  {
    var s := x + (MARK + part);
    forall j | 0 <= j < |x| ensures !HasPrefix(s[j..], MARK) {
      NotBefore(x, MARK + part, j);
    }
    assert s[|x|..] == MARK + part;
    IndexIs(s, MARK, |x|);
  }

  lemma MarkInside(x: string, more: string)
    requires Index(x, MARK) >= 0
    ensures Index(x + more, MARK) == Index(x, MARK) && Index(x, MARK) + 4 <= |x|
  {
    var i := Index(x, MARK);
    forall j | 0 <= j < i ensures !HasPrefix((x + more)[j..], MARK) {
      Within(x, more, j);
    }
    Within(x, more, i);
    IndexIs(x + more, MARK, i);
  }

  lemma NoIndex(x: string)
    ensures Index(x, MARK) < 0 ==> NoMark(x)
  {
  }

  lemma Cuts(x: string, more: string, i: nat, j: nat)
    requires i <= j <= |x|
    ensures (x + more)[..i] == x[..i] && (x + more)[j..] == x[j..] + more
  {
  }

  /** One more part behind a mark. */
  lemma {:induction false} SplitNext(x: string, part: string)
    requires NoMark(part)
    ensures SplitAt(x + (MARK + part), MARK) == SplitAt(x, MARK) + [part]
    decreases |x|
  {
    hide NoMark, HasPrefix, Index;
    var s, i := x + (MARK + part), Index(x, MARK);
    if i < 0 {
      NoIndex(x);
      MarkAfter(x, part);
      assert s[..|x|] == x && s[|x| + 4..] == part;
      LastPart(part);
    } else {
      MarkInside(x, MARK + part);
      Cuts(x, MARK + part, i, i + 4);
      SplitNext(x[i + 4..], part);
      assert [x[..i]] + (SplitAt(x[i + 4..], MARK) + [part]) == [x[..i]] + SplitAt(x[i + 4..], MARK) + [part];
    }
  }

  lemma LastPart(part: string)
    requires NoMark(part)
    ensures SplitAt(part, MARK) == [part]
  {
    assert Index(part, MARK) < 0;
  }

  function PartOf(cmd: string, s: Section, w: Wording): string {
    cmd + "\n" + Body(s, w) + "\n"
  }

  function PartsOf(sections: seq<Section>, w: Wording): seq<string>
    requires |sections| <= |COMMANDS|
  {
    if sections == [] then []
    else
      var n := |sections| - 1;
      PartsOf(sections[..n], w) + [PartOf(COMMANDS[n], sections[n], w)]
  }

  /** No section's text brings a heading of its own. */
  ghost predicate Clean(sections: seq<Section>, w: Wording) {
    forall i :: 0 <= i < |sections| ==> NoHeading(Body(sections[i], w))
  }

  lemma Command(i: nat)
    requires i < |COMMANDS|
    ensures |COMMANDS[i]| == 4 && (forall j :: 0 <= j < 4 ==> 'a' <= COMMANDS[i][j] <= 'z')
    ensures '\n' !in COMMANDS[i]
  {
  }

  lemma PartNoMark(i: nat, s: Section, w: Wording)
    requires i < |COMMANDS| && NoHeading(Body(s, w))
    ensures NoMark(PartOf(COMMANDS[i], s, w))
  {
    hide Body;
    var cmd, b := COMMANDS[i], Body(s, w);
    Command(i);
    OneLineNoMark(cmd);
    Join2(cmd, "\n" + b);
    LoneBreak();
    Join2(cmd + ("\n" + b), "\n");
    assert cmd + ("\n" + b) + "\n" == PartOf(cmd, s, w);
  }

  lemma LoneBreak()
    ensures NoMark("\n")
  {
  }

  lemma MarkPart(a: string, done: string, cmd: string, s: Section, w: Wording)
    ensures a + (done + SectionText(cmd, s, w)) == (a + done) + (MARK + PartOf(cmd, s, w))
  {
    hide Body;
    var b := Body(s, w);
    assert SectionText(cmd, s, w) == MARK + PartOf(cmd, s, w);
  }

  lemma {:induction false} SectionsSplit(a: string, sections: seq<Section>, w: Wording)
    requires NoMark(a) && |sections| <= |COMMANDS| && Clean(sections, w)
    ensures SplitAt(a + Sections(sections, w), MARK) == [a] + PartsOf(sections, w)
  {
    hide Body, NoMark, NoHeading, SectionText, PartOf, SplitAt;
    if sections == [] {
      assert a + Sections(sections, w) == a;
      LastPart(a);
    } else {
      var n := |sections| - 1;
      var done := Sections(sections[..n], w);
      assert forall i :: 0 <= i < n ==> sections[..n][i] == sections[i];
      SectionsSplit(a, sections[..n], w);
      PartNoMark(n, sections[n], w);
      MarkPart(a, done, COMMANDS[n], sections[n], w);
      SplitNext(a + done, PartOf(COMMANDS[n], sections[n], w));
    }
  }

  // ----- the parts as sections

  lemma LineIndex(a: string, b: string)
    requires '\n' !in a
    ensures Index(a + ("\n" + b), "\n") == |a|
  {
    var s := a + ("\n" + b);
    forall j | 0 <= j < |a| ensures !HasPrefix(s[j..], "\n") {
      assert s[j..][..1][0] == a[j] && a[j] in a;
    }
    assert s[|a|..] == "\n" + b;
    IndexIs(s, "\n", |a|);
  }

  /** A part is read as its command and the trimmed text under it. */
  lemma PartRead(i: nat, s: Section, w: Wording)
    requires i < |COMMANDS|
    ensures NameOf(PartOf(COMMANDS[i], s, w)) == COMMANDS[i]
    ensures BodyOf(PartOf(COMMANDS[i], s, w)) == TrimSpace(Body(s, w))
  {
    hide Body, TrimSpace, Index, SpaceByte;
    var cmd, b := COMMANDS[i], Body(s, w);
    var part := PartOf(cmd, s, w);
    Command(i);
    assert part == cmd + ("\n" + (b + "\n"));
    LineIndex(cmd, b + "\n");
    assert part[..|cmd|] == cmd && part[|cmd| + 1..] == b + "\n";
    Letters(cmd);
    TrimFixed(cmd);
    TrimBreak(b);
  }

  lemma Letters(cmd: string)
    requires forall j :: 0 <= j < |cmd| ==> 'a' <= cmd[j] <= 'z'
    ensures forall j :: 0 <= j < |cmd| ==> !SpaceByte(cmd[j])
  {
  }

  /** The read sections are the written ones, each under its command. */
  ghost predicate Recovers(sec: map<string, string>, sections: seq<Section>, w: Wording)
    requires |sections| <= |COMMANDS|
  {
    && (forall cmd :: cmd in sec <==> cmd in COMMANDS[..|sections|])
    && forall i :: 0 <= i < |sections| ==> COMMANDS[i] in sec && sec[COMMANDS[i]] == TrimSpace(Body(sections[i], w))
  }

  lemma {:induction false} PartsRead(sections: seq<Section>, w: Wording)
    requires |sections| <= |COMMANDS|
    ensures Recovers(SectionsOf(PartsOf(sections, w)), sections, w)
  {
    hide Body, TrimSpace, PartOf, NameOf, BodyOf;
    if sections != [] {
      var n := |sections| - 1;
      PartsRead(sections[..n], w);
      PartRead(n, sections[n], w);
      OneMore(SectionsOf(PartsOf(sections[..n], w)), sections, n, w);
      var parts := PartsOf(sections, w);
      assert parts[..|parts| - 1] == PartsOf(sections[..n], w);
    }
  }

  lemma OneMore(sec: map<string, string>, sections: seq<Section>, n: nat, w: Wording)
    requires |sections| == n + 1 <= |COMMANDS| && Recovers(sec, sections[..n], w)
    ensures Recovers(sec[COMMANDS[n] := TrimSpace(Body(sections[n], w))], sections, w)
  {
    hide Body, TrimSpace;
    Different(n);
    assert COMMANDS[..n + 1] == COMMANDS[..n] + [COMMANDS[n]];
    forall i | 0 <= i < n ensures sections[..n][i] == sections[i] && COMMANDS[i] != COMMANDS[n] {
    }
  }

  lemma Different(n: nat)
    requires n < |COMMANDS|
    ensures forall i :: 0 <= i < n ==> COMMANDS[i] != COMMANDS[n]
  {
    assert COMMANDS[0][0] == 'r' && COMMANDS[1][0] == 'i' && COMMANDS[2][0] == 'l' && COMMANDS[3][0] == 's'
        && COMMANDS[4][0] == 'm' && COMMANDS[5][0] == 'c' && COMMANDS[6][0] == 'd';
  }

  /** The header's values are single lines. */
  predicate PlainTarget(t: Target) {
    '\n' !in t.name && '\n' !in t.port && '\n' !in t.ensemble && '\n' !in t.collectedAt
  }

  /** Parsing a written file recovers every section, in full and nothing else, as
      long as no reply or error text has a line that begins like a heading. */
  lemma SectionsRecovered(t: Target, sections: seq<Section>, w: Wording)
    requires |sections| <= |COMMANDS| && PlainTarget(t) && Clean(sections, w)
    ensures Recovers(Parse(Header(t) + Sections(sections, w)), sections, w)
  {
    hide Header, Sections, Clean, NoMark, Recovers, SectionsOf, SplitAt, PlainTarget;
    var a := "\n" + Header(t);
    HeaderNoMark(t);
    SectionsSplit(a, sections, w);
    assert "\n" + (Header(t) + Sections(sections, w)) == a + Sections(sections, w);
    PartsRead(sections, w);
    assert ([a] + PartsOf(sections, w))[1..] == PartsOf(sections, w);
  }

  /** Whole lines without a heading. */
  ghost predicate Lines(a: string) {
    a != "" && a[|a| - 1] == '\n' && NoMark(a)
  }

  lemma SignedLine(a: string, x: string)
    requires Lines(a) && '\n' !in x
    ensures Lines(a + ("# " + x + "\n"))
  {
    var b := "# " + x + "\n";
    var s, n := a + b, |a|;
    assert s[n] == '#' && s[n + 1] == ' ' && s[|s| - 1] == '\n';
    forall i | 0 <= i <= |s| ensures !HasPrefix(s[i..], MARK) {
      if i + 4 <= n {
        Within(a, b, i);
      } else if i + 4 <= |s| {
        var t := s[i..][..4];
        assert t[0] == s[i] && t[1] == s[i + 1] && t[2] == s[i + 2] && t[3] == s[i + 3];
        if i >= n + 2 {
          assert s[i] == x[i - n - 2] && x[i - n - 2] in x;
        }
      }
    }
  }

  lemma {:induction false} SignedLines(lines: seq<string>)
    requires forall i :: 0 <= i < |lines| ==> '\n' !in lines[i]
    ensures Lines("\n" + Signed(lines))
  {
    hide Lines;
    if lines == [] {
      OneBreak();
      assert "\n" + Signed([]) == "\n";
    } else {
      var n := |lines| - 1;
      SignedLines(lines[..n]);
      SignedLine("\n" + Signed(lines[..n]), lines[n]);
      assert "\n" + Signed(lines) == "\n" + Signed(lines[..n]) + ("# " + lines[n] + "\n");
    }
  }

  lemma OneBreak()
    ensures Lines("\n")
  {
    LoneBreak();
  }

  lemma HeaderNoMark(t: Target)
    requires PlainTarget(t)
    ensures NoMark("\n" + Header(t))
  {
    hide NoMark;
    PlainTitle();
    PlainNote();
    var ls := HeaderLines(t);
    forall i | 0 <= i < |ls| ensures '\n' !in ls[i] {
    }
    SignedLines(ls);
  }

  lemma PlainJoin(a: string, b: string)
    requires '\n' !in a && '\n' !in b
    ensures '\n' !in a + b
  {
  }

  lemma PlainTitle()
    ensures '\n' !in TITLE
  {
    LineWithout(["clickhouse-diagnostic", DASH, "Keeper", "four-letter", "commands"], '\n');
  }

  lemma PlainNote()
    ensures '\n' !in NOTE
  {
    LineWithout(["commands:", "ruok,", "isro,", "lgif,", "srvr,", "mntr,", "conf,", "dirs", "(stat/cons", "are",
                 "never", "sent", DASH, "they", "list", "client", "addresses)"], '\n');
  }

  // ----- which answers keep a file clean

  /** No line of what the member sent, and of an error's message, begins like a heading. */
  ghost predicate PlainAnswer(a: Answer) {
    match a
    case Reply(text) => NoHeading(text)
    case Lost(partial, e) => NoHeading(partial) && (e.Broken? ==> NoHeading(e.message))
  }

  lemma OneLineBody(x: string)
    requires x != "" && x[0] != '#' && '\n' !in x
    ensures NoHeading(x)
  {
    OneLineNoMark(x);
    LineNoMark(x);
  }

  lemma TrimmedPrefix(s: string)
    ensures |TrimNewlines(s)| <= |s| && TrimNewlines(s) == s[..|TrimNewlines(s)|]
  {
  }

  lemma ShownClean(t: string)
    requires NoHeading(t)
    ensures NoHeading(TrimNewlines(t))
  {
    hide TrimNewlines;
    var n := |TrimNewlines(t)|;
    TrimmedPrefix(t);
    Part("\n" + t, 0, 1 + n);
    assert ("\n" + t)[0..1 + n] == "\n" + TrimNewlines(t);
  }

  lemma EmptyClean()
    ensures NoHeading(EMPTY_REPLY)
  {
    PlainEmpty();
    EmptyStarts();
    assert EMPTY_REPLY[0] == EMPTY_REPLY[..12][0];
    OneLineBody(EMPTY_REPLY);
  }

  lemma EmptyStarts()
    ensures HasPrefix(EMPTY_REPLY, "(empty reply")
  {
    var words := ["(empty", "reply", DASH, "command", "not", "enabled", "in", "four_letter_word_white_list,",
                  "or", "not", "known", "to", "this", "Keeper", "version)"];
    FirstWord(words);
    FirstWord(words[1..]);
    var tail := " " + Line(words[1..][1..]);
    hide Line;
    assert "(empty" + " " + ("reply" + tail) == "(empty reply" + tail;
    assert EMPTY_REPLY == "(empty reply" + tail;
    assert ("(empty reply" + tail)[..12] == "(empty reply";
  }

  lemma PlainEmpty()
    ensures '\n' !in EMPTY_REPLY
  {
    LineWithout(["(empty", "reply", DASH, "command", "not", "enabled", "in", "four_letter_word_white_list,",
                 "or", "not", "known", "to", "this", "Keeper", "version)"], '\n');
  }

  lemma ErrorClean(e: NetError, truncated: bool, w: Wording)
    requires '\n' !in w.readTimeout && (e.Broken? ==> NoHeading(e.message))
    ensures NoHeading(ErrorLine(e, truncated, w))
  {
    match e
    case Timeout(_) => TimeoutClean(truncated, w);
    case ConnectionRefused(_) => OneLineBody("error: connection refused");
    case Broken(message) =>
      if w.gov {
        WithheldClean();
      } else {
        MessageClean(message);
      }
  }

  lemma TimeoutClean(truncated: bool, w: Wording)
    requires '\n' !in w.readTimeout
    ensures NoHeading("error: timeout after " + w.readTimeout +
                      if truncated then " " + DASH + " reply truncated" else "")
  {
    hide NoHeading;
    var a, tail := "error: timeout after ", if truncated then " " + DASH + " reply truncated" else "";
    assert a[0] == 'e';
    PlainJoin(a, w.readTimeout);
    PlainJoin(a + w.readTimeout, tail);
    OneLineBody(a + w.readTimeout + tail);
  }

  lemma WithheldClean()
    ensures NoHeading("error: (message withheld in gov mode)")
  {
    var x, y := "error: (message", " withheld in gov mode)";
    assert "error: (message withheld in gov mode)" == x + y;
    PlainJoin(x, y);
    OneLineBody(x + y);
  }

  lemma MessageClean(message: string)
    requires NoHeading(message)
    ensures NoHeading("error: " + message)
  {
    Part("\n" + message, 1, 1 + |message|);
    assert ("\n" + message)[1..1 + |message|] == message;
    PrefixNoMark("error: ", message);
    LineNoMark("error: " + message);
  }

  lemma PrefixNoMark(a: string, m: string)
    requires '\n' !in a && NoMark(m)
    ensures NoMark(a + m)
  {
    forall i | 0 <= i <= |a + m| ensures !HasPrefix((a + m)[i..], MARK) {
      if i < |a| {
        assert (a + m)[i] == a[i] && a[i] in a;
        assert i + 4 <= |a + m| ==> (a + m)[i..][..4][0] == a[i];
      } else {
        assert (a + m)[i..] == m[i - |a|..];
      }
    }
  }

  lemma StopOneLine(i: nat, e: NetError)
    requires i < |COMMANDS|
    ensures '\n' !in StopReason(COMMANDS[i], e)
  {
    Command(i);
    PlainJoin(COMMANDS[i], " timed out");
    PlainJoin(COMMANDS[i], " failed");
  }

  lemma HeardClean(a: Answer, w: Wording)
    requires PlainAnswer(a) && '\n' !in w.readTimeout
    ensures NoHeading(Body(Heard(a), w))
  {
    hide NoMark, TrimNewlines, ErrorLine;
    match a
    case Reply(text) =>
      ShownClean(text);
      EmptyClean();
    case Lost(partial, e) =>
      var shown := TrimNewlines(partial);
      ShownClean(partial);
      ErrorClean(e, shown != "", w);
      if shown != "" {
        Join2("\n" + shown, "\n" + ErrorLine(e, true, w));
        assert "\n" + shown + ("\n" + ErrorLine(e, true, w)) == "\n" + (shown + "\n" + ErrorLine(e, true, w));
      } else {
        assert "" + ErrorLine(e, false, w) == ErrorLine(e, false, w);
      }
  }

  lemma SkippedClean(why: string, w: Wording)
    requires '\n' !in why
    ensures NoHeading(Body(Skipped(why), w))
  {
    var a := "skipped " + DASH + " ";
    assert a[0] == 's';
    PlainJoin(a, why);
    OneLineBody(a + why);
  }

  /** Answers without heading lines make a clean file. */
  lemma CleanFile(sections: seq<Section>, asked: nat, w: Wording)
    requires Orderly(sections, asked) && '\n' !in w.readTimeout
    requires forall i :: 0 <= i < asked ==> PlainAnswer(sections[i].answer)
    ensures Clean(sections, w)
  {
    hide NoHeading, Body, PlainAnswer, StopReason;
    forall i | 0 <= i < |sections| ensures NoHeading(Body(sections[i], w)) {
      if i < asked {
        HeardClean(sections[i].answer, w);
      } else {
        StopOneLine(asked - 1, sections[asked - 1].answer.error);
        SkippedClean(sections[i].why, w);
      }
    }
  }
}
