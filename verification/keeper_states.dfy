/** Probe and reader agree on a member's state. */
module KeeperStates {
  import opened Wrappers
  import opened Text
  import opened FourLetter
  import opened Members
  import opened KeeperAgreement

  /** A reply the reader cannot take for a note of the collector's own. */
  ghost predicate Evident(reply: string) {
    var t := TrimSpace(reply);
    && t != "" && !HasPrefix(t, "skipped") && !HasPrefix(t, "(empty reply") && !StartsLine(t, "error:")
  }

  // ----- one section

  /** A prefix of solid ends survives trimming. */
  lemma PrefixKept(b: string, p: string)
    requires HasPrefix(b, p) && p != "" && !SpaceByte(p[0]) && !SpaceByte(p[|p| - 1])
    ensures HasPrefix(TrimSpace(b), p)
  {
    hide TrimSpace, SpaceByte;
    var n := |p|;
    assert b[..n][0] == b[0] && b[..n][n - 1] == b[n - 1];
    Kept(b, 0, n - 1);
    assert TrimSpace(b)[..n] == b[..n];
  }

  lemma NotDown(t: string)
    requires t == TrimSpace(t) && t != "" && (t[0] != 'T' || ':' in t)
    ensures !IsNotServing(t)
  {
    hide TrimSpace;
    NoColon();
    StartsThis();
  }

  lemma NoColon()
    ensures ':' !in NOT_SERVING && ':' !in ZOOKEEPER_NOT_SERVING
  {
    LineWithout(["This", "instance", "is", "not", "currently", "serving", "requests"], ':');
    LineWithout(["This", "ZooKeeper", "instance", "is", "not", "currently", "serving", "requests"], ':');
  }

  lemma StartsThis()
    ensures NOT_SERVING != "" && NOT_SERVING[0] == 'T' && ZOOKEEPER_NOT_SERVING != "" && ZOOKEEPER_NOT_SERVING[0] == 'T'
  {
    FirstWord(["This", "instance", "is", "not", "currently", "serving", "requests"]);
    FirstWord(["This", "ZooKeeper", "instance", "is", "not", "currently", "serving", "requests"]);
  }

  lemma SkippedRead(why: string, w: Wording)
    ensures HasPrefix(TrimSpace(Body(Skipped(why), w)), "skipped")
  {
    var b := Body(Skipped(why), w);
    assert b == "skipped" + (" " + DASH + " " + why);
    assert b[..7] == "skipped";
    PrefixKept(b, "skipped");
  }

  lemma EmptyRead()
    ensures HasPrefix(TrimSpace(EMPTY_REPLY), "(empty reply")
  {
    EmptyStarts();
    hide HasPrefix;
    PrefixKept(EMPTY_REPLY, "(empty reply");
  }

  lemma ErrorWord(e: NetError, truncated: bool, w: Wording)
    ensures HasPrefix(ErrorLine(e, truncated, w), "error:")
  {
    assert "error: timeout after "[..6] == "error:" && "error: connection refused"[..6] == "error:"
        && "error: "[..6] == "error:" && "error: (message withheld in gov mode)"[..6] == "error:";
  }

  /** A lost command leaves a line that begins "error:". */
  lemma LostRead(partial: string, e: NetError, w: Wording)
    ensures var t := TrimSpace(Body(Heard(Lost(partial, e)), w)); StartsLine(t, "error:") && ':' in t
  {
    var shown := TrimNewlines(partial);
    var line := ErrorLine(e, shown != "", w);
    var before := if shown != "" then shown + "\n" else "";
    var b := Body(Heard(Lost(partial, e)), w);
    hide TrimNewlines, ErrorLine, TrimSpace, StartsLine;
    assert b == before + line;
    ErrorWord(e, shown != "", w);
    ErrorKept(before, line);
  }

  lemma ErrorKept(before: string, line: string)
    requires HasPrefix(line, "error:") && (before == "" || before[|before| - 1] == '\n')
    ensures StartsLine(TrimSpace(before + line), "error:") && ':' in TrimSpace(before + line)
  {
    hide TrimSpace, Lead;
    var b, n := before + line, |before|;
    assert b[n..] == line;
    assert line[..6][0] == line[0] && line[..6][5] == line[5];
    assert b[n] == 'e' && b[n + 5] == ':';
    assert !SpaceByte('e') && !SpaceByte(':');
    Kept(b, n, n + 5);
    StartsKept(b, |Lead(b)|, |TrimSpace(b)|, n);
    var k := LineAt(TrimSpace(b), "error:", n - |Lead(b)|);
  }

  lemma StartsKept(b: string, a: nat, m: nat, n: nat)
    requires a <= n && n + 6 <= a + m <= |b| && HasPrefix(b[n..], "error:") && (n == 0 || b[n - 1] == '\n')
    ensures var t := b[a..a + m];
            HasPrefix(t[n - a..], "error:") && ':' in t && (n == a || t[n - a - 1] == '\n')
  {
    var t := b[a..a + m];
    assert t[n - a..][..6] == b[n..][..6];
    assert b[n..][..6][5] == b[n + 5];
    assert t[n + 5 - a] == b[n + 5];
    if n > a {
      assert t[n - a - 1] == b[n - 1];
    }
  }

  /** The reader sees the not-serving answer exactly where the probe did. */
  lemma DownSeen(s: Section, w: Wording)
    ensures IsNotServing(TrimSpace(Body(s, w))) <==> NotServingIn(s)
  {
    var t := TrimSpace(Body(s, w));
    TrimTwice(Body(s, w));
    match s
    case Skipped(why) =>
      SkippedRead(why, w);
      assert t[..7][0] == t[0];
      hide TrimSpace, Body, IsNotServing;
      NotDown(t);
    case Heard(Lost(partial, e)) =>
      LostRead(partial, e, w);
      hide TrimSpace, Body, IsNotServing;
      NotDown(t);
    case Heard(Reply(text)) =>
      if TrimNewlines(text) == "" {
        EmptyRead();
        assert t[..12][0] == t[0];
        hide TrimSpace, Body, IsNotServing;
        NotDown(t);
      }
  }

  /** The reader takes a section for evidence exactly when the probe counted its
      reply and the reply is evident. */
  lemma AnswerSeen(s: Section, w: Wording)
    ensures Answered(TrimSpace(Body(s, w))) <==> AnsweredIn(s) && Evident(TrimNewlines(s.answer.text))
  {
    hide TrimSpace, IsNotServing, StartsLine, TrimNewlines, ErrorLine;
    DownSeen(s, w);
    match s
    case Skipped(why) => SkippedRead(why, w);
    case Heard(Lost(partial, e)) => LostRead(partial, e, w);
    case Heard(Reply(text)) => EmptyRead();
  }

  // ----- the whole file

  lemma Down(sec: map<string, string>, sections: seq<Section>, w: Wording)
    requires |sections| == |COMMANDS| && Recovers(sec, sections, w)
    ensures SaysDown(sec) <==> exists i :: 0 <= i < |sections| && NotServingIn(sections[i])
  {
    hide NotServingIn, IsNotServing, TrimSpace, Body;
    forall i | 0 <= i < |sections| ensures IsNotServing(sec[COMMANDS[i]]) <==> NotServingIn(sections[i]) {
      DownSeen(sections[i], w);
    }
    assert COMMANDS[..7] == COMMANDS;
    if SaysDown(sec) {
      var cmd :| cmd in sec && IsNotServing(sec[cmd]);
      assert cmd in COMMANDS;
      var i :| 0 <= i < |COMMANDS| && COMMANDS[i] == cmd;
      assert NotServingIn(sections[i]);
    }
    if i :| 0 <= i < |sections| && NotServingIn(sections[i]) {
      assert COMMANDS[i] in sec && IsNotServing(sec[COMMANDS[i]]);
    }
  }

  lemma Evidence(sec: map<string, string>, sections: seq<Section>, w: Wording, i: nat)
    requires |sections| == |COMMANDS| && Recovers(sec, sections, w) && i < |sections|
    ensures Answered(BodyIn(sec, COMMANDS[i])) <==>
            AnsweredIn(sections[i]) && Evident(TrimNewlines(sections[i].answer.text))
  {
    hide Answered, AnsweredIn, Evident, TrimNewlines, TrimSpace, Body;
    AnswerSeen(sections[i], w);
    AnsweredReply(sections[i]);
  }

  lemma AnsweredReply(s: Section)
    ensures AnsweredIn(s) ==> s.Heard? && s.answer.Reply?
  {
  }

  lemma LostKinds(s: Section)
    ensures RefusedIn(s) || TimedOutIn(s) ==> LostIn(s)
  {
  }

  lemma ErrorThere(sec: map<string, string>, sections: seq<Section>, w: Wording, i: nat)
    requires |sections| == |COMMANDS| && Recovers(sec, sections, w) && i < |sections| && LostIn(sections[i])
    ensures HasError(sec)
  {
    hide TrimSpace, Body, StartsLine;
    LostRead(sections[i].answer.partial, sections[i].answer.error, w);
    assert COMMANDS[i] in sec && StartsLine(sec[COMMANDS[i]], "error:");
  }

  /** A written file that no reply or error text puts a heading into. */
  ghost predicate Written(t: Target, sections: seq<Section>, w: Wording, text: string) {
    && |sections| == |COMMANDS| && PlainTarget(t) && Clean(sections, w)
    && text == Header(t) + Sections(sections, w)
  }

  /** The probe's verdict is "not serving" exactly when the reader's state is. */
  lemma NotServingAgrees(t: Target, sections: seq<Section>, w: Wording, text: string)
    requires Written(t, sections, w, text)
    ensures Verdict(TallyOf(sections)) == "not serving" <==> StateOf(Parse(text)) == "not serving"
  {
    hide Header, Sections, Clean, PlainTarget, Parse, TallyOf, Recovers, NotServingIn, SaysDown, Answered, HasError;
    hide AnsweredIn;
    SectionsRecovered(t, sections, w);
    VerdictMeans(sections);
    Down(Parse(text), sections, w);
  }

  /** A member whose verdict is "ok" is read as serving exactly when its srvr or mntr
      reply is evident. */
  lemma OkServes(t: Target, sections: seq<Section>, w: Wording, text: string)
    requires Written(t, sections, w, text) && Verdict(TallyOf(sections)) == "ok"
    ensures AnsweredIn(sections[3]) && AnsweredIn(sections[4])
    ensures StateOf(Parse(text)) == "serving" <==>
            Evident(TrimNewlines(sections[3].answer.text)) || Evident(TrimNewlines(sections[4].answer.text))
  {
    hide Header, Sections, Clean, PlainTarget, Parse, TallyOf, Recovers, NotServingIn, SaysDown, Answered, HasError;
    hide AnsweredIn, Evident, TrimNewlines, BodyIn;
    SectionsRecovered(t, sections, w);
    VerdictMeans(sections);
    Down(Parse(text), sections, w);
    AnsweredReply(sections[3]);
    AnsweredReply(sections[4]);
    Evidence(Parse(text), sections, w, 3);
    Evidence(Parse(text), sections, w, 4);
    assert COMMANDS[3] == "srvr" && COMMANDS[4] == "mntr";
  }

  /** A member the probe could not reach is read as such, and never as serving. */
  lemma LostProbeFails(t: Target, sections: seq<Section>, w: Wording, text: string)
    requires Written(t, sections, w, text)
    requires Verdict(TallyOf(sections)) == "refused" || Verdict(TallyOf(sections)) == "timeout"
    ensures StateOf(Parse(text)) == "probe failed"
  {
    hide Header, Sections, Clean, PlainTarget, Parse, TallyOf, Recovers, NotServingIn, SaysDown, Answered, HasError;
    hide AnsweredIn, Evident, TrimNewlines, BodyIn;
    SectionsRecovered(t, sections, w);
    VerdictMeans(sections);
    Down(Parse(text), sections, w);
    Evidence(Parse(text), sections, w, 3);
    Evidence(Parse(text), sections, w, 4);
    assert COMMANDS[3] == "srvr" && COMMANDS[4] == "mntr";
    var i :| 0 <= i < |sections| && (RefusedIn(sections[i]) || TimedOutIn(sections[i]));
    LostKinds(sections[i]);
    ErrorThere(Parse(text), sections, w, i);
  }

  // ----- a member without a quorum

  /** A member that answers some command with the sentence of a member without a
      quorum is "not serving", to the probe and to the reader of its file alike, and
      no other member is. */
  lemma NoQuorumSeen(t: Target, sections: seq<Section>, w: Wording, text: string)
    requires Written(t, sections, w, text)
    ensures var said := exists i :: 0 <= i < |sections| && SaysNoQuorum(sections[i]);
            && (Verdict(TallyOf(sections)) == "not serving" <==> said)
            && (StateOf(Parse(text)) == "not serving" <==> said)
  {
    hide Header, Sections, Clean, PlainTarget, Parse, TallyOf, NotServingIn, SaysNoQuorum, StateOf, AnsweredIn;
    NotServingAgrees(t, sections, w, text);
    VerdictMeans(sections);
    forall i | 0 <= i < |sections| ensures NotServingIn(sections[i]) <==> SaysNoQuorum(sections[i]) {
      QuorumIs(sections[i]);
    }
  }

  // ----- an "ok" member that is not read as serving

  const NOTE_LIKE := Heard(Reply("skipped"))

  function AllNotes(): seq<Section> {
    [NOTE_LIKE, NOTE_LIKE, NOTE_LIKE, NOTE_LIKE, NOTE_LIKE, NOTE_LIKE, NOTE_LIKE]
  }

  lemma NoteLike()
    ensures TrimNewlines("skipped") == "skipped" && AnsweredIn(NOTE_LIKE) && !NotServingIn(NOTE_LIKE)
    ensures !Evident("skipped") && PlainAnswer(Reply("skipped"))
  {
    hide TrimSpace, IsNotServing, NoHeading;
    var s := "skipped";
    assert s[6] == 'd' && s[..7] == s;
    Trims(s);
    PrefixKept(s, s);
    TrimTwice(s);
    var t := TrimSpace(s);
    assert t[..7][0] == t[0];
    OneLineBody(s);
    NotDown(t);
    SameDown(s);
  }

  lemma Trims(s: string)
    requires s != "" && s[|s| - 1] != '\n'
    ensures TrimNewlines(s) == s
  {
  }

  lemma SameDown(s: string)
    ensures IsNotServing(TrimSpace(s)) <==> IsNotServing(s)
  {
    TrimTwice(s);
  }

  /** A member may answer every command with a line that begins like a note of the
      collector's own: the verdict is "ok", but it is not read as serving. */
  lemma OkUnread(t: Target, w: Wording)
    requires PlainTarget(t) && '\n' !in w.readTimeout
    ensures var text := Header(t) + Sections(AllNotes(), w);
            && Written(t, AllNotes(), w, text)
            && Verdict(TallyOf(AllNotes())) == "ok" && StateOf(Parse(text)) != "serving"
  {
    hide Header, Sections, Clean, PlainTarget, Parse, TallyOf, StateOf, Verdict, AnsweredIn, NotServingIn, Evident;
    hide TrimNewlines, PlainAnswer;
    var ss := AllNotes();
    NoteLike();
    assert forall i :: 0 <= i < |ss| ==> ss[i] == NOTE_LIKE;
    CleanFile(ss, 7, w);
    VerdictMeans(ss);
    OkServes(t, ss, w, Header(t) + Sections(ss, w));
  }
}
