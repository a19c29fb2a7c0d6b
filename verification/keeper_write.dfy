/** The Keeper probe; a member's answers are arbitrary. */
module FourLetter {
  import opened Wrappers
  import opened Text
  import Executor

  const COMMANDS := ["ruok", "isro", "lgif", "srvr", "mntr", "conf", "dirs"]
  const CORE := {"ruok", "srvr", "mntr"}
  const DASH := "\U{E2}\U{80}\U{94}"

  const NOT_SERVING := Line(["This", "instance", "is", "not", "currently", "serving", "requests"])
  const ZOOKEEPER_NOT_SERVING := Line(["This", "ZooKeeper", "instance", "is", "not", "currently", "serving",
                                       "requests"])
  const EMPTY_REPLY := Line(["(empty", "reply", DASH, "command", "not", "enabled", "in", "four_letter_word_white_list,",
                             "or", "not", "known", "to", "this", "Keeper", "version)"])

  /** A line, word by word. */
  function Line(words: seq<string>): string {
    Join(words, " ")
  }

  lemma {:induction false} LineWithout(words: seq<string>, c: char)
    requires c != ' ' && forall i :: 0 <= i < |words| ==> c !in words[i]
    ensures c !in Line(words)
  {
    if |words| > 1 {
      LineWithout(words[1..], c);
      Without(words[0], " ", c);
      Without(words[0] + " ", Line(words[1..]), c);
    }
  }

  lemma Without(a: string, b: string, c: char)
    requires c !in a && c !in b
    ensures c !in a + b
  {
  }

  lemma FirstWord(words: seq<string>)
    requires |words| > 1
    ensures Line(words) == words[0] + " " + Line(words[1..])
  {
  }

  predicate IsNotServing(reply: string) {
    var t := TrimSpace(reply);
    t == NOT_SERVING || t == ZOOKEEPER_NOT_SERVING
  }

  function TrimNewlines(s: string): string {
    if s != "" && s[|s| - 1] == '\n' then TrimNewlines(s[..|s| - 1]) else s
  }

  // ----- answers and sections

  datatype NetError = Timeout(message: string) | ConnectionRefused(message: string) | Broken(message: string)

  /** A reply, or a failure with what had arrived before it. */
  datatype Answer = Reply(text: string) | Lost(partial: string, error: NetError)

  datatype Section = Heard(answer: Answer) | Skipped(why: string)

  /** How errors are worded: the read timeout as printed, and whether messages are withheld. */
  datatype Wording = Wording(readTimeout: string, gov: bool)

  function ErrorLine(e: NetError, truncated: bool, w: Wording): string {
    match e
    case Timeout(_) =>
      "error: timeout after " + w.readTimeout + if truncated then " " + DASH + " reply truncated" else ""
    case ConnectionRefused(_) => "error: connection refused"
    case Broken(message) => if w.gov then "error: (message withheld in gov mode)" else "error: " + message
  }

  function StopReason(cmd: string, e: NetError): string {
    match e
    case Timeout(_) => cmd + " timed out"
    case ConnectionRefused(_) => "connection refused"
    case Broken(_) => cmd + " failed"
  }

  /** What stands under a command's heading, the last line break left off. */
  function Body(s: Section, w: Wording): string {
    match s
    case Skipped(why) => "skipped " + DASH + " " + why
    case Heard(Lost(partial, e)) =>
      var shown := TrimNewlines(partial);
      (if shown != "" then shown + "\n" else "") + ErrorLine(e, shown != "", w)
    case Heard(Reply(text)) => if TrimNewlines(text) == "" then EMPTY_REPLY else TrimNewlines(text)
  }

  function SectionText(cmd: string, s: Section, w: Wording): string {
    "\n## " + cmd + "\n" + Body(s, w) + "\n"
  }

  function Sections(sections: seq<Section>, w: Wording): string
    requires |sections| <= |COMMANDS|
  {
    if sections == [] then ""
    else
      var n := |sections| - 1;
      Sections(sections[..n], w) + SectionText(COMMANDS[n], sections[n], w)
  }

  // ----- the counters and the verdict

  datatype Tally = Tally(coreOK: nat, answered: nat, refused: nat, timedOut: nat, notServing: nat)

  predicate NotServingIn(s: Section) {
    s.Heard? && s.answer.Reply? && TrimNewlines(s.answer.text) != "" && IsNotServing(TrimNewlines(s.answer.text))
  }

  predicate AnsweredIn(s: Section) {
    s.Heard? && s.answer.Reply? && TrimNewlines(s.answer.text) != "" && !IsNotServing(TrimNewlines(s.answer.text))
  }

  predicate LostIn(s: Section) {
    s.Heard? && s.answer.Lost?
  }

  function Bit(b: bool): nat {
    if b then 1 else 0
  }

  function TallyOf(sections: seq<Section>): Tally
    requires |sections| <= |COMMANDS|
  {
    if sections == [] then Tally(0, 0, 0, 0, 0)
    else
      var n := |sections| - 1;
      var t, s := TallyOf(sections[..n]), sections[n];
      Tally(t.coreOK + Bit(AnsweredIn(s) && COMMANDS[n] in CORE), t.answered + Bit(AnsweredIn(s)),
            t.refused + Bit(LostIn(s) && s.answer.error.ConnectionRefused?),
            t.timedOut + Bit(LostIn(s) && s.answer.error.Timeout?),
            t.notServing + Bit(NotServingIn(s)))
  }

  function Verdict(t: Tally): string {
    if t.notServing > 0 then "not serving"
    else if t.coreOK == |CORE| then "ok"
    else if t.answered > 0 then "partial"
    else if t.refused > 0 then "refused"
    else if t.timedOut > 0 then "timeout"
    else "failed"
  }

  lemma {:induction false} TallyCounts(sections: seq<Section>)
    requires |sections| <= |COMMANDS|
    ensures TallyOf(sections).notServing > 0 <==> exists i :: 0 <= i < |sections| && NotServingIn(sections[i])
    ensures TallyOf(sections).answered > 0 <==> exists i :: 0 <= i < |sections| && AnsweredIn(sections[i])
    ensures TallyOf(sections).refused > 0 <==> exists i :: 0 <= i < |sections| && RefusedIn(sections[i])
    ensures TallyOf(sections).timedOut > 0 <==> exists i :: 0 <= i < |sections| && TimedOutIn(sections[i])
  {
    hide NotServingIn, AnsweredIn;
    if sections != [] {
      var n := |sections| - 1;
      TallyCounts(sections[..n]);
      assert forall i :: 0 <= i < n ==> sections[..n][i] == sections[i];
    }
  }

  predicate RefusedIn(s: Section) {
    LostIn(s) && s.answer.error.ConnectionRefused?
  }

  predicate TimedOutIn(s: Section) {
    LostIn(s) && s.answer.error.Timeout?
  }

  lemma TallyStep(sections: seq<Section>, n: nat)
    requires n < |sections| <= |COMMANDS|
    ensures TallyOf(sections[..n + 1]).coreOK ==
            TallyOf(sections[..n]).coreOK + Bit(AnsweredIn(sections[n]) && COMMANDS[n] in CORE)
  {
    assert sections[..n + 1][..n] == sections[..n];
  }

  /** What each verdict says about the seven answers. */
  lemma {:induction false} VerdictMeans(sections: seq<Section>)
    requires |sections| == |COMMANDS|
    ensures var v := Verdict(TallyOf(sections));
            var down := exists i :: 0 <= i < |sections| && NotServingIn(sections[i]);
            var some := exists i :: 0 <= i < |sections| && AnsweredIn(sections[i]);
            var core := AnsweredIn(sections[0]) && AnsweredIn(sections[3]) && AnsweredIn(sections[4]);
            var refused := exists i :: 0 <= i < |sections| && RefusedIn(sections[i]);
            var timedOut := exists i :: 0 <= i < |sections| && TimedOutIn(sections[i]);
            && (v == "not serving" <==> down)
            && (v == "ok" <==> !down && core)
            && (v == "partial" <==> !down && !core && some)
            && (v == "refused" <==> !down && !some && refused)
            && (v == "timeout" <==> !down && !some && !refused && timedOut)
            && (v == "failed" <==> !down && !some && !refused && !timedOut)
  {
    hide NotServingIn, AnsweredIn, TallyOf;
    TallyCounts(sections);
    TallyStart(sections);
    TallyStep(sections, 0);
    TallyStep(sections, 1);
    TallyStep(sections, 2);
    TallyStep(sections, 3);
    TallyStep(sections, 4);
    TallyStep(sections, 5);
    TallyStep(sections, 6);
    assert sections[..7] == sections;
    assert |CORE| == 3;
  }

  lemma TallyStart(sections: seq<Section>)
    ensures TallyOf(sections[..0]).coreOK == 0
  {
  }

  // ----- what the answers say, in Keeper's own words

  /** The reply is the sentence of a member without a quorum, white space around it
      aside. */
  predicate NoQuorum(reply: string) {
    var t := TrimSpace(reply);
    || t == "This instance is not " + "currently serving requests"
    || t == "This ZooKeeper instance is not " + "currently serving requests"
  }

  predicate SaysNoQuorum(s: Section) {
    s.Heard? && s.answer.Reply? && NoQuorum(s.answer.text)
  }

  /** The member replied with more than line breaks. */
  predicate Replies(s: Section) {
    s.Heard? && s.answer.Reply? && exists c :: c in s.answer.text && c != '\n'
  }

  lemma InstanceHead(x: string)
    ensures "This" + " " + ("instance" + " " + ("is" + " " + ("not" + " " + x))) == "This instance is not " + x
  {
    var a, b := "This instance ", "is not ";
    assert "This" + " " + "instance" + " " == a;
    assert "is" + " " + "not" + " " == b;
    assert "This instance is not " == a + b;
  }

  lemma ZooKeeperHead(x: string)
    ensures "This" + " " + ("ZooKeeper" + " " + ("instance" + " " + ("is" + " " + ("not" + " " + x)))) ==
            "This ZooKeeper instance is not " + x
  {
    var a, b := "This ZooKeeper ", "instance is not ";
    assert "This" + " " + "ZooKeeper" + " " == a;
    assert "instance" + " " + "is" + " " + "not" + " " == b;
    assert "This ZooKeeper instance is not " == a + b;
  }

  lemma ServingTail()
    ensures Line(["currently", "serving", "requests"]) == "currently serving requests"
  {
    var ws := ["currently", "serving", "requests"];
    FirstWord(ws);
    FirstWord(ws[1..]);
    assert ws[1..][1..] == ["requests"];
  }

  lemma Sentences()
    ensures NOT_SERVING == "This instance is not " + "currently serving requests"
    ensures ZOOKEEPER_NOT_SERVING == "This ZooKeeper instance is not " + "currently serving requests"
  {
    var tail := ["currently", "serving", "requests"];
    ServingTail();
    InstanceHead(Line(tail));
    ZooKeeperHead(Line(tail));
    FiveWords("This", "instance", "is", "not", tail);
    FirstWord(["This", "ZooKeeper", "instance", "is", "not"] + tail);
    var five := ["This", "ZooKeeper", "instance", "is", "not"] + tail;
    assert five[1..] == ["ZooKeeper", "instance", "is", "not"] + tail;
    FiveWords("ZooKeeper", "instance", "is", "not", tail);
    hide Line;
    assert ["This", "instance", "is", "not"] + tail ==
           ["This", "instance", "is", "not", "currently", "serving", "requests"];
    assert ["This", "ZooKeeper", "instance", "is", "not"] + tail ==
           ["This", "ZooKeeper", "instance", "is", "not", "currently", "serving", "requests"];
  }

  lemma FiveWords(a: string, b: string, c: string, d: string, tail: seq<string>)
    requires tail != []
    ensures Line([a, b, c, d] + tail) == a + " " + (b + " " + (c + " " + (d + " " + Line(tail))))
  {
    var ws := [a, b, c, d] + tail;
    assert ws[1..] == [b, c, d] + tail && ws[1..][1..] == [c, d] + tail;
    assert ws[1..][1..][1..] == [d] + tail && ws[1..][1..][1..][1..] == tail;
    FirstWord(ws);
    FirstWord(ws[1..]);
    FirstWord(ws[1..][1..]);
    FirstWord(ws[1..][1..][1..]);
  }

  lemma {:induction false} BreaksOff(s: string)
    ensures TrimSpace(TrimNewlines(s)) == TrimSpace(s)
    ensures TrimNewlines(s) == "" <==> forall c :: c in s ==> c == '\n'
  {
    hide TrimSpace;
    if s != "" && s[|s| - 1] == '\n' {
      var r := s[..|s| - 1];
      BreaksOff(r);
      TrimBreak(r);
      assert s == r + "\n";
      assert forall c :: c in s <==> c in r || c == '\n';
    } else if s != "" {
      assert s[|s| - 1] in s;
    }
  }

  /** What the probe counts is what the member said. */
  lemma QuorumIs(s: Section)
    ensures NotServingIn(s) <==> SaysNoQuorum(s)
    ensures AnsweredIn(s) <==> Replies(s) && !SaysNoQuorum(s)
  {
    Sentences();
    if s.Heard? && s.answer.Reply? {
      BreaksOff(s.answer.text);
      NothingTrims();
      hide TrimSpace, TrimNewlines, NOT_SERVING, ZOOKEEPER_NOT_SERVING;
    }
  }

  lemma NothingTrims()
    ensures TrimSpace("") == ""
  {
  }

  lemma VerdictSaid(sections: seq<Section>)
    requires |sections| == |COMMANDS|
    ensures var v := Verdict(TallyOf(sections));
            && (v == "not serving" <==> exists i :: 0 <= i < |sections| && SaysNoQuorum(sections[i]))
            && (v == "ok" <==>
                  && (forall i :: 0 <= i < |sections| ==> !SaysNoQuorum(sections[i]))
                  && Replies(sections[0]) && Replies(sections[3]) && Replies(sections[4]))
  {
    hide SaysNoQuorum, Replies, TallyOf, Verdict, NotServingIn, AnsweredIn;
    VerdictMeans(sections);
    forall i | 0 <= i < |sections|
      ensures NotServingIn(sections[i]) <==> SaysNoQuorum(sections[i])
      ensures AnsweredIn(sections[i]) <==> Replies(sections[i]) && !SaysNoQuorum(sections[i])
    {
      QuorumIs(sections[i]);
    }
  }

  /** Either sentence, with any white space around it, is one. */
  lemma SentenceBetween(a: string, b: string)
    requires AsciiSpace(a) && AsciiSpace(b)
    ensures NoQuorum(a + ("This instance is not " + "currently serving requests") + b)
    ensures NoQuorum(a + ("This ZooKeeper instance is not " + "currently serving requests") + b)
  {
    var s, z := "This instance is not " + "currently serving requests",
                "This ZooKeeper instance is not " + "currently serving requests";
    assert s[0] == 'T' && z[0] == 'T';
    assert "currently serving requests"[25] == 's' && |s| == 47 && |z| == 57;
    assert s[46] == 's' && z[56] == 's';
    TrimWhite(a, s, b);
    TrimWhite(a, z, b);
  }

  // ----- the probe of one member

  class Wire {
    var sent: seq<string>

    constructor ()
      ensures sent == []
    {
      sent := [];
    }

    method Ask(cmd: string) returns (a: Answer)
      modifies this
      ensures sent == old(sent) + [cmd]
    {
      sent := sent + [cmd];
      a := *;
    }
  }

  datatype Target = Target(name: string, port: string, ensemble: string, collectedAt: string)

  const TITLE := Line(["clickhouse-diagnostic", DASH, "Keeper", "four-letter", "commands"])
  const NOTE := Line(["commands:", "ruok,", "isro,", "lgif,", "srvr,", "mntr,", "conf,", "dirs", "(stat/cons", "are",
                      "never", "sent", DASH, "they", "list", "client", "addresses)"])

  function HeaderLines(t: Target): seq<string> {
    [TITLE, "target: " + t.name + ":" + t.port, "ensemble: " + t.ensemble, "collected_at: " + t.collectedAt, NOTE]
  }

  function Signed(lines: seq<string>): string {
    if lines == [] then "" else Signed(lines[..|lines| - 1]) + ("# " + lines[|lines| - 1] + "\n")
  }

  function Header(t: Target): string {
    Signed(HeaderLines(t))
  }

  /** The first `asked` commands were sent; all of them answered, the last perhaps not,
      and the rest were skipped on its account. */
  ghost predicate Orderly(sections: seq<Section>, asked: nat) {
    && asked <= |sections| <= |COMMANDS|
    && (forall i :: 0 <= i < |sections| ==> (sections[i].Heard? <==> i < asked))
    && (forall i :: 0 <= i < asked - 1 ==> sections[i].answer.Reply?)
    && (asked < |sections| ==>
          asked > 0 && LostIn(sections[asked - 1]) &&
          forall i :: asked <= i < |sections| ==>
                sections[i].why == StopReason(COMMANDS[asked - 1], sections[asked - 1].answer.error))
  }

  /** What is known of a member once its file is written, or cannot be. */
  datatype Outcome = Outcome(status: string, error: string, file: Option<string>)

  /** The file holds a part of the text. */
  ghost predicate CutShort(before: map<string, string>, after: map<string, string>, name: string, text: string) {
    exists n: nat :: n <= |text| && after == before[name := text[..n]]
  }

  function Message(e: NetError): string {
    match e
    case Timeout(message) => message
    case ConnectionRefused(message) => message
    case Broken(message) => message
  }

  /** The failure that ended the questions, if one did. */
  function LastError(sections: seq<Section>): string {
    if sections == [] then ""
    else if LostIn(sections[|sections| - 1]) then Message(sections[|sections| - 1].answer.error)
    else LastError(sections[..|sections| - 1])
  }

  /** The error shown beside a verdict: none with "ok", in gov mode no wording. */
  function Shown(status: string, lastError: string, gov: bool): string {
    var e := if status == "not serving" then NOT_SERVING else lastError;
    if status == "ok" || e == "" then "" else if gov then status else e
  }

  /** One member is asked and its file written; filter is what gov mode takes out of a
      reply. */
  method CollectOne(t: Target, wire: Wire, dir: Executor.Dir, name: string, w: Wording,
                    filter: (string, string) -> string)
    returns (o: Outcome, ghost sections: seq<Section>, ghost asked: nat)
    modifies wire, dir
    ensures |sections| == |COMMANDS| && Orderly(sections, asked)
    ensures wire.sent == old(wire.sent) + COMMANDS[..asked]
    ensures o.file.Some? ==>
              && o.file.value == name && dir.files == old(dir.files)[name := Header(t) + Sections(sections, w)]
              && o.status == Verdict(TallyOf(sections)) && o.error == Shown(o.status, LastError(sections), w.gov)
    ensures o.file.Some? ==>
              && (o.status == "not serving" <==> exists i :: 0 <= i < |sections| && SaysNoQuorum(sections[i]))
              && (o.status == "not serving" ==>
                    o.error == if w.gov then o.status else "This instance is not " + "currently serving requests")
              && (o.status == "ok" <==>
                    && (forall i :: 0 <= i < |sections| ==> !SaysNoQuorum(sections[i]))
                    && Replies(sections[0]) && Replies(sections[3]) && Replies(sections[4]))
    ensures o.file.None? ==>
              && o.status == "failed" && HasPrefix(o.error, "write " + name + ": ")
              && (dir.files == old(dir.files) ||
                  CutShort(old(dir.files), dir.files, name, Header(t) + Sections(sections, w)))
  {
    hide HasPrefix, NOT_SERVING, SaysNoQuorum, Replies, TallyOf, Verdict, Header, Sections, Orderly, LastError;
    var status, text, lastError;
    status, text, lastError, sections, asked := Questions(t, wire, w, filter);
    Sentences();
    VerdictSaid(sections);
    var problem;
    ghost var left;
    problem, left := dir.Write(name, text);
    if problem.Some? {
      assert left.Some? ==> left.value == text[..|left.value|];
      var said := "write " + name + ": ";
      Starts(said, problem.value);
      o := Outcome("failed", said + problem.value, None);
    } else {
      var error := "";
      if status != "ok" {
        error := if status == "not serving" then NOT_SERVING else lastError;
        if w.gov && error != "" {
          error := status;
        }
      }
      o := Outcome(status, error, Some(name));
    }
  }

  lemma Starts(a: string, b: string)
    ensures HasPrefix(a + b, a)
  {
  }

  /** The questions, the file's text, the verdict and the last failure. */
  method Questions(t: Target, wire: Wire, w: Wording, filter: (string, string) -> string)
    returns (status: string, text: string, lastError: string, ghost sections: seq<Section>, ghost asked: nat)
    modifies wire
    ensures |sections| == |COMMANDS| && Orderly(sections, asked)
    ensures text == Header(t) + Sections(sections, w)
    ensures status == Verdict(TallyOf(sections)) && lastError == LastError(sections)
    ensures wire.sent == old(wire.sent) + COMMANDS[..asked]
  {
    hide Header, NotServingIn, AnsweredIn, Body, ErrorLine, StopReason, IsNotServing, TrimNewlines, TallyOf, Sections;
    hide SectionText, Orderly, LastError, Message;
    Nothing(t, w);
    text, lastError := Header(t), "";
    sections, asked := [], 0;
    var coreOK, answered, refused, timedOut, notServing := 0, 0, 0, 0, 0;
    var stoppedBy := None;
    for i := 0 to |COMMANDS|
      invariant |sections| == i && asked <= i && Orderly(sections, asked)
      invariant text == Header(t) + Sections(sections, w)
      invariant TallyOf(sections) == Tally(coreOK, answered, refused, timedOut, notServing)
      invariant wire.sent == old(wire.sent) + COMMANDS[..asked] && lastError == LastError(sections)
      invariant stoppedBy.None? ==> asked == i && (i > 0 ==> sections[i - 1].Heard? && sections[i - 1].answer.Reply?)
      invariant stoppedBy.Some? ==> 0 < asked <= i && LostIn(sections[asked - 1])
                                    && stoppedBy.value == StopReason(COMMANDS[asked - 1],
                                                                     sections[asked - 1].answer.error)
    {
      var cmd := COMMANDS[i];
      var s;
      if stoppedBy.Some? {
        s := Skipped(stoppedBy.value);
        OrderlySkipped(sections, asked, s);
      } else {
        var answer := wire.Ask(cmd);
        assert COMMANDS[..i + 1] == COMMANDS[..i] + [cmd];
        match answer {
          case Lost(partial, error) =>
            s := Heard(Lost(if partial != "" then filter(cmd, partial) else "", error));
            lastError := Message(error);
            match error {
              case Timeout(_) =>
                timedOut := timedOut + 1;
              case ConnectionRefused(_) =>
                refused := refused + 1;
              case Broken(_) =>
            }
            stoppedBy := Some(StopReason(cmd, error));
            OrderlyHeard(sections, asked, s);
          case Reply(raw) =>
            var reply := filter(cmd, raw);
            s := Heard(Reply(reply));
            Kinds(reply);
            OrderlyHeard(sections, asked, s);
            if TrimNewlines(reply) == "" {
            } else if IsNotServing(TrimNewlines(reply)) {
              notServing := notServing + 1;
            } else {
              answered := answered + 1;
              if cmd in CORE {
                coreOK := coreOK + 1;
              }
            }
        }
        asked := asked + 1;
      }
      Unheard(s);
      SectionsNext(sections, s, w);
      TextNext(Header(t), Sections(sections, w), cmd, s, w);
      text := text + "\n## " + cmd + "\n" + Body(s, w) + "\n";
      sections := sections + [s];
    }
    status := if notServing > 0 then "not serving"
    else if coreOK == |CORE| then "ok"
    else if answered > 0 then "partial"
    else if refused > 0 then "refused"
    else if timedOut > 0 then "timeout"
    else "failed";
  }

  lemma Nothing(t: Target, w: Wording)
    ensures LastError([]) == ""
    ensures Header(t) + Sections([], w) == Header(t) && TallyOf([]) == Tally(0, 0, 0, 0, 0) && Orderly([], 0)
  {
  }

  lemma TextNext(h: string, done: string, cmd: string, s: Section, w: Wording)
    ensures (h + done) + "\n## " + cmd + "\n" + Body(s, w) + "\n" == h + (done + SectionText(cmd, s, w))
  {
    hide Body;
    var b := Body(s, w);
    assert (h + done) + "\n## " + cmd + "\n" + b + "\n" == (h + done) + ("\n## " + cmd + "\n" + b + "\n");
  }

  lemma OrderlyHeard(sections: seq<Section>, asked: nat, s: Section)
    requires Orderly(sections, asked) && asked == |sections| < |COMMANDS| && s.Heard?
    requires asked > 0 ==> sections[asked - 1].Heard? && sections[asked - 1].answer.Reply?
    ensures Orderly(sections + [s], asked + 1)
  {
  }

  lemma OrderlySkipped(sections: seq<Section>, asked: nat, s: Section)
    requires Orderly(sections, asked) && 0 < asked <= |sections| < |COMMANDS| && LostIn(sections[asked - 1])
    requires s == Skipped(StopReason(COMMANDS[asked - 1], sections[asked - 1].answer.error))
    ensures Orderly(sections + [s], asked)
  {
    hide StopReason;
  }

  lemma Kinds(reply: string)
    ensures NotServingIn(Heard(Reply(reply))) <==> TrimNewlines(reply) != "" && IsNotServing(TrimNewlines(reply))
    ensures AnsweredIn(Heard(Reply(reply))) <==> TrimNewlines(reply) != "" && !IsNotServing(TrimNewlines(reply))
  {
  }

  lemma Unheard(s: Section)
    ensures (s.Skipped? || LostIn(s)) ==> !NotServingIn(s) && !AnsweredIn(s)
  {
  }

  lemma SectionsNext(sections: seq<Section>, s: Section, w: Wording)
    requires |sections| < |COMMANDS|
    ensures Sections(sections + [s], w) == Sections(sections, w) + SectionText(COMMANDS[|sections|], s, w)
    ensures LastError(sections + [s]) == if LostIn(s) then Message(s.answer.error) else LastError(sections)
    ensures var t := TallyOf(sections);
            TallyOf(sections + [s]) ==
            Tally(t.coreOK + Bit(AnsweredIn(s) && COMMANDS[|sections|] in CORE), t.answered + Bit(AnsweredIn(s)),
                  t.refused + Bit(RefusedIn(s)), t.timedOut + Bit(TimedOutIn(s)), t.notServing + Bit(NotServingIn(s)))
  {
    hide SectionText, Message, AnsweredIn, NotServingIn;
    assert (sections + [s])[..|sections|] == sections;
  }
}
