/** Reading a Keeper member's file: sections, state and facts. */
module Members {
  import opened Wrappers
  import opened Text
  import FourLetter

  const MARK := "\n## "

  /** strings.Split at a non-empty separator. */
  function SplitAt(s: string, sep: string): (parts: seq<string>)
    requires sep != ""
    ensures parts != []
    decreases |s|
  {
    var i := Index(s, sep);
    if i < 0 then [s] else [s[..i]] + SplitAt(s[i + |sep|..], sep)
  }

  /** strings.Cut: what stands before and after the first separator. */
  function Cut(s: string, sep: string): (r: Option<(string, string)>)
    ensures r.Some? ==> s == r.value.0 + sep + r.value.1
  {
    var i := Index(s, sep);
    if i < 0 then None
    else
      CutParts(s, sep, i);
      Some((s[..i], s[i + |sep|..]))
  }

  lemma CutParts(s: string, sep: string, i: nat)
    requires i <= |s| && HasPrefix(s[i..], sep)
    ensures i + |sep| <= |s| && s == s[..i] + sep + s[i + |sep|..]
  {
    var t := s[i..];
    assert t == t[..|sep|] + t[|sep|..];
    assert t[|sep|..] == s[i + |sep|..];
    assert s == s[..i] + t;
  }

  function NameOf(part: string): string {
    match Cut(part, "\n")
    case Some((name, _)) => TrimSpace(name)
    case None => TrimSpace(part)
  }

  function BodyOf(part: string): string {
    match Cut(part, "\n")
    case Some((_, body)) => TrimSpace(body)
    case None => TrimSpace("")
  }

  /** The sections of some parts; a later one of the same name wins. */
  function SectionsOf(parts: seq<string>): map<string, string> {
    if parts == [] then map[]
    else
      var n := |parts| - 1;
      SectionsOf(parts[..n])[NameOf(parts[n]) := BodyOf(parts[n])]
  }

  function Parse(text: string): map<string, string> {
    SectionsOf(SplitAt("\n" + text, MARK)[1..])
  }

  function BodyIn(sec: map<string, string>, cmd: string): string {
    if cmd in sec then sec[cmd] else ""
  }

  /** The section is evidence: a whole reply, neither the not-serving answer nor a
      note of the collector's own. */
  ghost predicate Answered(b: string) {
    && b != "" && !FourLetter.IsNotServing(b)
    && !HasPrefix(b, "skipped") && !HasPrefix(b, "(empty reply")
    && !StartsLine(b, "error:")
  }

  ghost predicate SaysDown(sec: map<string, string>) {
    exists cmd :: cmd in sec && FourLetter.IsNotServing(sec[cmd])
  }

  ghost predicate HasError(sec: map<string, string>) {
    exists cmd :: cmd in sec && StartsLine(sec[cmd], "error:")
  }

  ghost function StateOf(sec: map<string, string>): string {
    if SaysDown(sec) then "not serving"
    else if Answered(BodyIn(sec, "srvr")) || Answered(BodyIn(sec, "mntr")) then "serving"
    else if HasError(sec) then "probe failed"
    else "unknown"
  }

  // ----- facts

  /** The facts of the lines before position n: a later line of the same key wins. */
  function LineFacts(cmd: string, sep: string, lines: seq<string>, facts: map<string, string>): map<string, string> {
    if lines == [] then facts
    else
      var n := |lines| - 1;
      var r := LineFacts(cmd, sep, lines[..n], facts);
      match Cut(lines[n], sep)
      case Some((k, v)) => r[cmd + "." + TrimSpace(k) := TrimSpace(v)]
      case None => r
  }

  ghost function SectionFacts(sec: map<string, string>, cmd: string, sep: string, facts: map<string, string>)
    : map<string, string>
  {
    var b := BodyIn(sec, cmd);
    if Answered(b) then LineFacts(cmd, sep, Split(b), facts) else facts
  }

  ghost function FactsOf(sec: map<string, string>): map<string, string> {
    var lgif := SectionFacts(sec, "lgif", "\t", map[]);
    var mntr := SectionFacts(sec, "mntr", "\t", lgif);
    SectionFacts(sec, "dirs", ":", SectionFacts(sec, "conf", "=", mntr))
  }

  // ----- which facts there are

  /** The commands whose replies hold facts, and what parts key and value there. */
  const SOURCES := [("lgif", "\t"), ("mntr", "\t"), ("conf", "="), ("dirs", ":")]

  /** The fact a line states. */
  function FactIn(cmd: string, sep: string, line: string): Option<(string, string)> {
    match Cut(line, sep)
    case Some((k, v)) => Some((cmd + "." + TrimSpace(k), TrimSpace(v)))
    case None => None
  }

  predicate States(cmd: string, sep: string, lines: seq<string>, i: int, key: string) {
    0 <= i < |lines| && FactIn(cmd, sep, lines[i]).Some? && FactIn(cmd, sep, lines[i]).value.0 == key
  }

  /** Line i of the reply to the command at n is the last of it to state the key. */
  ghost predicate LastStates(sec: map<string, string>, n: nat, i: int, key: string)
    requires n < |SOURCES|
  {
    var (cmd, sep) := SOURCES[n];
    var lines := Split(BodyIn(sec, cmd));
    && Answered(BodyIn(sec, cmd)) && States(cmd, sep, lines, i, key)
    && forall j :: i < j < |lines| ==> !States(cmd, sep, lines, j, key)
  }

  lemma LastFact(cmd: string, sep: string, lines: seq<string>, facts: map<string, string>, key: string)
    requires lines != []
    ensures var n := |lines| - 1;
            var r, all := LineFacts(cmd, sep, lines[..n], facts), LineFacts(cmd, sep, lines, facts);
            if States(cmd, sep, lines, n, key) then key in all && all[key] == FactIn(cmd, sep, lines[n]).value.1
            else (key in all <==> key in r) && (key in r ==> all[key] == r[key])
  {
    hide TrimSpace, Cut;
  }

  /** The last line to state the key, i, counts; if there is none, -1, the facts are
      as before. */
  lemma {:induction false} LinesTell(cmd: string, sep: string, lines: seq<string>, facts: map<string, string>,
                                     key: string, i: int)
    requires -1 <= i < |lines| && (i >= 0 ==> States(cmd, sep, lines, i, key))
    requires forall j :: i < j < |lines| ==> !States(cmd, sep, lines, j, key)
    ensures var all := LineFacts(cmd, sep, lines, facts);
            && (i >= 0 ==> key in all && all[key] == FactIn(cmd, sep, lines[i]).value.1)
            && (i < 0 ==> (key in all <==> key in facts) && (key in facts ==> all[key] == facts[key]))
  {
    hide FactIn;
    if lines != [] {
      var n := |lines| - 1;
      var r := lines[..n];
      LastFact(cmd, sep, lines, facts, key);
      if i < n {
        forall j | 0 <= j < n
          ensures r[j] == lines[j] && States(cmd, sep, r, j, key) == States(cmd, sep, lines, j, key)
        {
        }
        hide States, LineFacts;
        LinesTell(cmd, sep, r, facts, key, i);
      }
    }
  }

  lemma {:induction false} LastLine(cmd: string, sep: string, lines: seq<string>, n: nat, key: string) returns (i: int)
    requires n <= |lines| && forall j :: n <= j < |lines| ==> !States(cmd, sep, lines, j, key)
    ensures -1 <= i && (i < 0 ==> forall j :: 0 <= j < |lines| ==> !States(cmd, sep, lines, j, key))
    ensures i >= 0 ==>
              States(cmd, sep, lines, i, key) && forall j :: i < j < |lines| ==> !States(cmd, sep, lines, j, key)
  {
    hide States;
    if n == 0 {
      i := -1;
    } else if States(cmd, sep, lines, n - 1, key) {
      i := n - 1;
      InRange(cmd, sep, lines, i, key);
    } else {
      i := LastLine(cmd, sep, lines, n - 1, key);
    }
  }

  lemma InRange(cmd: string, sep: string, lines: seq<string>, i: int, key: string)
    ensures States(cmd, sep, lines, i, key) ==> 0 <= i < |lines|
  {
  }

  /** A section adds its own facts and leaves the others. */
  lemma {:induction false} SectionTells(sec: map<string, string>, n: nat, facts: map<string, string>, key: string)
    requires n < |SOURCES|
    ensures var (cmd, sep) := SOURCES[n];
            var r := SectionFacts(sec, cmd, sep, facts);
            && (forall i :: LastStates(sec, n, i, key) ==>
                  key in r && r[key] == FactIn(cmd, sep, Split(BodyIn(sec, cmd))[i]).value.1)
            && ((forall i :: !LastStates(sec, n, i, key)) ==>
                  (key in r <==> key in facts) && (key in facts ==> r[key] == facts[key]))
  {
    hide Answered, States, FactIn, Split, LineFacts;
    var (cmd, sep) := SOURCES[n];
    var lines := Split(BodyIn(sec, cmd));
    if Answered(BodyIn(sec, cmd)) {
      forall i ensures States(cmd, sep, lines, i, key) ==> 0 <= i < |lines| {
        InRange(cmd, sep, lines, i, key);
      }
      var i := LastLine(cmd, sep, lines, |lines|, key);
      LinesTell(cmd, sep, lines, facts, key, i);
      assert i >= 0 ==> LastStates(sec, n, i, key);
    }
  }

  /** A key names the command it comes from. */
  lemma KeyOfSource(sec: map<string, string>, n: nat, i: int, key: string)
    requires n < |SOURCES| && LastStates(sec, n, i, key)
    ensures |key| > 4 && key[..4] == SOURCES[n].0
  {
    hide TrimSpace, Cut, Answered, Split;
    var cmd := SOURCES[n].0;
    assert |cmd| == 4;
    assert exists k: string :: key == cmd + "." + k;
  }

  /** The facts are exactly the lines "key separator value" of the evident replies to
      the four commands, the last line of a key counting. */
  lemma {:induction false} FactsExactly(sec: map<string, string>, key: string)
    ensures key in FactsOf(sec) <==> exists n: nat, i :: n < |SOURCES| && LastStates(sec, n, i, key)
    ensures forall n: nat, i :: n < |SOURCES| && LastStates(sec, n, i, key) ==>
              FactsOf(sec)[key] == FactIn(SOURCES[n].0, SOURCES[n].1, Split(BodyIn(sec, SOURCES[n].0))[i]).value.1
  {
    hide LastStates, FactIn, Split, SectionFacts, BodyIn;
    var f0 := map[];
    var f1 := SectionFacts(sec, "lgif", "\t", f0);
    var f2 := SectionFacts(sec, "mntr", "\t", f1);
    var f3 := SectionFacts(sec, "conf", "=", f2);
    SectionTells(sec, 0, f0, key);
    SectionTells(sec, 1, f1, key);
    SectionTells(sec, 2, f2, key);
    SectionTells(sec, 3, f3, key);
    forall n: nat, m: nat, i, j | n < m < |SOURCES| && LastStates(sec, n, i, key) && LastStates(sec, m, j, key)
      ensures false
    {
      KeyOfSource(sec, n, i, key);
      KeyOfSource(sec, m, j, key);
      SourcesApart(n, m);
    }
  }

  lemma SourcesApart(n: nat, m: nat)
    requires n < m < |SOURCES|
    ensures SOURCES[n].0 != SOURCES[m].0
  {
  }

  // ----- what the state means

  /** Evidence of life: something that is neither the sentence of a member without a
      quorum nor one of the collector's own notes, and was not cut short. */
  ghost predicate Evidence(b: string) {
    && b != "" && !FourLetter.NoQuorum(b)
    && (forall q :: b != "skipped" + q) && (forall q :: b != "(empty reply" + q)
    && !CutOff(b)
  }

  /** A line of the section begins "error:". */
  ghost predicate CutOff(b: string) {
    exists i :: 0 <= i <= |b| && HasPrefix(b[i..], "error:") && (i == 0 || b[i - 1] == '\n')
  }

  ghost predicate StateMeans(sec: map<string, string>, state: string) {
    var down := exists cmd :: cmd in sec && FourLetter.NoQuorum(sec[cmd]);
    var alive := Evidence(BodyIn(sec, "srvr")) || Evidence(BodyIn(sec, "mntr"));
    var failed := exists cmd :: cmd in sec && CutOff(sec[cmd]);
    && (state == "not serving" <==> down)
    && (state == "serving" <==> !down && alive)
    && (state == "probe failed" <==> !down && !alive && failed)
    && (state == "unknown" <==> !down && !alive && !failed)
  }

  lemma QuorumSentence(b: string)
    ensures FourLetter.IsNotServing(b) <==> FourLetter.NoQuorum(b)
  {
    FourLetter.Sentences();
    hide TrimSpace, FourLetter.NOT_SERVING, FourLetter.ZOOKEEPER_NOT_SERVING;
  }

  lemma PrefixSpelled(b: string, p: string)
    ensures HasPrefix(b, p) <==> !forall q :: b != p + q
  {
    if HasPrefix(b, p) {
      assert b == p + b[|p|..];
    }
    if q :| b == p + q {
      assert b[..|p|] == p;
    }
  }

  lemma CutOffLine(b: string)
    ensures StartsLine(b, "error:") <==> CutOff(b)
  {
    if StartsLine(b, "error:") {
      var k :| 0 <= k < |Split(b)| && HasPrefix(Split(b)[k], "error:");
      var i := LinePlace(b, "error:", k);
    }
    if CutOff(b) {
      var i :| 0 <= i <= |b| && HasPrefix(b[i..], "error:") && (i == 0 || b[i - 1] == '\n');
      var k := LineAt(b, "error:", i);
    }
  }

  lemma EvidenceIs(b: string)
    ensures Answered(b) <==> Evidence(b)
  {
    QuorumSentence(b);
    PrefixSpelled(b, "skipped");
    PrefixSpelled(b, "(empty reply");
    CutOffLine(b);
    hide FourLetter.IsNotServing, FourLetter.NoQuorum, HasPrefix, StartsLine, CutOff;
  }

  /** The four states, by what the sections say. */
  lemma StateExactly(sec: map<string, string>)
    ensures StateMeans(sec, StateOf(sec))
  {
    hide FourLetter.IsNotServing, FourLetter.NoQuorum, StartsLine, CutOff, Answered, Evidence;
    EvidenceIs(BodyIn(sec, "srvr"));
    EvidenceIs(BodyIn(sec, "mntr"));
    forall b ensures FourLetter.IsNotServing(b) <==> FourLetter.NoQuorum(b) {
      QuorumSentence(b);
    }
    forall b ensures StartsLine(b, "error:") <==> CutOff(b) {
      CutOffLine(b);
    }
  }

  // ----- the loops

  method LineStarts(b: string, p: string) returns (r: bool)
    ensures r == StartsLine(b, p)
  {
    var lines := Split(b);
    for i := 0 to |lines|
      invariant forall j :: 0 <= j < i ==> !HasPrefix(lines[j], p)
    {
      if HasPrefix(lines[i], p) {
        return true;
      }
    }
    return false;
  }

  method IsAnswered(sec: map<string, string>, cmd: string) returns (r: bool)
    ensures r == Answered(BodyIn(sec, cmd))
  {
    var b := BodyIn(sec, cmd);
    if b == "" || FourLetter.IsNotServing(b) || HasPrefix(b, "skipped") || HasPrefix(b, "(empty reply") {
      return false;
    }
    var e := LineStarts(b, "error:");
    r := !e;
  }

  method ReadSections(text: string) returns (sec: map<string, string>)
    ensures sec == Parse(text)
  {
    hide TrimSpace, Cut, SplitAt;
    var parts := SplitAt("\n" + text, MARK)[1..];
    sec := map[];
    for i := 0 to |parts|
      invariant sec == SectionsOf(parts[..i])
    {
      var name, body := parts[i], "";
      var cut := Cut(parts[i], "\n");
      if cut.Some? {
        name, body := cut.value.0, cut.value.1;
      }
      assert parts[..i + 1][..i] == parts[..i];
      sec := sec[TrimSpace(name) := TrimSpace(body)];
    }
    assert parts[..|parts|] == parts;
  }

  lemma FactsNext(cmd: string, sep: string, lines: seq<string>, i: nat, facts: map<string, string>)
    requires i < |lines|
    ensures LineFacts(cmd, sep, lines[..i + 1], facts) ==
            match Cut(lines[i], sep)
            case Some((k, v)) => LineFacts(cmd, sep, lines[..i], facts)[cmd + "." + TrimSpace(k) := TrimSpace(v)]
            case None => LineFacts(cmd, sep, lines[..i], facts)
  {
    hide TrimSpace, Cut;
    assert lines[..i + 1][..i] == lines[..i];
  }

  method ReadFacts(sec: map<string, string>, cmd: string, sep: string, facts0: map<string, string>)
    returns (facts: map<string, string>)
    ensures facts == SectionFacts(sec, cmd, sep, facts0)
  {
    hide Answered, StartsLine, TrimSpace, Cut, Split, LineFacts;
    facts := facts0;
    var yes := IsAnswered(sec, cmd);
    if !yes {
      return;
    }
    var lines := Split(BodyIn(sec, cmd));
    NoFacts(cmd, sep, facts0);
    for i := 0 to |lines|
      invariant facts == LineFacts(cmd, sep, lines[..i], facts0)
    {
      FactsNext(cmd, sep, lines, i, facts0);
      var cut := Cut(lines[i], sep);
      if cut.Some? {
        facts := facts[cmd + "." + TrimSpace(cut.value.0) := TrimSpace(cut.value.1)];
      }
    }
    assert lines[..|lines|] == lines;
  }

  lemma NoFacts(cmd: string, sep: string, facts: map<string, string>)
    ensures LineFacts(cmd, sep, [], facts) == facts
  {
  }

  method ReadState(sec: map<string, string>) returns (state: string)
    ensures state == StateOf(sec)
  {
    hide Answered, StartsLine, FourLetter.IsNotServing;
    var notServing, errLine := false, false;
    var rest := sec.Keys;
    while rest != {}
      invariant rest <= sec.Keys
      invariant notServing <==> exists cmd :: cmd in sec && cmd !in rest && FourLetter.IsNotServing(sec[cmd])
      invariant errLine <==> exists cmd :: cmd in sec && cmd !in rest && StartsLine(sec[cmd], "error:")
      decreases |rest|
    {
      var cmd :| cmd in rest;
      if FourLetter.IsNotServing(sec[cmd]) {
        notServing := true;
      }
      var e := LineStarts(sec[cmd], "error:");
      if e {
        errLine := true;
      }
      rest := rest - {cmd};
    }
    var srvr := IsAnswered(sec, "srvr");
    var mntr := IsAnswered(sec, "mntr");
    state := "unknown";
    if notServing {
      state := "not serving";
    } else if srvr || mntr {
      state := "serving";
    } else if errLine {
      state := "probe failed";
    }
  }

  /** What a member's file says. */
  method ParseMember(text: string) returns (state: string, facts: map<string, string>)
    ensures state == StateOf(Parse(text)) && StateMeans(Parse(text), state)
    ensures facts == FactsOf(Parse(text))
  {
    var sec := ReadSections(text);
    facts := ReadFacts(sec, "lgif", "\t", map[]);
    facts := ReadFacts(sec, "mntr", "\t", facts);
    facts := ReadFacts(sec, "conf", "=", facts);
    facts := ReadFacts(sec, "dirs", ":", facts);
    state := ReadState(sec);
    StateExactly(sec);
  }
}
