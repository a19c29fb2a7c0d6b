/** Reading a run directory back: whose rows later readers may trust. */
module Bundle {
  import opened Wrappers
  import opened Text
  import opened RunLog
  import opened Executor
  import opened LogEntries
  import Ordering
  import Sorting

  type Row = map<string, string>

  datatype Failure =
    | NotCollected(collector: string, state: string, reason: string)
    | Unopened(file: string, error: string)
    | Malformed(file: string, error: string)

  // ----- the files of a run

  predicate AllDigits(s: string) {
    forall i :: 0 <= i < |s| ==> Digit(s[i])
  }

  /** YYYYMMDD_HHMMSS. */
  predicate Stamp(s: string) {
    |s| == 15 && AllDigits(s[..8]) && s[8] == '_' && AllDigits(s[9..])
  }

  /** The collector a file name belongs to: any text without a line break, an
      underscore, a stamp and the extension. */
  function RunFile(name: string): Option<string> {
    var n := |name|;
    if && n >= 23 && name[n - 6..] == ".jsonl" && Stamp(name[n - 21..n - 6])
       && name[n - 22] == '_' && '\n' !in name[..n - 22]
    then Some(name[..n - 22])
    else None
  }

  lemma RunFileBack(base: string, stamp: string)
    requires Stamp(stamp)
    ensures RunFile(FileName(base, stamp)) == if base != "" && '\n' !in base then Some(base) else None
  {
    hide Stamp;
    var name := FileName(base, stamp);
    StampLength(stamp);
    var n := |name|;
    assert name[n - 6..] == ".jsonl";
    assert name[n - 21..n - 6] == stamp;
    assert name[n - 22] == '_';
    assert name[..n - 22] == base;
  }

  lemma StampLength(s: string)
    requires Stamp(s)
    ensures |s| == 15
  {
  }

  ghost predicate HasFile(files: map<string, string>, c: string) {
    exists n :: n in files && RunFile(n) == Some(c)
  }

  /** The collector may be read: it is not marked failed, and it has a file. */
  ghost predicate MayRead(status: map<string, Status>, files: map<string, string>, c: string) {
    !(c in status && status[c].state == "failed") && HasFile(files, c)
  }

  /** What reading file n comes to: it may not open, and it may not parse. */
  function Reading(n: string, denied: Option<string>, parsed: Result<seq<Row>, string>): Result<seq<Row>, Failure> {
    if denied.Some? then Err(Unopened(n, denied.value))
    else match parsed
      case Ok(rows) => Ok(rows)
      case Err(e) => Err(Malformed(n, e))
  }

  class Bundle {
    const dir: Dir
    const status: map<string, Status>
    const denied: string -> Option<string>
    const parse: string -> Result<seq<Row>, string>
    var cache: map<string, seq<Row>>

    constructor (dir: Dir, status: map<string, Status>, denied: string -> Option<string>,
                 parse: string -> Result<seq<Row>, string>)
      ensures this.dir == dir && this.status == status && this.denied == denied && this.parse == parse && cache == map[]
    {
      this.dir, this.status, this.denied, this.parse, cache := dir, status, denied, parse, map[];
    }

    /** The names in the directory, ascending. */
    method ReadDir() returns (names: seq<string>)
      ensures forall n :: n in names <==> n in dir.files
    {
      var rest := dir.files.Keys;
      names := [];
      while rest != {}
        invariant forall n :: n in dir.files <==> n in names || n in rest
        decreases |rest|
      {
        var n :| n in rest;
        names := names + [n];
        rest := rest - {n};
      }
      Sorting.SortElements(names, Ordering.Less);
      names := Sorting.Sort(names, Ordering.Less);
    }

    /** The collector's file, when there is one. */
    method Path(collector: string) returns (p: Option<string>)
      ensures p.Some? ==> p.value in dir.files && RunFile(p.value) == Some(collector)
      ensures p.None? ==> !HasFile(dir.files, collector)
    {
      var names := ReadDir();
      for i := 0 to |names|
        invariant forall j :: 0 <= j < i ==> RunFile(names[j]) != Some(collector)
      {
        if RunFile(names[i]) == Some(collector) {
          assert names[i] in names;
          return Some(names[i]);
        }
      }
      return None;
    }

    /** The collector's rows: from the cache, else from its file unless its status
        is failed. Only a successful read is cached. */
    method Rows(collector: string) returns (r: Result<seq<Row>, Failure>)
      modifies this`cache
      ensures collector in old(cache) ==> r == Ok(old(cache)[collector]) && cache == old(cache)
      ensures collector !in old(cache) && !MayRead(status, dir.files, collector) ==>
                && r.Err? && r.error.NotCollected? && r.error.collector == collector && cache == old(cache)
                && Status(r.error.state, r.error.reason) ==
                   (if collector in status then status[collector] else Status("not collected", ""))
      ensures collector !in old(cache) && MayRead(status, dir.files, collector) ==>
                && (exists n :: n in dir.files && RunFile(n) == Some(collector) &&
                                r == Reading(n, denied(n), parse(dir.files[n])))
                && cache == if r.Ok? then old(cache)[collector := r.value] else old(cache)
    {
      if collector in cache {
        return Ok(cache[collector]);
      }
      if collector in status && status[collector].state == "failed" {
        return Err(NotCollected(collector, status[collector].state, status[collector].reason));
      }
      var p := Path(collector);
      if p.None? {
        if collector in status {
          return Err(NotCollected(collector, status[collector].state, status[collector].reason));
        }
        return Err(NotCollected(collector, "not collected", ""));
      }
      var problem := denied(p.value);
      if problem.Some? {
        return Err(Unopened(p.value, problem.value));
      }
      match parse(dir.files[p.value])
      case Err(e) =>
        return Err(Malformed(p.value, e));
      case Ok(rows) =>
        cache := cache[collector := rows];
        return Ok(rows);
    }
  }

  // ----- what a run leaves

  /** The work put a file in the run directory, complete or not. */
  predicate Leaves(w: Work) {
    w.fate.Saved? || (w.fate.SaveFailed? && w.fate.left.Some?)
  }

  function FileOf(w: Work, setup: Setup): string {
    FileName(Base(w.q.name), setup.stamp)
  }

  ghost predicate Left(log: seq<Work>, setup: Setup, name: string) {
    exists k :: 0 <= k < |log| && Leaves(log[k]) && FileOf(log[k], setup) == name
  }

  lemma LeftOn(log: seq<Work>, n: nat, setup: Setup, name: string)
    requires |log| == n + 1
    ensures Left(log, setup, name) <==> Left(log[..n], setup, name) || (Leaves(log[n]) && FileOf(log[n], setup) == name)
  {
    hide Leaves, FileOf;
    if Left(log, setup, name) {
      var k :| 0 <= k < |log| && Leaves(log[k]) && FileOf(log[k], setup) == name;
      assert k < n ==> log[..n][k] == log[k];
    }
    if Left(log[..n], setup, name) {
      var k :| 0 <= k < n && Leaves(log[..n][k]) && FileOf(log[..n][k], setup) == name;
      assert log[..n][k] == log[k];
    }
  }

  /** The files of a fresh directory are those the run left. */
  lemma {:induction false} FilesLeft(log: seq<Work>, setup: Setup, name: string)
    ensures name in Files(map[], log, setup) <==> Left(log, setup, name)
  {
    hide Left, FileName, Base;
    if log == [] {
      NothingLeft(setup, name);
    } else {
      var n := |log| - 1;
      FilesLeft(log[..n], setup, name);
      LeftOn(log, n, setup, name);
    }
  }

  lemma NothingLeft(setup: Setup, name: string)
    ensures !Left([], setup, name)
  {
  }

  /** A collector has a file exactly when one of the run's works with its base name left one. */
  lemma FileOfCollector(log: seq<Work>, setup: Setup, c: string)
    requires Stamp(setup.stamp)
    ensures HasFile(Files(map[], log, setup), c) <==>
            c != "" && '\n' !in c && exists k :: 0 <= k < |log| && Leaves(log[k]) && Base(log[k].q.name) == c
  {
    hide RunFile, Base, Files, FileName, Stamp;
    var files := Files(map[], log, setup);
    if HasFile(files, c) {
      var n :| n in files && RunFile(n) == Some(c);
      FilesLeft(log, setup, n);
      var k :| 0 <= k < |log| && Leaves(log[k]) && FileOf(log[k], setup) == n;
      RunFileBack(Base(log[k].q.name), setup.stamp);
    }
    if k :| c != "" && '\n' !in c && 0 <= k < |log| && Leaves(log[k]) && Base(log[k].q.name) == c {
      RunFileBack(c, setup.stamp);
      FilesLeft(log, setup, FileName(c, setup.stamp));
      assert FileOf(log[k], setup) == FileName(c, setup.stamp);
    }
  }

  // ----- whose rows are read

  /** The last entry with something to tell about the collector tells of a failure. */
  ghost predicate LastFailed(entries: seq<Entry>, c: string) {
    exists i :: 0 <= i < |entries| && Tells(entries[i], c) && entries[i].status == "failed" &&
                forall j :: i < j < |entries| ==> !Tells(entries[j], c)
  }

  /** Some work of that base name left a file, and the log does not call the
      collector failed. */
  ghost predicate MayFind(log: seq<Work>, setup: Setup, gov: bool, c: string) {
    && c != "" && '\n' !in c && (exists k :: 0 <= k < |log| && Leaves(log[k]) && Base(log[k].q.name) == c)
    && !LastFailed(Entries(log, setup, gov), c)
  }

  /** Something told has a last teller. */
  lemma {:induction false} LastTeller(entries: seq<Entry>, c: string) returns (i: nat)
    requires SomeTells(entries, c)
    ensures i < |entries| && Tells(entries[i], c) && forall j :: i < j < |entries| ==> !Tells(entries[j], c)
  {
    hide Tells;
    var n := |entries| - 1;
    if Tells(entries[n], c) {
      i := n;
    } else {
      TellsOn(entries, n, c);
      i := LastTeller(entries[..n], c);
      assert forall j :: i < j < n ==> !Tells(entries[..n][j], c) && entries[..n][j] == entries[j];
      assert entries[..n][i] == entries[i];
    }
  }

  lemma FailedStatus(entries: seq<Entry>, c: string)
    ensures (c in StatusOf(entries) && StatusOf(entries)[c].state == "failed") <==> LastFailed(entries, c)
  {
    hide Told, StatusKey, StatusOf;
    StatusTold(entries, c);
    if SomeTells(entries, c) {
      var i := LastTeller(entries, c);
      LastTells(entries, c, i);
      if LastFailed(entries, c) {
        var k :| 0 <= k < |entries| && Tells(entries[k], c) && entries[k].status == "failed" &&
                 forall j :: k < j < |entries| ==> !Tells(entries[j], c);
        assert k == i;
      }
    }
  }

  /** After any run into a fresh directory, whatever the query files are called: a
      collector is read exactly when a work of its base name left a file and the
      last entry that tells about the collector tells of no failure. */
  lemma ReadExactly(log: seq<Work>, setup: Setup, gov: bool, c: string)
    requires Stamp(setup.stamp)
    ensures MayRead(StatusOf(Entries(log, setup, gov)), Files(map[], log, setup), c) <==> MayFind(log, setup, gov, c)
  {
    hide Leaves, Base, Files, Entries, StatusOf, LastFailed, HasFile, Stamp;
    FileOfCollector(log, setup, c);
    FailedStatus(Entries(log, setup, gov), c);
  }

  // ----- what the file read holds

  function LeftText(w: Work): string
    requires Leaves(w)
  {
    if w.fate.Saved? then w.fate.data else w.fate.left.value
  }

  /** Work k is the last of its base name that left a file. */
  ghost predicate LastLeft(log: seq<Work>, k: nat, c: string) {
    && k < |log| && Leaves(log[k]) && Base(log[k].q.name) == c
    && forall j :: k < j < |log| && Leaves(log[j]) ==> Base(log[j].q.name) != c
  }

  lemma NameBase(a: string, b: string, stamp: string)
    ensures FileName(a, stamp) == FileName(b, stamp) <==> a == b
  {
    var s := "_" + stamp + ".jsonl";
    assert FileName(a, stamp) == a + s && FileName(b, stamp) == b + s;
    assert (a + s)[..|a|] == a && (b + s)[..|b|] == b;
  }

  lemma {:induction false} FileHolds(log: seq<Work>, setup: Setup, c: string) returns (k: nat)
    requires FileName(c, setup.stamp) in Files(map[], log, setup)
    ensures LastLeft(log, k, c) && Files(map[], log, setup)[FileName(c, setup.stamp)] == LeftText(log[k])
  {
    hide FileName, Base;
    var n := |log| - 1;
    NameBase(Base(log[n].q.name), c, setup.stamp);
    if Leaves(log[n]) && Base(log[n].q.name) == c {
      k := n;
    } else {
      k := FileHolds(log[..n], setup, c);
      assert forall j :: 0 <= j < n ==> log[..n][j] == log[j];
    }
  }

  /** The collector's file is the one of its name. */
  lemma OwnFile(log: seq<Work>, setup: Setup, n: string, c: string)
    requires Stamp(setup.stamp) && n in Files(map[], log, setup) && RunFile(n) == Some(c)
    ensures n == FileName(c, setup.stamp)
  {
    hide RunFile, Base, Files, FileName, Stamp;
    FilesLeft(log, setup, n);
    var k :| 0 <= k < |log| && Leaves(log[k]) && FileOf(log[k], setup) == n;
    RunFileBack(Base(log[k].q.name), setup.stamp);
  }

  // ----- names

  /** Query files as they are shipped, with the extension .sql. */
  predicate SqlName(name: string) {
    |name| > 4 && name[|name| - 4..] == ".sql"
  }

  lemma ExtDot(s: string)
    ensures Ext(s + ".") == "."
  {
  }

  lemma ExtNext(s: string, c: char)
    requires c != '.' && Ext(s) != ""
    ensures Ext(s + [c]) == Ext(s) + [c]
  {
    assert (s + [c])[..|s|] == s;
  }

  lemma SqlBase(name: string)
    requires SqlName(name)
    ensures Ext(name) == ".sql" && Base(name) == TrimSuffix(name, ".sql") == name[..|name| - 4]
  {
    hide Ext;
    var p := name[..|name| - 4];
    assert name == p + ".sql";
    ExtDot(p);
    ExtNext(p + ".", 's');
    assert p + "." + "s" == p + ".s";
    ExtNext(p + ".s", 'q');
    assert p + ".s" + "q" == p + ".sq";
    ExtNext(p + ".sq", 'l');
    assert p + ".sq" + "l" == name;
  }

  ghost predicate SqlRun(log: seq<Work>) {
    && (forall k :: 0 <= k < |log| ==> SqlName(log[k].q.name))
    && forall i, j :: 0 <= i < j < |log| ==> log[i].q.name != log[j].q.name
  }

  lemma OneOfBase(log: seq<Work>, i: nat, j: nat)
    requires SqlRun(log) && i < |log| && j < |log| && Base(log[i].q.name) == Base(log[j].q.name)
    ensures i == j
  {
    hide Base;
    var a, b := log[i].q.name, log[j].q.name;
    SqlBase(a);
    SqlBase(b);
    assert a == a[..|a| - 4] + a[|a| - 4..] && b == b[..|b| - 4] + b[|b| - 4..];
  }

  // ----- runs of .sql files

  /** A file that is read although its collector's entry is not "ok": a write that
      failed half way with an error text in which "UNKNOWN_TABLE" occurs. */
  predicate Mistaken(w: Work, setup: Setup, gov: bool) {
    w.fate.SaveFailed? && w.fate.left.Some? && Contains(Recorded(EntryOf(w, setup), gov).error, UNKNOWN_TABLE)
  }

  ghost predicate RowsFrom(log: seq<Work>, setup: Setup, gov: bool, c: string) {
    exists k :: 0 <= k < |log| && Base(log[k].q.name) == c && (log[k].fate.Saved? || Mistaken(log[k], setup, gov))
  }

  lemma SqlFailed(log: seq<Work>, setup: Setup, gov: bool, k: nat)
    requires SqlRun(log) && k < |log|
    ensures var e := Recorded(EntryOf(log[k], setup), gov);
            LastFailed(Entries(log, setup, gov), Base(log[k].q.name)) <==>
            e.status == "failed" && !Contains(e.error, UNKNOWN_TABLE)
  {
    hide Recorded, EntryOf, Base, Contains;
    var c, es := Base(log[k].q.name), Entries(log, setup, gov);
    EntryNames(log, setup, gov);
    SqlBase(log[k].q.name);
    forall i | 0 <= i < |es| && StatusKey(es[i]) == c ensures i == k {
      SqlBase(log[i].q.name);
      OneOfBase(log, i, k);
    }
    if Tells(es[k], c) && es[k].status == "failed" {
      assert LastFailed(es, c);
    }
  }

  lemma EntryNames(log: seq<Work>, setup: Setup, gov: bool)
    ensures var es := Entries(log, setup, gov);
            && |es| == |log|
            && forall i :: 0 <= i < |es| ==>
                 es[i] == Recorded(EntryOf(log[i], setup), gov) && es[i].name == log[i].q.name &&
                     es[i].stage == "collector"
  {
  }

  lemma FateStatus(w: Work, setup: Setup, gov: bool)
    ensures w.fate.Saved? <==> Recorded(EntryOf(w, setup), gov).status == "ok"
    ensures w.fate.SaveFailed? ==> Recorded(EntryOf(w, setup), gov).status == "failed"
  {
  }

  /** After a run of .sql collectors the condition is one on the collector's own
      work: its entry is "ok", or its write failed half way with a text naming
      UNKNOWN_TABLE. */
  lemma RowsExactly(log: seq<Work>, setup: Setup, gov: bool, c: string)
    requires SqlRun(log)
    ensures MayFind(log, setup, gov, c) <==> '\n' !in c && RowsFrom(log, setup, gov, c)
  {
    hide Base, Entries, Recorded, EntryOf, Contains, SqlRun, LastFailed;
    forall k | 0 <= k < |log| && Base(log[k].q.name) == c
      ensures c != ""
      ensures MayFind(log, setup, gov, c) <==> '\n' !in c && (log[k].fate.Saved? || Mistaken(log[k], setup, gov))
    {
      NamedBase(log, k);
      SqlFailed(log, setup, gov, k);
      FateStatus(log[k], setup, gov);
      forall j | 0 <= j < |log| && Base(log[j].q.name) == c ensures j == k {
        OneOfBase(log, j, k);
      }
    }
  }

  lemma NamedBase(log: seq<Work>, k: nat)
    requires SqlRun(log) && k < |log|
    ensures Base(log[k].q.name) != ""
  {
    SqlBase(log[k].q.name);
  }

  /** In gov mode every error text loses its wording, so of .sql collectors only
      those that succeeded are read. */
  lemma GovRowsOk(log: seq<Work>, setup: Setup, c: string)
    requires SqlRun(log)
    ensures MayFind(log, setup, true, c) <==>
            '\n' !in c && exists k :: 0 <= k < |log| && Base(log[k].q.name) == c && log[k].fate.Saved?
  {
    RowsExactly(log, setup, true, c);
    hide Base, Entries, Recorded, EntryOf, Contains, SqlRun, MayFind;
    forall k | 0 <= k < |log| ensures !Mistaken(log[k], setup, true) {
      GovKeepsCode(EntryOf(log[k], setup), EntryOf(log[k], setup));
    }
  }

  // ----- what a collector that is not read is reported as

  ghost predicate NamesTable(text: string) {
    exists p, q :: text == p + "UNKNOWN_TABLE" + q
  }

  lemma NamesIs(text: string)
    ensures NamesTable(text) <==> Contains(text, UNKNOWN_TABLE)
  {
    var r := Index(text, UNKNOWN_TABLE);
    hide Index;
    if r >= 0 {
      assert text[r..] == UNKNOWN_TABLE + text[r..][13..];
      assert text == text[..r] + "UNKNOWN_TABLE" + text[r..][13..];
    }
    if p, q :| text == p + "UNKNOWN_TABLE" + q {
      assert text[|p|..] == UNKNOWN_TABLE + q;
      assert HasPrefix(text[|p|..], UNKNOWN_TABLE);
    }
  }

  /** What a collector's own work makes of it: a skip is reported with its reason, a
      failure with the message as the log keeps it, except that one which names
      UNKNOWN_TABLE is as if the collector had not been there. */
  ghost predicate ReportedAs(w: Work, setup: Setup, gov: bool, s: Status) {
    match w.fate
    case Skipped(why, at) => s == Status("skipped", setup.show(why))
    case NoText => s == Status("not collected", "")
    case Saved(reply, data, d, note) => s == Status("not collected", "")
    case _ =>
      exists text :: KeptAs(Message(w).value, gov, text) &&
                     s == if NamesTable(text) then Status("not collected", "") else Status("failed", text)
  }

  function Reported(status: map<string, Status>, c: string): Status {
    if c in status then status[c] else Status("not collected", "")
  }

  /** By the fate of the collector's work, if the run had one. */
  ghost predicate Explained(log: seq<Work>, setup: Setup, gov: bool, c: string, s: Status) {
    && (forall k :: 0 <= k < |log| && log[k].q.name == c + ".sql" ==> ReportedAs(log[k], setup, gov, s))
    && ((forall k :: 0 <= k < |log| ==> log[k].q.name != c + ".sql") ==> s == Status("not collected", ""))
  }

  lemma NameOfKey(name: string, c: string)
    requires SqlName(name)
    ensures TrimSuffix(name, ".sql") == c <==> name == c + ".sql"
  {
    assert name == name[..|name| - 4] + ".sql";
    assert name == c + ".sql" ==> name[..|name| - 4] == c;
  }

  /** In a run of .sql files the status map says of a collector what became of its work. */
  lemma {:induction false} StatusByFate(log: seq<Work>, setup: Setup, gov: bool, c: string)
    requires SqlRun(log)
    ensures Explained(log, setup, gov, c, Reported(StatusOf(Entries(log, setup, gov)), c))
  {
    hide StatusOf, Recorded, EntryOf, Entries, Contains, KeptAs, TrimSuffix, SqlName;
    var es := Entries(log, setup, gov);
    EntryNames(log, setup, gov);
    StatusTold(es, c);
    forall i | 0 <= i < |es| ensures StatusKey(es[i]) == c <==> log[i].q.name == c + ".sql" {
      NameOfKey(log[i].q.name, c);
    }
    forall k | 0 <= k < |log| && log[k].q.name == c + ".sql"
      ensures ReportedAs(log[k], setup, gov, Reported(StatusOf(es), c))
    {
      assert forall i :: 0 <= i < |es| && i != k ==> !Tells(es[i], c);
      if Tells(es[k], c) {
        LastTells(es, c, k);
      }
      EntryReported(log[k], setup, gov, Reported(StatusOf(es), c));
    }
  }

  lemma EntryReported(w: Work, setup: Setup, gov: bool, s: Status)
    requires var e := Recorded(EntryOf(w, setup), gov);
             if Told(e) then s == StatusFor(e) else s == Status("not collected", "")
    ensures ReportedAs(w, setup, gov, s)
  {
    var e := Recorded(EntryOf(w, setup), gov);
    EntryExactly(w, setup, gov);
    hide Recorded, EntryOf, Contains, KeptAs, FileName, Base;
    NamesIs(e.error);
    EmptyReason(w, setup, gov);
  }

  lemma EmptyReason(w: Work, setup: Setup, gov: bool)
    ensures var e := Recorded(EntryOf(w, setup), gov);
            && (e.status == "failed" ==> e.extra == "")
            && e.stage == "collector"
  {
  }

  // ----- two files read by mistake

  lemma ContainsAt(s: string, sub: string, k: nat)
    requires k <= |s| && HasPrefix(s[k..], sub)
    ensures Contains(s, sub)
  {
  }

  /** What a full disk says of a file in a directory of that name. */
  const NO_SPACE := "write /out/" + UNKNOWN_TABLE + "/parts_20240101_000000.jsonl: no space left on device"

  lemma KeptUnknown()
    ensures Contains(OneLine(Cap("error saving result: " + NO_SPACE)), UNKNOWN_TABLE)
  {
    var head, tail := "error saving result: write /out/", "/parts_20240101_000000.jsonl: no space left on device";
    var text := "error saving result: " + NO_SPACE;
    assert text == head + UNKNOWN_TABLE + tail;
    var kept := OneLine(text);
    assert Cap(text) == text && |head| == 32;
    forall i | 0 <= i < 13 ensures kept[32..][i] == UNKNOWN_TABLE[i] {
      assert text[32 + i] == UNKNOWN_TABLE[i];
      assert UNKNOWN_TABLE[i] != '\n' && UNKNOWN_TABLE[i] != '|';
    }
    assert kept[32..][..13] == UNKNOWN_TABLE;
    ContainsAt(kept, UNKNOWN_TABLE, 32);
  }

  const HALF := Work(Query("parts.sql", "", Readable("x", true, false)), SaveFailed("{}", NO_SPACE, 0, 2, Some("{")))

  lemma HalfMistaken(setup: Setup)
    ensures Mistaken(HALF, setup, false) && Recorded(EntryOf(HALF, setup), false).status == "failed"
  {
    hide Contains, OneLine, Cap;
    KeptUnknown();
  }

  lemma HalfName()
    ensures SqlName("parts.sql") && Base("parts.sql") == "parts"
  {
    var n := "parts.sql";
    assert n == "parts" + ".sql" && n[5..] == ".sql" && n[..5] == "parts";
    SqlBase(n);
  }

  /** A write of parts.sql that stops half way on a full disk, below a directory
      called UNKNOWN_TABLE, leaves a file that is then read. */
  lemma PartialRead(setup: Setup)
    requires Stamp(setup.stamp)
    ensures Recorded(EntryOf(HALF, setup), false).status == "failed"
    ensures MayRead(StatusOf(Entries([HALF], setup, false)), Files(map[], [HALF], setup), "parts")
  {
    hide Base, MayRead, Mistaken, Stamp, SqlName, Recorded, EntryOf, Files, StatusOf, Entries, Contains;
    hide MayFind;
    HalfMistaken(setup);
    HalfName();
    var log := [HALF];
    assert log[0].q.name == "parts.sql";
    assert RowsFrom(log, setup, false, "parts");
    RowsExactly(log, setup, false, "parts");
    ReadExactly(log, setup, false, "parts");
  }

  const UPPER := Work(Query("parts.SQL", "", Readable("x", true, false)),
                      SaveFailed("{}", "disk full", 0, 2, Some("{")))

  lemma UpperName()
    ensures Base("parts.SQL") == "parts" && TrimSuffix("parts.SQL", ".sql") != "parts"
  {
    hide Ext;
    var p, n := "parts", "parts.SQL";
    ExtDot(p);
    ExtNext(p + ".", 'S');
    assert p + "." + "S" == p + ".S";
    ExtNext(p + ".S", 'Q');
    assert p + ".S" + "Q" == p + ".SQ";
    ExtNext(p + ".SQ", 'L');
    assert p + ".SQ" + "L" == n;
    UpperParts();
  }

  lemma UpperParts()
    ensures TrimSuffix("parts.SQL", ".SQL") == "parts" && TrimSuffix("parts.SQL", ".sql") != "parts"
  {
    var n := "parts.SQL";
    assert n[5..] == ".SQL" && n[..5] == "parts";
    assert n[5..][3] == 'L' && ".sql"[3] == 'l';
  }

  /** The entry of a query file with another extension tells nothing about the
      collector its data file belongs to: what a failed write left is read, in gov
      mode too. */
  lemma OtherExtension(setup: Setup, gov: bool)
    requires Stamp(setup.stamp)
    ensures Recorded(EntryOf(UPPER, setup), gov).status == "failed"
    ensures MayRead(StatusOf(Entries([UPPER], setup, gov)), Files(map[], [UPPER], setup), "parts")
  {
    UpperName();
    hide Base, MayRead, Stamp, Recorded, Files, StatusOf, TrimSuffix;
    var log := [UPPER];
    var es := Entries(log, setup, gov);
    FateStatus(UPPER, setup, gov);
    EntryNames(log, setup, gov);
    assert log[0].q.name == "parts.SQL" && Leaves(log[0]);
    assert !LastFailed(es, "parts");
    ReadExactly(log, setup, gov, "parts");
  }

  // ----- a run and a reading

  lemma RunNames(queries: seq<Query>, log: seq<Work>)
    requires NamedApart(queries) && forall q :: q in queries ==> SqlName(q.name)
    requires |log| == |queries| && forall k :: 0 <= k < |log| ==> log[k].q == OrderByTier(queries)[k]
    ensures SqlRun(log)
  {
    var o := OrderByTier(queries);
    Sorting.SortElements(queries, TierBefore());
    var apart := (a: Query, b: Query) => a.name != b.name;
    Sorting.SortPairwise(queries, TierBefore(), apart);
    forall k | 0 <= k < |log| ensures SqlName(log[k].q.name) {
      assert o[k] in o;
    }
    forall i, j | 0 <= i < j < |log| ensures log[i].q.name != log[j].q.name {
      assert apart(o[i], o[j]);
    }
  }

  /** A run into a fresh directory and a later reading of one collector: it is
      refused exactly when the collector is not readable; else what is read is
      what the last work of its base name left. */
  method CollectAndRead(ex: Executor, queries: seq<Query>, c: string, denied: string -> Option<string>,
                        parse: string -> Result<seq<Row>, string>)
    returns (r: Result<seq<Row>, Failure>, ghost log: seq<Work>)
    requires ex.Wired() && ex.rec != null && ex.rec.entries == [] && ex.dir.files == map[] && Stamp(ex.setup.stamp)
    modifies ex.rec, ex.watch, ex.dir, ex.server, ex.clock
    ensures |log| == |queries| && (forall k :: 0 <= k < |log| ==> log[k].q == OrderByTier(queries)[k])
    ensures ex.rec.entries == Entries(log, ex.setup, ex.rec.gov) && AllScrubbed(log, ex.redact)
    ensures r.Err? && r.error.NotCollected? <==> !MayFind(log, ex.setup, ex.rec.gov, c)
    ensures r.Err? && r.error.NotCollected? && NamedApart(queries) && (forall q :: q in queries ==> SqlName(q.name)) ==>
              r.error.collector == c && Explained(log, ex.setup, ex.rec.gov, c, Status(r.error.state, r.error.reason))
    ensures MayFind(log, ex.setup, ex.rec.gov, c) ==>
              exists k: nat :: LastLeft(log, k, c) &&
                r == Reading(FileName(c, ex.setup.stamp), denied(FileName(c, ex.setup.stamp)), parse(LeftText(log[k])))
  {
    hide Entries, Files, StatusOf, Count, MayRead, Stamp, Unblocked, Ran, Justified, OrderByTier;
    hide FileName, RunFile, LastLeft, LeftText, Names, SentNames, AllScrubbed, Explained, SqlName, NamedApart;
    var success, failed, skipped;
    ghost var events;
    success, failed, skipped, log, events := ex.ExecuteQueries(queries);
    ghost var files := Files(map[], log, ex.setup);
    assert ex.rec.entries == Entries(log, ex.setup, ex.rec.gov) && ex.dir.files == files;
    var status := CollectorStatus(ex.rec);
    var b := new Bundle(ex.dir, status, denied, parse);
    ReadExactly(log, ex.setup, ex.rec.gov, c);
    if NamedApart(queries) && forall q :: q in queries ==> SqlName(q.name) {
      RunNames(queries, log);
      StatusByFate(log, ex.setup, ex.rec.gov, c);
    }
    r := b.Rows(c);
    if MayRead(status, files, c) {
      ghost var n :| n in files && RunFile(n) == Some(c) && r == Reading(n, denied(n), parse(files[n]));
      OwnFile(log, ex.setup, n, c);
      ghost var k := FileHolds(log, ex.setup, c);
    }
  }
}
