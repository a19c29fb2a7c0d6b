/** The collection run, its log and its files, whatever happens. */
module Executor {
  import opened Wrappers
  import opened Text
  import opened RunLog
  import opened CollectMode
  import Ordering
  import Sorting

  const ESSENTIAL_LOOKBACK := 86_400_000_000_000

  /** A query file as it can be read from disk, with the tier and the Keeper need
      its header declares. */
  datatype Content = Unreadable(error: string) | Readable(text: string, essential: bool, needsKeeper: bool)
  datatype Query = Query(name: string, dirName: string, content: Content)

  predicate Essential(q: Query) {
    q.content.Readable? && q.content.essential
  }

  predicate NeedsKeeper(q: Query) {
    q.content.Readable? && q.content.needsKeeper
  }

  // ----- the order

  function TierBefore(): (Query, Query) -> bool {
    (a: Query, b: Query) =>
      if Essential(a) != Essential(b) then Essential(a) else Ordering.Less(a.name, b.name)
  }

  /** Essential collectors first, then by name. */
  function OrderByTier(queries: seq<Query>): (ordered: seq<Query>)
    ensures |ordered| == |queries|
  {
    Sorting.Sort(queries, TierBefore())
  }

  lemma TierWeak(queries: seq<Query>)
    ensures Sorting.Weak(queries, TierBefore())
  {
    var before := TierBefore();
    forall x, y | x in queries && y in queries && before(x, y) ensures !before(y, x) {
      Ordering.LessAsymmetric(x.name, y.name);
    }
    forall x, y, z | x in queries && y in queries && z in queries && !before(y, x) && !before(z, y)
      ensures !before(z, x)
    {
      if Essential(x) == Essential(y) == Essential(z) {
        Ordering.LessWeak(x.name, y.name, z.name);
      }
    }
  }

  /** Every essential collector comes before every other one, and within a tier
      the names ascend. */
  lemma EssentialFirst(queries: seq<Query>, i: nat, j: nat)
    requires i < j < |OrderByTier(queries)|
    ensures var o := OrderByTier(queries);
            && (Essential(o[j]) ==> Essential(o[i]))
            && (Essential(o[i]) == Essential(o[j]) ==> !Ordering.Less(o[j].name, o[i].name))
  {
    TierWeak(queries);
    Sorting.SortOrdered(queries, TierBefore());
    var o := OrderByTier(queries);
    assert !TierBefore()(o[j], o[i]);
  }

  ghost predicate NamedApart(queries: seq<Query>) {
    forall i, j :: 0 <= i < j < |queries| ==> queries[i].name != queries[j].name
  }

  /** The order does not depend on how the map of queries happens to be listed. */
  lemma OrderUnique(queries: seq<Query>, others: seq<Query>)
    requires multiset(queries) == multiset(others) && NamedApart(queries)
    ensures OrderByTier(queries) == OrderByTier(others)
  {
    TierWeak(queries);
    forall x, y | x in queries && y in queries && x != y ensures TierBefore()(x, y) || TierBefore()(y, x) {
      Ordering.LessTotal(x.name, y.name);
      SameNameSame(queries, x, y);
    }
    Sorting.SortUnique(queries, others, TierBefore());
  }

  lemma SameNameSame(queries: seq<Query>, x: Query, y: Query)
    requires NamedApart(queries) && x in queries && y in queries
    ensures x.name == y.name ==> x == y
  {
    var i :| 0 <= i < |queries| && queries[i] == x;
    var j :| 0 <= j < |queries| && queries[j] == y;
  }

  // ----- what one collector comes to

  datatype Answer = Text(raw: string) | Failed(error: string)

  datatype SkipReason = BudgetSpent(budget: int) | NoKeeper(why: string) | EssentialOnly(reason: Option<Reason>)

  /** at is the time the skip was decided, reply what the server sent, left what a
      failed write left on disk. */
  datatype Fate =
    | Skipped(reason: SkipReason, at: int)
    | NotRead
    | NoText
    | NotSent(error: string)
    | ServerFailed(error: string, d: int)
    | SaveFailed(reply: string, error: string, d: int, bytes: nat, left: Option<string>)
    | Saved(reply: string, data: string, d: int, note: string)

  /** A collector of the run and what it came to. */
  datatype Work = Work(q: Query, fate: Fate)

  /** The texts a run is set up with: the stamp in its file names and the wording
      of skip reasons. */
  datatype Setup = Setup(stamp: string, show: SkipReason -> string)

  /** filepath.Ext of a file name: from the last dot on. */
  function Ext(name: string): (e: string)
    ensures |e| <= |name|
  {
    if name == "" then ""
    else if name[|name| - 1] == '.' then "."
    else
      var r := Ext(name[..|name| - 1]);
      if r == "" then "" else r + [name[|name| - 1]]
  }

  function Base(name: string): string {
    TrimSuffix(name, Ext(name))
  }

  function FileName(base: string, stamp: string): string {
    base + "_" + stamp + ".jsonl"
  }

  function Newlines(s: string): nat {
    if s == "" then 0 else (if s[|s| - 1] == '\n' then 1 else 0) + Newlines(s[..|s| - 1])
  }

  /** The log entry before the recorder shortens it. */
  function EntryOf(w: Work, setup: Setup): Entry {
    var none := Entry("collector", w.q.name, w.q.dirName, "failed", 0, 0, -1, "", "");
    match w.fate
    case Skipped(reason, at) => none.(status := "skipped", extra := setup.show(reason))
    case NotRead =>
      none.(error := "error reading query file: " + if w.q.content.Unreadable? then w.q.content.error else "")
    case NoText => none.(status := "empty", extra := "query file is empty")
    case NotSent(error) => none.(error := error)
    case ServerFailed(error, d) => none.(duration := d, error := error)
    case SaveFailed(reply, error, d, bytes, left) =>
      none.(duration := d, bytes := bytes, error := "error saving result: " + error)
    case Saved(reply, data, d, note) =>
      none.(status := "ok", duration := d, bytes := |data|, rows := Newlines(data),
            extra := FileName(Base(w.q.name), setup.stamp) + if note != "" then "; " + note else "")
  }

  /** The error executeQuery hands back. */
  function ErrorOf(w: Work, setup: Setup): Option<string> {
    match w.fate
    case ServerFailed(error, d) => Some("error executing query: " + error)
    case _ => if EntryOf(w, setup).status == "failed" then Some(EntryOf(w, setup).error) else None
  }

  function FilesAfter(files: map<string, string>, w: Work, setup: Setup): map<string, string> {
    var name := FileName(Base(w.q.name), setup.stamp);
    match w.fate
    case Saved(reply, data, d, note) => files[name := data]
    case SaveFailed(reply, error, d, bytes, left) => if left.Some? then files[name := left.value] else files
    case _ => files
  }

  predicate Asks(f: Fate) {
    f.ServerFailed? || f.SaveFailed? || f.Saved?
  }

  /** What the server answered, for a fate that asked it. */
  function AnswerOf(f: Fate): Answer
    requires Asks(f)
  {
    match f
    case ServerFailed(error, d) => Failed(error)
    case SaveFailed(reply, error, d, bytes, left) => Text(reply)
    case Saved(reply, data, d, note) => Text(reply)
  }

  function Duration(f: Fate): int {
    match f
    case ServerFailed(error, d) => d
    case SaveFailed(reply, error, d, bytes, left) => d
    case Saved(reply, data, d, note) => d
    case _ => 0
  }

  /** What was written, or its part a failed write left, is the server's reply
      passed through the redactor. */
  predicate Scrubbed(w: Work, redact: (string, string) -> (string, string)) {
    match w.fate
    case Saved(reply, data, d, note) => (data, note) == redact(w.q.name, reply)
    case SaveFailed(reply, error, d, bytes, left) =>
      var data := redact(w.q.name, reply).0;
      bytes == |data| && (left.Some? ==> left.value <= data)
    case _ => true
  }

  // ----- a whole run

  function Entries(log: seq<Work>, setup: Setup, gov: bool): seq<Entry> {
    seq(|log|, i requires 0 <= i < |log| => Recorded(EntryOf(log[i], setup), gov))
  }

  function Files(files: map<string, string>, log: seq<Work>, setup: Setup): map<string, string> {
    if log == [] then files
    else FilesAfter(Files(files, log[..|log| - 1], setup), log[|log| - 1], setup)
  }

  /** The collectors that were executed, in order. */
  function Ran(log: seq<Work>): seq<Query> {
    if log == [] then []
    else
      var r := Ran(log[..|log| - 1]);
      if log[|log| - 1].fate.Skipped? then r else r + [log[|log| - 1].q]
  }

  /** The names sent to the server, in order. */
  function SentNames(log: seq<Work>): seq<string> {
    if log == [] then []
    else
      var r := SentNames(log[..|log| - 1]);
      if Asks(log[|log| - 1].fate) then r + [log[|log| - 1].q.name] else r
  }

  /** The server's answers, in order. */
  function AnswersOf(log: seq<Work>): seq<Answer> {
    if log == [] then []
    else
      var r := AnswersOf(log[..|log| - 1]);
      if Asks(log[|log| - 1].fate) then r + [AnswerOf(log[|log| - 1].fate)] else r
  }

  predicate Blocked(q: Query, keeperDown: string) {
    keeperDown != "" && NeedsKeeper(q)
  }

  /** The collectors that do not wait for a missing Keeper session. */
  function Unblocked(queries: seq<Query>, keeperDown: string): seq<Query> {
    if queries == [] then []
    else
      var r := Unblocked(queries[..|queries| - 1], keeperDown);
      if Blocked(queries[|queries| - 1], keeperDown) then r else r + [queries[|queries| - 1]]
  }

  function Count(log: seq<Work>, setup: Setup, kind: Kind): nat {
    if log == [] then 0
    else Count(log[..|log| - 1], setup, kind) + if KindOf(log[|log| - 1], setup) == kind then 1 else 0
  }

  datatype Kind = Success | Failure | Skip

  function KindOf(w: Work, setup: Setup): Kind {
    if w.fate.Skipped? then Skip else if ErrorOf(w, setup).Some? then Failure else Success
  }

  /** Every collector is counted once. */
  lemma {:induction false} CountsAddUp(log: seq<Work>, setup: Setup)
    ensures Count(log, setup, Success) + Count(log, setup, Failure) + Count(log, setup, Skip) == |log|
  {
    if log != [] {
      CountsAddUp(log[..|log| - 1], setup);
    }
  }

  /** The counts are those of the log's statuses: an empty file counts as a success. */
  lemma {:induction false} CountsAreStatuses(log: seq<Work>, setup: Setup, gov: bool)
    ensures Count(log, setup, Skip) == StatusCount(Entries(log, setup, gov), "skipped")
    ensures Count(log, setup, Failure) == StatusCount(Entries(log, setup, gov), "failed")
    ensures Count(log, setup, Success) ==
            StatusCount(Entries(log, setup, gov), "ok") + StatusCount(Entries(log, setup, gov), "empty")
  {
    hide Recorded, EntryOf, KindOf;
    if log != [] {
      var n := |log| - 1;
      CountsAreStatuses(log[..n], setup, gov);
      var e := Entries(log, setup, gov);
      assert e[..n] == Entries(log[..n], setup, gov);
      assert e[n] == Recorded(EntryOf(log[n], setup), gov);
      StatusKind(log[n], setup, gov);
    }
  }

  lemma StatusKind(w: Work, setup: Setup, gov: bool)
    ensures var s := Recorded(EntryOf(w, setup), gov).status;
            match KindOf(w, setup)
            case Skip => s == "skipped"
            case Failure => s == "failed"
            case Success => s == "ok" || s == "empty"
  {
  }

  function StatusCount(entries: seq<Entry>, status: string): nat {
    if entries == [] then 0
    else StatusCount(entries[..|entries| - 1], status) + if entries[|entries| - 1].status == status then 1 else 0
  }

  lemma LogNext(log: seq<Work>, w: Work, setup: Setup, gov: bool, files: map<string, string>)
    ensures var more := log + [w];
            && Entries(more, setup, gov) == Entries(log, setup, gov) + [Recorded(EntryOf(w, setup), gov)]
            && Files(files, more, setup) == FilesAfter(Files(files, log, setup), w, setup)
            && Ran(more) == (if w.fate.Skipped? then Ran(log) else Ran(log) + [w.q])
            && SentNames(more) == (if Asks(w.fate) then SentNames(log) + [w.q.name] else SentNames(log))
            && AnswersOf(more) == (if Asks(w.fate) then AnswersOf(log) + [AnswerOf(w.fate)] else AnswersOf(log))
            && forall kind ::
                 Count(more, setup, kind) == Count(log, setup, kind) + if KindOf(w, setup) == kind then 1 else 0
  {
    hide Recorded, EntryOf, FilesAfter, KindOf, Asks, AnswerOf;
    assert (log + [w])[..|log|] == log;
  }

  // ----- what is kept while the run goes on

  /** The watchdog will let nothing more run: the budget is spent, or the run is
      essential and only other collectors are left. */
  ghost predicate Closed(w: State, now: int, rest: seq<Query>) {
    Over(w, now) || (w.tripped && forall q :: q in rest ==> !Essential(q))
  }

  /** The executed collectors are the first so many of the unblocked ones; all of
      them as long as the run is open. */
  ghost predicate InStep(log: seq<Work>, ordered: seq<Query>, keeperDown: string, open: bool) {
    && |log| <= |ordered| && (forall k :: 0 <= k < |log| ==> log[k].q == ordered[k])
    && Ran(log) <= Unblocked(ordered[..|log|], keeperDown)
    && (open ==> Ran(log) == Unblocked(ordered[..|log|], keeperDown))
  }

  /** A collector is skipped for a reason that holds, and one that waits for a
      missing Keeper session always is. */
  ghost predicate Justified(w: Work, keeperDown: string, watch: Option<State>) {
    && (Blocked(w.q, keeperDown) ==> w.fate.Skipped?)
    && (w.fate.Skipped? ==>
          match w.fate.reason
          case BudgetSpent(budget) => watch.Some? && watch.value.budget == budget && Over(watch.value, w.fate.at)
          case NoKeeper(why) => why == keeperDown && Blocked(w.q, keeperDown)
          case EssentialOnly(reason) =>
            watch.Some? && watch.value.tripped && watch.value.reason == reason && !Essential(w.q))
  }

  /** What a watchdog does not take back: a budget it has and when that began, and
      being tripped with its reason. */
  ghost predicate Later(s: State, t: State) {
    && (s.budget > 0 ==> t.budget == s.budget && t.started == s.started)
    && (s.tripped ==> t.tripped && t.reason == s.reason)
  }

  lemma StillJustified(log: seq<Work>, keeperDown: string, s: State, t: State)
    requires (forall k :: 0 <= k < |log| ==> Justified(log[k], keeperDown, Some(s))) && Later(s, t)
    ensures forall k :: 0 <= k < |log| ==> Justified(log[k], keeperDown, Some(t))
  {
  }

  lemma ObservedLater(s: State, name: string, d: int, timedOut: bool, now: int)
    ensures Later(s, Step(s, Observe(name, d, timedOut), now))
  {
  }

  lemma StepOn(log: seq<Work>, ordered: seq<Query>, keeperDown: string, open: bool, w: Work, still: bool)
    requires InStep(log, ordered, keeperDown, open) && |log| < |ordered| && w.q == ordered[|log|]
    requires Blocked(w.q, keeperDown) ==> w.fate.Skipped?
    requires !open ==> w.fate.Skipped?
    requires still ==> open && (w.fate.Skipped? ==> Blocked(w.q, keeperDown))
    ensures InStep(log + [w], ordered, keeperDown, still)
  {
    var n := |log|;
    assert ordered[..n + 1][..n] == ordered[..n];
    assert (log + [w])[..n] == log;
  }

  /** From a full-tier collector on, no essential one is left. */
  lemma RestFull(queries: seq<Query>, i: nat)
    requires i < |OrderByTier(queries)| && !Essential(OrderByTier(queries)[i])
    ensures forall q :: q in OrderByTier(queries)[i..] ==> !Essential(q)
  {
    var o := OrderByTier(queries);
    forall j | i < j < |o| ensures !Essential(o[j]) {
      EssentialFirst(queries, i, j);
    }
  }

  /** What holds between two collectors of a run. */
  ghost predicate Underway(log: seq<Work>, queries: seq<Query>, keeperDown: string, watch: Option<State>, now: int,
                           open: bool) {
    && InStep(log, OrderByTier(queries), keeperDown, open)
    && (!open ==> watch.Some? && Closed(watch.value, now, OrderByTier(queries)[|log|..]))
    && forall k :: 0 <= k < |log| ==> Justified(log[k], keeperDown, watch)
  }

  lemma NothingRun(queries: seq<Query>, keeperDown: string, watch: Option<State>, now: int)
    ensures Underway([], queries, keeperDown, watch, now, true)
  {
  }

  lemma ClosedOn(w: State, now: int, later: int, rest: seq<Query>, part: seq<Query>)
    requires Closed(w, now, rest) && now <= later && forall q :: q in part ==> q in rest
    ensures Closed(w, later, part)
  {
  }

  lemma SkipOn(log: seq<Work>, queries: seq<Query>, keeperDown: string, watch: Option<State>, now: int, later: int,
               open: bool, w: Work)
    requires Underway(log, queries, keeperDown, watch, now, open) && now <= later
    requires |log| < |OrderByTier(queries)| && w.q == OrderByTier(queries)[|log|] && w.fate.Skipped?
    requires Justified(w, keeperDown, watch)
    requires Blocked(w.q, keeperDown) || (watch.Some? && Closed(watch.value, later, [w.q]))
    ensures Underway(log + [w], queries, keeperDown, watch, later, open && Blocked(w.q, keeperDown))
  {
    hide InStep, Justified, OrderByTier, Blocked;
    var o, n := OrderByTier(queries), |log|;
    StepOn(log, o, keeperDown, open, w, open && Blocked(w.q, keeperDown));
    assert forall q :: q in o[n + 1..] ==> q in o[n..];
    if !open {
      ClosedOn(watch.value, now, later, o[n..], o[n + 1..]);
    } else if !Blocked(w.q, keeperDown) {
      assert w.q in [w.q];
      if !Over(watch.value, later) {
        RestFull(queries, n);
      }
    }
  }

  lemma RunOn(log: seq<Work>, queries: seq<Query>, keeperDown: string, watch: Option<State>, now: int, decided: int,
              open: bool, w: Work, after: Option<State>, later: int)
    requires Underway(log, queries, keeperDown, watch, now, open) && now <= decided
    requires |log| < |OrderByTier(queries)| && w.q == OrderByTier(queries)[|log|] && !w.fate.Skipped?
    requires !Blocked(w.q, keeperDown) && (watch.Some? ==> !Closed(watch.value, decided, [w.q]))
    requires watch.Some? == after.Some? && (watch.Some? ==> Later(watch.value, after.value))
    ensures Underway(log + [w], queries, keeperDown, after, later, true)
  {
    hide InStep, OrderByTier, Later;
    var o, n := OrderByTier(queries), |log|;
    assert w.q in o[n..];
    assert open by {
      if !open {
        ClosedOn(watch.value, now, decided, o[n..], [w.q]);
      }
    }
    StepOn(log, o, keeperDown, open, w, true);
    if watch.Some? {
      StillJustified(log, keeperDown, watch.value, after.value);
    }
  }

  lemma RunDone(log: seq<Work>, queries: seq<Query>, keeperDown: string, watch: Option<State>, now: int, open: bool)
    requires Underway(log, queries, keeperDown, watch, now, open) && |log| == |queries|
    ensures forall k :: 0 <= k < |log| ==> log[k].q == OrderByTier(queries)[k]
    ensures Ran(log) <= Unblocked(OrderByTier(queries), keeperDown)
    ensures watch.None? ==> Ran(log) == Unblocked(OrderByTier(queries), keeperDown)
    ensures forall k :: 0 <= k < |log| ==> Justified(log[k], keeperDown, watch)
  {
    assert OrderByTier(queries)[..|log|] == OrderByTier(queries);
  }

  // ----- the machinery around the run

  datatype Prepared = Ready | Refused(error: string)
  datatype Sent = Sent(name: string, lookback: int)

  class Server {
    var asked: seq<Sent>
    var answered: seq<Answer>

    constructor ()
      ensures asked == [] && answered == []
    {
      asked, answered := [], [];
    }

    method Ask(name: string, lookback: int) returns (a: Answer)
      modifies this
      ensures asked == old(asked) + [Sent(name, lookback)] && answered == old(answered) + [a]
    {
      a := *;
      asked, answered := asked + [Sent(name, lookback)], answered + [a];
    }
  }

  class Dir {
    var files: map<string, string>

    constructor ()
      ensures files == map[]
    {
      files := map[];
    }

    /** A write that fails may leave a part of the data, or nothing. */
    method Write(name: string, data: string) returns (err: Option<string>, ghost left: Option<string>)
      modifies this
      ensures err.None? ==> files == old(files)[name := data]
      ensures err.Some? && left.Some? ==> files == old(files)[name := left.value] && left.value <= data
      ensures err.Some? && left.None? ==> files == old(files)
    {
      err, left := *, None;
      if err.None? {
        files := files[name := data];
      } else {
        var part: int := *;
        if 0 <= part <= |data| {
          left := Some(data[..part]);
          files := files[name := data[..part]];
        }
      }
    }
  }

  class Executor {
    const rec: Recorder?
    const watch: Watchdog?
    const dir: Dir
    const server: Server
    const clock: Clock
    const setup: Setup
    const maxLookback: int
    const keeperDown: string
    const isTimeout: string -> bool
    const redact: (string, string) -> (string, string)

    ghost predicate Wired() {
      watch != null ==> watch.clock == clock
    }

    constructor (rec: Recorder?, watch: Watchdog?, dir: Dir, server: Server, clock: Clock, setup: Setup,
                 maxLookback: int,
                 keeperDown: string, isTimeout: string -> bool, redact: (string, string) -> (string, string))
      requires watch != null ==> watch.clock == clock
      ensures Wired() && this.rec == rec && this.watch == watch && this.dir == dir && this.server == server
      ensures this.clock == clock && this.setup == setup && this.keeperDown == keeperDown &&
              this.maxLookback == maxLookback
      ensures this.isTimeout == isTimeout && this.redact == redact
    {
      this.rec, this.watch, this.dir, this.server, this.clock := rec, watch, dir, server, clock;
      this.setup, this.maxLookback, this.keeperDown, this.isTimeout, this.redact := setup, maxLookback, keeperDown,
          isTimeout, redact;
    }

    /** The window cap of the next query. */
    function Lookback(): (d: int)
      reads watch
      ensures maxLookback > 0 ==> d == maxLookback
      ensures maxLookback <= 0 ==> d == if watch != null && watch.tripped then ESSENTIAL_LOOKBACK else 0
    {
      if maxLookback > 0 then maxLookback
      else if watch != null && watch.tripped then ESSENTIAL_LOOKBACK
      else 0
    }

    method Record(w: Work)
      modifies rec
      ensures rec != null ==>
                rec.gov == old(rec.gov) && rec.entries == old(rec.entries) + [Recorded(EntryOf(w, setup), rec.gov)]
    {
      if rec != null {
        rec.Record(EntryOf(w, setup));
      }
    }

    method ExecuteQuery(q: Query) returns (err: Option<string>, ghost fate: Fate)
      requires Wired()
      modifies rec, dir, server, clock
      ensures clock.now >= old(clock.now) && !fate.Skipped?
      ensures 0 <= Duration(fate) <= clock.now - old(clock.now)
      ensures err == ErrorOf(Work(q, fate), setup)
      ensures rec != null ==>
                && rec.gov == old(rec.gov)
                && rec.entries == old(rec.entries) + [Recorded(EntryOf(Work(q, fate), setup), rec.gov)]
      ensures dir.files == FilesAfter(old(dir.files), Work(q, fate), setup) && Scrubbed(Work(q, fate), redact)
      ensures server.asked == if Asks(fate) then old(server.asked) + [Sent(q.name, Lookback())] else old(server.asked)
      ensures server.answered == if Asks(fate) then old(server.answered) + [AnswerOf(fate)] else old(server.answered)
    {
      hide FileName, Recorded, Base, Newlines;
      if q.content.Unreadable? {
        fate := NotRead;
        Record(Work(q, NotRead));
        return Some("error reading query file: " + q.content.error), NotRead;
      }
      if |q.content.text| == 0 {
        Record(Work(q, NoText));
        return None, NoText;
      }
      var prepared: Prepared := *;
      if prepared.Refused? {
        Record(Work(q, NotSent(prepared.error)));
        return Some(prepared.error), NotSent(prepared.error);
      }
      var started := clock.Now();
      var answer := server.Ask(q.name, Lookback());
      var ended := clock.Now();
      if answer.Failed? {
        Record(Work(q, ServerFailed(answer.error, ended - started)));
        return Some("error executing query: " + answer.error), ServerFailed(answer.error, ended - started);
      }
      var raw := answer.raw;
      var (data, note) := redact(q.name, raw);
      ghost var left;
      var failure;
      failure, left := dir.Write(FileName(Base(q.name), setup.stamp), data);
      if failure.Some? {
        Record(Work(q, SaveFailed(raw, failure.value, ended - started, |data|, None)));
        fate := SaveFailed(raw, failure.value, ended - started, |data|, left);
        return Some("error saving result: " + failure.value), fate;
      }
      Record(Work(q, Saved(raw, data, ended - started, note)));
      return None, Saved(raw, data, ended - started, note);
    }

    /** Why a collector is not run now, if so: the budget first, then the missing
        Keeper session, then the tier. */
    method Decide(q: Query) returns (why: Option<SkipReason>, ghost at: int)
      requires Wired()
      modifies clock
      ensures old(clock.now) <= at <= clock.now
      ensures why.None? ==> !Blocked(q, keeperDown) && (watch != null ==> !Closed(watch.Value(), clock.now, [q]))
      ensures why.Some? ==> Justified(Work(q, Skipped(why.value, at)), keeperDown, Watching())
      ensures why.Some? && !Blocked(q, keeperDown) ==> watch != null && Closed(watch.Value(), clock.now, [q])
    {
      at := clock.now;
      if watch != null {
        var over := watch.OverBudget();
        at := clock.now;
        if over {
          return Some(BudgetSpent(watch.budget)), at;
        }
      }
      if keeperDown != "" && NeedsKeeper(q) {
        return Some(NoKeeper(keeperDown)), at;
      }
      if watch != null && watch.tripped && !Essential(q) {
        return Some(EssentialOnly(watch.reason)), at;
      }
      return None, at;
    }

    ghost function Watching(): Option<State>
      reads watch
    {
      if watch == null then None else Some(watch.Value())
    }

    /** One collector, its outcome and time shown to the watchdog: the time covers
        that of the query and lies within the time that has passed. */
    method ExecuteObserved(q: Query) returns (err: Option<string>, ghost fate: Fate, ghost seen: Moment)
      requires Wired()
      modifies rec, watch, dir, server, clock
      ensures clock.now >= old(clock.now) && !fate.Skipped?
      ensures err == ErrorOf(Work(q, fate), setup)
      ensures rec != null ==>
                && rec.gov == old(rec.gov)
                && rec.entries == old(rec.entries) + [Recorded(EntryOf(Work(q, fate), setup), rec.gov)]
      ensures dir.files == FilesAfter(old(dir.files), Work(q, fate), setup) && Scrubbed(Work(q, fate), redact)
      ensures Names(server.asked) == Names(old(server.asked)) + if Asks(fate) then [q.name] else []
      ensures server.answered == old(server.answered) + if Asks(fate) then [AnswerOf(fate)] else []
      ensures Watched(seen, Work(q, fate), setup, isTimeout)
      ensures 0 <= seen.event.d <= clock.now - old(clock.now) && old(clock.now) <= seen.now <= clock.now
      ensures watch != null ==> watch.Value() == Step(old(watch.Value()), seen.event, seen.now)
      ensures watch != null ==> Later(old(watch.Value()), watch.Value())
    {
      hide Recorded, EntryOf, FilesAfter, Step, Later, ErrorOf, Scrubbed, AnswerOf;
      ghost var asked := server.asked;
      ghost var sent := Sent(q.name, Lookback());
      ghost var state := Watching();
      var started := clock.Now();
      err, fate := ExecuteQuery(q);
      var ended := clock.Now();
      NamesOn(asked, sent);
      var timedOut := err.Some? && isTimeout(err.value);
      seen := Moment(Observe(q.name, ended - started, timedOut), clock.now);
      if watch != null {
        watch.Observe(q.name, ended - started, timedOut);
        ObservedLater(state.value, q.name, ended - started, timedOut, clock.now);
        seen := seen.(now := clock.now);
      }
    }

    /** One collector of the run, skipped or executed. */
    method Next(q: Query) returns (kind: Kind, ghost w: Work, ghost seen: Option<Moment>, ghost decided: int)
      requires Wired()
      modifies rec, watch, dir, server, clock
      ensures w.q == q && kind == KindOf(w, setup) && old(clock.now) <= decided <= clock.now
      ensures rec != null ==>
                rec.gov == old(rec.gov) && rec.entries == old(rec.entries) + [Recorded(EntryOf(w, setup), rec.gov)]
      ensures dir.files == FilesAfter(old(dir.files), w, setup) && Scrubbed(w, redact)
      ensures Names(server.asked) == Names(old(server.asked)) + if Asks(w.fate) then [q.name] else []
      ensures server.answered == old(server.answered) + if Asks(w.fate) then [AnswerOf(w.fate)] else []
      ensures w.fate.Skipped? ==>
                && seen.None? && Watching() == old(Watching()) && old(clock.now) <= w.fate.at <= clock.now == decided
                && Justified(w, keeperDown, Watching())
                && (Blocked(q, keeperDown) || (watch != null && Closed(watch.Value(), decided, [q])))
      ensures !w.fate.Skipped? ==>
                && seen.Some? && Watched(seen.value, w, setup, isTimeout) && !Blocked(q, keeperDown)
                && (watch != null ==>
                      && !Closed(old(watch.Value()), decided, [q]) && Later(old(watch.Value()), watch.Value())
                      && watch.Value() == Step(old(watch.Value()), seen.value.event, seen.value.now))
    {
      hide Recorded, EntryOf, FilesAfter, Step, Justified, Later, Blocked, Closed, Names, ErrorOf, Watched, AnswerOf;
      var why;
      ghost var at;
      why, at := Decide(q);
      decided := clock.now;
      if why.Some? {
        w, seen, kind := Work(q, Skipped(why.value, at)), None, Skip;
        Record(Work(q, Skipped(why.value, clock.now)));
        SkipsEqual(q, why.value, at, decided, setup, dir.files);
      } else {
        var err;
        ghost var fate, m;
        err, fate, m := ExecuteObserved(q);
        w, seen := Work(q, fate), Some(m);
        kind := if err.Some? then Failure else Success;
      }
    }

    /** The whole run: one log entry and one fate for every collector, in the order
        of tiers and names. The executed collectors are a prefix of those not
        blocked by a missing Keeper session, and only they reach the server. */
    method ExecuteQueries(queries: seq<Query>)
      returns (success: nat, failed: nat, skipped: nat, ghost log: seq<Work>, ghost events: seq<Moment>)
      requires Wired()
      modifies rec, watch, dir, server, clock
      ensures |log| == |queries| && (forall k :: 0 <= k < |log| ==> log[k].q == OrderByTier(queries)[k])
      ensures rec != null ==> rec.entries == old(rec.entries) + Entries(log, setup, rec.gov)
      ensures dir.files == Files(old(dir.files), log, setup) && AllScrubbed(log, redact)
      ensures success == Count(log, setup, Success) && failed == Count(log, setup, Failure)
      ensures skipped == Count(log, setup, Skip) && success + failed + skipped == |queries|
      ensures Ran(log) <= Unblocked(OrderByTier(queries), keeperDown)
      ensures watch == null ==> Ran(log) == Unblocked(OrderByTier(queries), keeperDown)
      ensures forall k :: 0 <= k < |log| ==> Justified(log[k], keeperDown, Watching())
      ensures DecidedWithin(log, old(clock.now), clock.now)
      ensures SkipsInPlain(log, keeperDown)
      ensures watch != null ==> TimelySkips(log, old(watch.Value()), events)
      ensures watch != null ==>
                Later(old(watch.Value()), watch.Value()) && watch.Value() == Run(old(watch.Value()), events)
      ensures ObservedRun(events, log, setup, isTimeout)
      ensures Names(server.asked) == Names(old(server.asked)) + SentNames(log)
      ensures server.answered == old(server.answered) + AnswersOf(log)
    {
      hide Recorded, EntryOf, FilesAfter, Step, Justified, Later, Underway, Blocked, Closed, OrderByTier, Unblocked;
      hide Entries, Files, Ran, SentNames, AnswersOf, AnswerOf, Count, Names, Asks, KindOf, ErrorOf, Run, ObservedRun;
      hide Watched, Scrubbed, AllScrubbed, DecidedWithin, FileName, TimelySkips, SkipsInPlain;
      var ordered := OrderByTier(queries);
      success, failed, skipped, log, events := 0, 0, 0, [], [];
      ghost var open, gov := true, rec != null && rec.gov;
      NothingRun(queries, keeperDown, Watching(), clock.now);
      LaterSelf(Watching());
      EmptyLog(setup, gov, dir.files, redact, isTimeout, clock.now);
      for i := 0 to |ordered|
        invariant |log| == i && clock.now >= old(clock.now)
        invariant Underway(log, queries, keeperDown, Watching(), clock.now, open)
        invariant rec != null ==> rec.gov == gov && rec.entries == old(rec.entries) + Entries(log, setup, gov)
        invariant dir.files == Files(old(dir.files), log, setup) && AllScrubbed(log, redact)
        invariant success == Count(log, setup, Success) && failed == Count(log, setup, Failure)
        invariant skipped == Count(log, setup, Skip)
        invariant DecidedWithin(log, old(clock.now), clock.now)
        invariant watch != null ==>
                    Later(old(watch.Value()), watch.Value()) && watch.Value() == Run(old(watch.Value()), events)
        invariant ObservedRun(events, log, setup, isTimeout)
        invariant Names(server.asked) == Names(old(server.asked)) + SentNames(log)
        invariant server.answered == old(server.answered) + AnswersOf(log)
      {
        ghost var t0, state := clock.now, Watching();
        var kind;
        ghost var w, seen, decided;
        kind, w, seen, decided := Next(ordered[i]);
        if w.fate.Skipped? {
          SkipOn(log, queries, keeperDown, state, t0, decided, open, w);
          open := open && Blocked(w.q, keeperDown);
        } else {
          if watch != null {
            LaterOn(old(watch.Value()), state.value, watch.Value());
            RunNext(old(watch.Value()), events, seen.value);
          }
          RunOn(log, queries, keeperDown, state, t0, decided, open, w, Watching(), clock.now);
          open := true;
        }
        ObservedNext(events, log, seen, w, setup, isTimeout);
        events := if seen.Some? then events + [seen.value] else events;
        match kind {
          case Success => success := success + 1;
          case Failure => failed := failed + 1;
          case Skip => skipped := skipped + 1;
        }
        LogNext(log, w, setup, gov, old(dir.files));
        LogKept(log, w, redact, old(clock.now), t0, clock.now);
        log := log + [w];
      }
      RunDone(log, queries, keeperDown, Watching(), clock.now, open);
      SkipsPlain(log, keeperDown, Watching());
      if watch != null {
        SkipsTimely(log, old(watch.Value()), events, keeperDown);
      }
      CountsAddUp(log, setup);
    }
  }

  // ----- about whole logs

  /** Why collectors are skipped, in plain terms: for a missing Keeper session just those
      whose file asks for one; for the tier only those whose file does not declare
      itself essential. */
  ghost predicate SkipsInPlain(log: seq<Work>, keeperDown: string) {
    forall k :: 0 <= k < |log| ==>
      var c := log[k].q.content;
      && (keeperDown != "" && c.Readable? && c.needsKeeper ==> log[k].fate.Skipped?)
      && (log[k].fate.Skipped? ==>
            match log[k].fate.reason
            case NoKeeper(why) => why == keeperDown && keeperDown != "" && c.Readable? && c.needsKeeper
            case EssentialOnly(_) => c.Readable? ==> !c.essential
            case BudgetSpent(budget) => budget > 0)
  }

  lemma SkipsPlain(log: seq<Work>, keeperDown: string, watch: Option<State>)
    requires forall k :: 0 <= k < |log| ==> Justified(log[k], keeperDown, watch)
    ensures SkipsInPlain(log, keeperDown)
  {
    forall k | 0 <= k < |log| ensures Justified(log[k], keeperDown, watch) {
    }
  }

  /** Whatever brought the watchdog where it was before the run: a collector is skipped
      for the budget only at a time when, by the times of all events, it was spent. */
  ghost predicate TimelySkips(log: seq<Work>, before: State, events: seq<Moment>) {
    forall b, tb, locked, es :: before == Run(Fresh(b, tb, locked), es) ==>
      forall k :: 0 <= k < |log| && log[k].fate.Skipped? && log[k].fate.reason.BudgetSpent? ==>
        Spent(b, tb, locked, es + events, log[k].fate.at)
  }

  lemma SkipsTimely(log: seq<Work>, before: State, events: seq<Moment>, keeperDown: string)
    requires forall k :: 0 <= k < |log| ==> Justified(log[k], keeperDown, Some(Run(before, events)))
    ensures TimelySkips(log, before, events)
  {
    hide Spent, Run;
    forall b, tb, locked, es, k | before == Run(Fresh(b, tb, locked), es) &&
                                  0 <= k < |log| && log[k].fate.Skipped? && log[k].fate.reason.BudgetSpent?
      ensures Spent(b, tb, locked, es + events, log[k].fate.at)
    {
      RunAppend(Fresh(b, tb, locked), es, events);
      SpentExactly(b, tb, locked, es + events, log[k].fate.at);
      assert Justified(log[k], keeperDown, Some(Run(before, events)));
    }
  }

  ghost predicate AllScrubbed(log: seq<Work>, redact: (string, string) -> (string, string)) {
    forall k :: 0 <= k < |log| ==> Scrubbed(log[k], redact)
  }

  /** Skips are decided during the run, one after the other. */
  ghost predicate DecidedWithin(log: seq<Work>, first: int, last: int) {
    && (forall k :: 0 <= k < |log| && log[k].fate.Skipped? ==> first <= log[k].fate.at <= last)
    && forall i, k :: 0 <= i < k < |log| && log[i].fate.Skipped? && log[k].fate.Skipped? ==>
         log[i].fate.at <= log[k].fate.at
  }

  lemma LogKept(log: seq<Work>, w: Work, redact: (string, string) -> (string, string), first: int, before: int,
                now: int)
    requires AllScrubbed(log, redact) && Scrubbed(w, redact) && DecidedWithin(log, first, before) &&
             first <= before <= now
    requires w.fate.Skipped? ==> before <= w.fate.at <= now
    ensures AllScrubbed(log + [w], redact) && DecidedWithin(log + [w], first, now)
  {
  }

  lemma SkipsEqual(q: Query, why: SkipReason, at: int, now: int, setup: Setup, files: map<string, string>)
    ensures var a, b := Work(q, Skipped(why, at)), Work(q, Skipped(why, now));
            && EntryOf(a, setup) == EntryOf(b, setup) && FilesAfter(files, a, setup) == files &&
               KindOf(a, setup) == Skip
  {
  }

  lemma EmptyLog(setup: Setup, gov: bool, files: map<string, string>, redact: (string, string) -> (string, string),
                 isTimeout: string -> bool, now: int)
    ensures Entries([], setup, gov) == [] && Files(files, [], setup) == files && SentNames([]) == [] &&
            AnswersOf([]) == []
    ensures ObservedRun([], [], setup, isTimeout) && AllScrubbed([], redact) && DecidedWithin([], now, now)
    ensures forall s :: Run(s, []) == s
    ensures forall kind :: Count([], setup, kind) == 0
  {
  }

  lemma NamesOn(asked: seq<Sent>, s: Sent)
    ensures Names(asked + [s]) == Names(asked) + [s.name]
  {
  }

  /** What the watchdog was shown of an executed collector. */
  ghost predicate Watched(m: Moment, w: Work, setup: Setup, isTimeout: string -> bool) {
    && m.event.Observe? && m.event.name == w.q.name && m.event.d >= Duration(w.fate)
    && m.event.timedOut == (ErrorOf(w, setup).Some? && isTimeout(ErrorOf(w, setup).value))
  }

  /** The executed collectors with their outcomes, in order. */
  function Executed(log: seq<Work>): seq<Work> {
    if log == [] then []
    else
      var r := Executed(log[..|log| - 1]);
      if log[|log| - 1].fate.Skipped? then r else r + [log[|log| - 1]]
  }

  /** One observation for every executed collector, in order. */
  ghost predicate ObservedRun(events: seq<Moment>, log: seq<Work>, setup: Setup, isTimeout: string -> bool) {
    var ran := Executed(log);
    |events| == |ran| && forall i :: 0 <= i < |ran| ==> Watched(events[i], ran[i], setup, isTimeout)
  }

  lemma ObservedNext(events: seq<Moment>, log: seq<Work>, m: Option<Moment>, w: Work, setup: Setup,
                     isTimeout: string -> bool)
    requires ObservedRun(events, log, setup, isTimeout) && (m.None? <==> w.fate.Skipped?)
    requires m.Some? ==> Watched(m.value, w, setup, isTimeout)
    ensures ObservedRun(if m.Some? then events + [m.value] else events, log + [w], setup, isTimeout)
  {
    hide Watched;
    assert (log + [w])[..|log|] == log;
  }

  lemma RunNext(s: State, events: seq<Moment>, m: Moment)
    ensures Run(s, events + [m]) == Step(Run(s, events), m.event, m.now)
  {
    assert (events + [m])[..|events|] == events;
  }

  lemma LaterSelf(s: Option<State>)
    ensures s.Some? ==> Later(s.value, s.value)
  {
  }

  lemma LaterOn(s: State, t: State, u: State)
    requires Later(s, t) && Later(t, u)
    ensures Later(s, u)
  {
  }

  function Names(asked: seq<Sent>): seq<string> {
    seq(|asked|, i requires 0 <= i < |asked| => asked[i].name)
  }
}
