/** The execution log: one entry per unit of work, and what later readers take
    from it about the collectors. */
module RunLog {
  import opened Text
  import opened Wrappers

  const ERROR_CAP := 300
  const ELLIPSIS := "\U{E2}\U{80}\U{A6}"
  const DASH := "\U{E2}\U{80}\U{94}"

  datatype Entry = Entry(stage: string, name: string, source: string, status: string, duration: int, bytes: int,
                         rows: int, extra: string, error: string)

  // ----- what is kept of an error text

  predicate Digit(c: char) {
    '0' <= c <= '9'
  }

  function DigitRun(s: string): (n: nat)
    ensures n <= |s| && forall i :: 0 <= i < n ==> Digit(s[i])
  {
    if s != "" && Digit(s[0]) then 1 + DigitRun(s[1..]) else 0
  }

  /** The digits after the first "Code: " that digits follow. */
  function ErrorCode(msg: string): (code: Option<string>)
    ensures code.Some? ==> forall c :: c in code.value ==> Digit(c)
  {
    if msg == "" then None
    else if HasPrefix(msg, "Code: ") && DigitRun(msg[6..]) > 0 then Some(msg[6..][..DigitRun(msg[6..])])
    else ErrorCode(msg[1..])
  }

  function RedactError(msg: string): string {
    if msg == "" then ""
    else match ErrorCode(msg)
      case Some(code) => "Code: " + code + " " + DASH + " message redacted in gov mode"
      case None => "error text redacted in gov mode"
  }

  function Cap(s: string): string {
    if |s| > ERROR_CAP then s[..ERROR_CAP] + ELLIPSIS else s
  }

  function OneLineByte(c: char): char {
    if c == '\n' then ' ' else if c == '|' then '/' else c
  }

  function OneLine(s: string): string {
    seq(|s|, i requires 0 <= i < |s| => OneLineByte(s[i]))
  }

  function Recorded(e: Entry, gov: bool): Entry {
    e.(error := OneLine(Cap(if gov then RedactError(e.error) else e.error)))
  }

  /** A kept error text is one short cell of the log's pipe table. */
  lemma RecordedCell(e: Entry, gov: bool)
    ensures var t := Recorded(e, gov).error; '\n' !in t && '|' !in t && |t| <= ERROR_CAP + 3
  {
  }

  predicate NoU(s: string) {
    'U' !in s
  }

  lemma NoUJoins(a: string, b: string)
    requires NoU(a) && NoU(b)
    ensures NoU(a + b)
  {
  }

  lemma GovText(msg: string)
    ensures NoU(RedactError(msg))
  {
    hide NoU;
    assert NoU("Code: ") && NoU(" ") && NoU(DASH) && NoU(" message redacted in gov mode") by {
      Templates();
    }
    Templates();
    match ErrorCode(msg)
    case None =>
    case Some(code) =>
      Digits(code);
      NoUJoins("Code: ", code);
      NoUJoins("Code: " + code, " ");
      NoUJoins("Code: " + code + " ", DASH);
      NoUJoins("Code: " + code + " " + DASH, " message redacted in gov mode");
  }

  lemma Digits(code: string)
    requires forall c :: c in code ==> Digit(c)
    ensures NoU(code)
  {
  }

  lemma Templates()
    ensures NoU("Code: ") && NoU(" ") && NoU(DASH) && NoU(" message redacted in gov mode")
    ensures NoU("error text redacted in gov mode") && NoU("") && NoU(ELLIPSIS)
  {
  }

  lemma NoUCap(s: string)
    requires NoU(s)
    ensures NoU(OneLine(Cap(s)))
  {
    Templates();
    if |s| > ERROR_CAP {
      assert NoU(s[..ERROR_CAP]);
      NoUJoins(s[..ERROR_CAP], ELLIPSIS);
    }
  }

  /** In gov mode the kept text tells of the server's message only whether there
      was one and its numeric code, so it never names a missing table. */
  lemma GovKeepsCode(e: Entry, f: Entry)
    requires (e.error == "" <==> f.error == "") && ErrorCode(e.error) == ErrorCode(f.error)
    ensures Recorded(e, true).error == Recorded(f, true).error
    ensures !Contains(Recorded(e, true).error, UNKNOWN_TABLE)
  {
    hide RedactError;
    SameText(e.error, f.error);
    GovText(e.error);
    NoUCap(RedactError(e.error));
    NotUnknown(Recorded(e, true).error);
  }

  lemma SameText(a: string, b: string)
    requires (a == "" <==> b == "") && ErrorCode(a) == ErrorCode(b)
    ensures RedactError(a) == RedactError(b)
  {
  }

  lemma NotUnknown(t: string)
    ensures Contains(t, UNKNOWN_TABLE) ==> 'U' in t
  {
    var r := Index(t, UNKNOWN_TABLE);
    if r >= 0 {
      FirstByte(t, UNKNOWN_TABLE, r);
    }
  }

  lemma FirstByte(t: string, sub: string, r: nat)
    requires r <= |t| && sub != "" && HasPrefix(t[r..], sub)
    ensures sub[0] in t
  {
    assert t[r..][..|sub|][0] == t[r];
  }

  // ----- the recorder

  class Recorder {
    var entries: seq<Entry>
    var gov: bool

    constructor ()
      ensures entries == [] && !gov
    {
      entries, gov := [], false;
    }

    method WithGov(on: bool)
      modifies this
      ensures gov == on && entries == old(entries)
    {
      gov := on;
    }

    method Record(e: Entry)
      modifies this
      ensures gov == old(gov) && entries == old(entries) + [Recorded(e, gov)]
    {
      var text := e.error;
      if gov {
        text := RedactError(text);
      }
      if |text| > ERROR_CAP {
        text := text[..ERROR_CAP] + ELLIPSIS;
      }
      entries := entries + [e.(error := OneLine(text))];
    }
  }

  // ----- what the checks are told about collectors without rows

  datatype Status = Status(state: string, reason: string)

  const UNKNOWN_TABLE := "UNKNOWN_TABLE"

  function TrimSuffix(s: string, suffix: string): string {
    if HasSuffix(s, suffix) then s[..|s| - |suffix|] else s
  }

  predicate Told(e: Entry) {
    && e.stage == "collector" && (e.status == "skipped" || e.status == "failed")
    && !(e.status == "failed" && Contains(e.error, UNKNOWN_TABLE))
  }

  function StatusKey(e: Entry): string {
    TrimSuffix(e.name, ".sql")
  }

  function StatusFor(e: Entry): Status {
    Status(e.status, if e.status == "failed" && e.error != "" then e.error else e.extra)
  }

  function StatusOf(entries: seq<Entry>): map<string, Status> {
    if entries == [] then map[]
    else
      var n := |entries| - 1;
      var r := StatusOf(entries[..n]);
      if Told(entries[n]) then r[StatusKey(entries[n]) := StatusFor(entries[n])] else r
  }

  method CollectorStatus(rec: Recorder) returns (out: map<string, Status>)
    ensures out == StatusOf(rec.entries)
  {
    out := map[];
    var entries := rec.entries;
    for i := 0 to |entries|
      invariant out == StatusOf(entries[..i])
    {
      var e := entries[i];
      assert entries[..i + 1][..i] == entries[..i];
      if e.stage != "collector" || (e.status != "skipped" && e.status != "failed") {
        continue;
      }
      if e.status == "failed" && Contains(e.error, UNKNOWN_TABLE) {
        continue;
      }
      var reason := e.extra;
      if e.status == "failed" && e.error != "" {
        reason := e.error;
      }
      out := out[TrimSuffix(e.name, ".sql") := Status(e.status, reason)];
    }
    assert entries[..|entries|] == entries;
  }

  predicate Tells(e: Entry, c: string) {
    Told(e) && StatusKey(e) == c
  }

  ghost predicate SomeTells(entries: seq<Entry>, c: string) {
    exists i :: 0 <= i < |entries| && Tells(entries[i], c)
  }

  lemma TellsOn(entries: seq<Entry>, n: nat, c: string)
    requires |entries| == n + 1
    ensures SomeTells(entries, c) <==> SomeTells(entries[..n], c) || Tells(entries[n], c)
  {
    hide Tells;
    if SomeTells(entries, c) {
      var i :| 0 <= i < |entries| && Tells(entries[i], c);
      assert i < n ==> Tells(entries[..n][i], c);
    }
    if SomeTells(entries[..n], c) {
      var i :| 0 <= i < n && Tells(entries[..n][i], c);
      assert Tells(entries[i], c);
    }
  }

  /** A collector has a status exactly when one of its entries tells something. */
  lemma {:induction false} StatusTold(entries: seq<Entry>, c: string)
    ensures c in StatusOf(entries) <==> SomeTells(entries, c)
  {
    hide SomeTells, Told, StatusKey;
    if entries == [] {
      assert !SomeTells(entries, c) by {
        NoneTells(c);
      }
    } else {
      var n := |entries| - 1;
      StatusTold(entries[..n], c);
      TellsOn(entries, n, c);
    }
  }

  lemma NoneTells(c: string)
    ensures !SomeTells([], c)
  {
  }

  /** The status of a collector is that of its last entry with something to tell. */
  lemma {:induction false} LastTells(entries: seq<Entry>, c: string, i: nat)
    requires i < |entries| && Tells(entries[i], c) && forall j :: i < j < |entries| ==> !Tells(entries[j], c)
    ensures c in StatusOf(entries) && StatusOf(entries)[c] == StatusFor(entries[i])
  {
    hide Told, StatusKey, StatusFor;
    var n := |entries| - 1;
    if i < n {
      var r := entries[..n];
      assert forall j :: 0 <= j < n ==> r[j] == entries[j];
      LastTells(r, c, i);
    }
  }
}
