/** What the execution log says of each outcome. */
module LogEntries {
  import opened Wrappers
  import opened Text
  import opened RunLog
  import opened Executor

  // ----- what is kept of a message

  predicate AllDigit(s: string) {
    forall i :: 0 <= i < |s| ==> '0' <= s[i] <= '9'
  }

  /** An error code stands at i. */
  predicate CodeAt(msg: string, i: int) {
    0 <= i && i + 6 < |msg| && msg[i..i + 6] == "Code: " && '0' <= msg[i + 6] <= '9'
  }

  /** The first error code of the message. */
  ghost predicate FirstCode(msg: string, code: string) {
    exists i :: CodeAt(msg, i) && (forall j :: 0 <= j < i ==> !CodeAt(msg, j)) && CodeIs(msg, i, code)
  }

  ghost predicate CodeIs(msg: string, i: int, code: string) {
    && 0 <= i && i + 6 + |code| <= |msg| && msg[i + 6..i + 6 + |code|] == code && code != "" && AllDigit(code)
    && (i + 6 + |code| < |msg| ==> !('0' <= msg[i + 6 + |code|] <= '9'))
  }

  /** In gov mode only whether there was a message, and its code, is kept. */
  ghost predicate Withheld(msg: string, text: string) {
    if msg == "" then text == ""
    else if exists i :: CodeAt(msg, i) then
      exists code :: FirstCode(msg, code) && text == "Code: " + code + " " + DASH + " message redacted in gov mode"
    else text == "error text redacted in gov mode"
  }

  /** The first 300 bytes and an ellipsis, on one line without pipes. */
  ghost predicate OneCell(msg: string, text: string) {
    var m := if |msg| > 300 then msg[..300] + ELLIPSIS else msg;
    && |text| == |m|
    && forall i :: 0 <= i < |m| ==> text[i] == if m[i] == '\n' then ' ' else if m[i] == '|' then '/' else m[i]
  }

  /** What the log keeps of a message. */
  ghost predicate KeptAs(msg: string, gov: bool, text: string) {
    if gov then exists m :: Withheld(msg, m) && OneCell(m, text) else OneCell(msg, text)
  }

  lemma {:induction false} DigitRunIs(s: string)
    ensures var n := DigitRun(s); n < |s| ==> !Digit(s[n])
  {
    if s != "" && Digit(s[0]) { DigitRunIs(s[1..]); }
  }

  lemma CodeShift(msg: string, i: int)
    requires msg != "" && i > 0
    ensures CodeAt(msg, i) <==> CodeAt(msg[1..], i - 1)
    ensures forall code :: CodeIs(msg, i, code) <==> CodeIs(msg[1..], i - 1, code)
  {
    var r := msg[1..];
    assert i + 6 <= |msg| ==> r[i - 1..i + 5] == msg[i..i + 6];
    forall code ensures CodeIs(msg, i, code) <==> CodeIs(r, i - 1, code) {
      assert i + 6 + |code| <= |msg| ==> r[i + 5..i + 5 + |code|] == msg[i + 6..i + 6 + |code|];
    }
  }

  lemma CodeHere(msg: string)
    requires HasPrefix(msg, "Code: ") && DigitRun(msg[6..]) > 0
    ensures FirstCode(msg, msg[6..][..DigitRun(msg[6..])])
  {
    var d := msg[6..];
    DigitRunIs(d);
    assert msg[0..6] == "Code: ";
    var code := d[..DigitRun(d)];
    assert msg[6..6 + |code|] == code && msg[6] == d[0] == code[0];
    assert CodeAt(msg, 0) && CodeIs(msg, 0, code);
  }

  lemma CodeLater(msg: string, code: string)
    requires msg != "" && !CodeAt(msg, 0) && FirstCode(msg[1..], code)
    ensures FirstCode(msg, code)
  {
    hide CodeIs;
    var r := msg[1..];
    var i :| CodeAt(r, i) && (forall j :: 0 <= j < i ==> !CodeAt(r, j)) && CodeIs(r, i, code);
    CodeShift(msg, i + 1);
    forall j | 0 <= j < i + 1 ensures !CodeAt(msg, j) {
      if j > 0 { CodeShift(msg, j); }
    }
  }

  lemma {:induction false} CodeFound(msg: string)
    ensures ErrorCode(msg).None? ==> forall i :: !CodeAt(msg, i)
    ensures ErrorCode(msg).Some? ==> FirstCode(msg, ErrorCode(msg).value)
  {
    if msg != "" {
      CodeFound(msg[1..]);
      hide FirstCode;
      if HasPrefix(msg, "Code: ") && DigitRun(msg[6..]) > 0 {
        CodeHere(msg);
      } else {
        NoCodeHere(msg);
        if ErrorCode(msg[1..]).Some? {
          CodeLater(msg, ErrorCode(msg[1..]).value);
        } else {
          forall i | CodeAt(msg, i) ensures false {
            if i > 0 { CodeShift(msg, i); }
          }
        }
      }
    }
  }

  lemma NoCodeHere(msg: string)
    requires msg != "" && !(HasPrefix(msg, "Code: ") && DigitRun(msg[6..]) > 0)
    ensures !CodeAt(msg, 0)
  {
    assert |msg| > 6 ==> msg[0..6] == msg[..6] && msg[6..][0] == msg[6];
  }

  lemma SomeCode(msg: string)
    ensures (exists code :: FirstCode(msg, code)) ==> exists i :: CodeAt(msg, i)
  {
  }

  lemma RecordedKept(e: Entry, gov: bool)
    ensures KeptAs(e.error, gov, Recorded(e, gov).error)
    ensures Recorded(e, gov) == e.(error := Recorded(e, gov).error)
  {
    CodeFound(e.error);
    SomeCode(e.error);
    hide ErrorCode, FirstCode, CodeAt;
    var m := if gov then RedactError(e.error) else e.error;
    assert OneCell(m, OneLine(Cap(m)));
    if gov {
      assert Withheld(e.error, m);
    }
  }

  // ----- each outcome

  /** The message of a failure, as it reaches the log. */
  function Message(w: Work): Option<string> {
    match w.fate
    case NotRead => Some("error reading query file: " + if w.q.content.Unreadable? then w.q.content.error else "")
    case NotSent(error) => Some(error)
    case ServerFailed(error, d) => Some(error)
    case SaveFailed(reply, error, d, bytes, left) => Some("error saving result: " + error)
    case _ => None
  }

  /** The entry of a work: a failure keeps its message, a skip its reason, and a file
      that was written the number of its lines. */
  ghost predicate EnteredAs(e: Entry, w: Work, setup: Setup, gov: bool) {
    && e.stage == "collector" && e.name == w.q.name && e.source == w.q.dirName
    && match w.fate
       case Skipped(reason, at) => e.status == "skipped" && e.extra == setup.show(reason) && e.error == ""
       case NoText => e.status == "empty" && e.error == ""
       case Saved(reply, data, d, note) =>
         && e.status == "ok" && e.error == "" && e.duration == d
         && e.bytes == |data| && e.rows == multiset(data)['\n']
         && var file := FileName(Base(w.q.name), setup.stamp);
            e.extra == if note == "" then file else file + "; " + note
       case _ => e.status == "failed" && KeptAs(Message(w).value, gov, e.error)
  }

  lemma {:induction false} NewlinesIs(s: string)
    ensures Newlines(s) == multiset(s)['\n']
  {
    if s != "" {
      var n := |s| - 1;
      NewlinesIs(s[..n]);
      assert s == s[..n] + [s[n]];
    }
  }

  lemma EmptyCell(gov: bool, text: string)
    ensures KeptAs("", gov, text) <==> text == ""
  {
    assert gov && text == "" ==> Withheld("", "") && OneCell("", text);
  }

  /** Every outcome is entered as it was. */
  lemma EntryExactly(w: Work, setup: Setup, gov: bool)
    ensures EnteredAs(Recorded(EntryOf(w, setup), gov), w, setup, gov)
  {
    hide KeptAs, Recorded, Newlines, FileName, Base;
    RecordedKept(EntryOf(w, setup), gov);
    match w.fate
    case Skipped(_, _) => EmptyCell(gov, Recorded(EntryOf(w, setup), gov).error);
    case NoText => EmptyCell(gov, Recorded(EntryOf(w, setup), gov).error);
    case Saved(_, data, _, note) =>
      EmptyCell(gov, Recorded(EntryOf(w, setup), gov).error);
      NewlinesIs(data);
      var file := FileName(Base(w.q.name), setup.stamp);
      assert file + "" == file && file + ("; " + note) == file + "; " + note;
    case _ =>
  }
}
