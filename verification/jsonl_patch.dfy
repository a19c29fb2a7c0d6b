/** RedactJSONLFields and its helpers: the bytes of JSON lines patched in place,
    without parsing them. */
module JsonlPatch {
  import opened Text
  import opened Wrappers

  /** json.Unmarshal and json.Marshal on one string literal, quotes left off. */
  datatype Codec = Codec(decode: string -> Option<string>, encode: string -> string)

  /** RedactSQLText: the new text and the number of replacements. */
  type Redactor = string -> (string, nat)

  predicate IsBlank(c: char) {
    c == ' ' || c == '\t'
  }

  function BlankRun(s: string): (n: nat)
    ensures n <= |s|
    ensures forall i :: 0 <= i < n ==> IsBlank(s[i])
    ensures n < |s| ==> !IsBlank(s[n])
  {
    if s == "" || !IsBlank(s[0]) then 0 else 1 + BlankRun(s[1..])
  }

  /** Past the blanks from k on. */
  function Past(line: string, k: nat): (p: nat)
    requires k <= |line|
    ensures k <= p <= |line|
  {
    k + BlankRun(line[k..])
  }

  /** The byte before at, blanks skipped, is "{" or ",". */
  predicate KeyPosition(line: string, at: nat)
    requires at <= |line|
  {
    if at == 0 then false
    else if IsBlank(line[at - 1]) then KeyPosition(line, at - 1)
    else line[at - 1] == '{' || line[at - 1] == ','
  }

  /** Index of the closing quote of the literal whose content s begins with, or -1. */
  function StringEnd(s: string): (r: int)
    ensures -1 <= r < |s|
  {
    if s == "" then -1
    else if s[0] == '"' then 0
    else if s[0] == '\\' then
      if |s| == 1 then -1 else var r := StringEnd(s[2..]); if r < 0 then -1 else r + 2
    else var r := StringEnd(s[1..]); if r < 0 then -1 else r + 1
  }

  function Needle(key: string): string {
    "\"" + key + "\""
  }

  /** Where the string value of the member key stands if its key begins at p; or -1. */
  function ValueAt(line: string, key: string, p: nat): (start: int)
    requires p <= |line|
    ensures start >= 0 ==> p < start < |line| && line[start] == '"'
  {
    if !HasPrefix(line[p..], Needle(key)) || !KeyPosition(line, p) then -1
    else
      var colon := Past(line, p + |Needle(key)|);
      if colon >= |line| || line[colon] != ':' then -1
      else
        var start := Past(line, colon + 1);
        if start >= |line| || line[start] != '"' then -1 else start
  }

  /** The first string value of the member key at or after from; or -1. */
  function FirstValue(line: string, key: string, from: nat): (start: int)
    requires from <= |line|
    ensures start >= 0 ==> start < |line| && line[start] == '"'
    decreases |line| - from
  {
    var start := ValueAt(line, key, from);
    if start >= 0 then start
    else if from < |line| then FirstValue(line, key, from + 1)
    else -1
  }

  datatype Patched = Patched(line: string, hit: bool, count: nat)

  /** The literal at start passed through the redactor. */
  function PatchAt(line: string, start: nat, codec: Codec, redact: Redactor): Patched
    requires start < |line|
  {
    var end := StringEnd(line[start + 1..]);
    if end < 0 then Patched(line, false, 0)
    else
      match codec.decode(line[start + 1..start + 1 + end])
      case None => Patched(line, false, 0)
      case Some(v) =>
        var (nv, n) := redact(v);
        if nv == v then Patched(line, false, n)
        else Patched(line[..start] + ("\"" + codec.encode(nv) + "\"") + line[start + 2 + end..], true, n)
  }

  function Patch(line: string, key: string, codec: Codec, redact: Redactor): Patched {
    var start := FirstValue(line, key, 0);
    if start < 0 then Patched(line, false, 0) else PatchAt(line, start, codec, redact)
  }

  // ----- the loops

  method SkipJSONBlanks(line: string, from: nat) returns (k: nat)
    requires from <= |line|
    ensures k == Past(line, from)
  {
    k := from;
    while k < |line| && (line[k] == ' ' || line[k] == '\t')
      invariant from <= k <= |line|
      invariant Past(line, k) == Past(line, from)
    {
      assert line[k..][1..] == line[k + 1..];
      k := k + 1;
    }
  }

  method AtJSONKeyPosition(line: string, at: nat) returns (r: bool)
    requires at <= |line|
    ensures r == KeyPosition(line, at)
  {
    var k: int := at - 1;
    while k >= 0 && (line[k] == ' ' || line[k] == '\t')
      invariant -1 <= k < at
      invariant KeyPosition(line, k + 1) == KeyPosition(line, at)
    {
      k := k - 1;
    }
    return k >= 0 && (line[k] == '{' || line[k] == ',');
  }

  method JSONStringEnd(s: string, start: nat) returns (end: int)
    requires start < |s|
    ensures end == if StringEnd(s[start + 1..]) < 0 then -1 else start + 1 + StringEnd(s[start + 1..])
  {
    var j := start + 1;
    ghost var goal := StringEnd(s[j..]);
    while j < |s|
      invariant start < j <= |s| + 1
      invariant j <= |s| ==> var r := StringEnd(s[j..]); goal == if r < 0 then -1 else j - start - 1 + r
      invariant j > |s| ==> goal == -1
    {
      assert j + 1 <= |s| ==> s[j..][1..] == s[j + 1..];
      assert j + 2 <= |s| ==> s[j..][2..] == s[j + 2..];
      if s[j] == '\\' {
        j := j + 1;
      } else if s[j] == '"' {
        return j;
      }
      j := j + 1;
    }
    return -1;
  }

  /** Positions without the needle hold no value. */
  lemma {:induction false} NoNeedle(line: string, key: string, from: nat, to: nat)
    requires from <= to && to <= |line|
    requires forall k :: from <= k < to ==> !HasPrefix(line[k..], Needle(key))
    ensures FirstValue(line, key, from) == FirstValue(line, key, to)
    decreases |line| - from
  {
    if from < to {
      NoNeedle(line, key, from + 1, to);
    }
  }

  lemma NeedlePositions(line: string, key: string, from: nat)
    requires from <= |line|
    ensures var rel := Index(line[from..], Needle(key));
            && (forall k :: from <= k < (if rel < 0 then |line| else from + rel) ==> !HasPrefix(line[k..], Needle(key)))
            && (rel < 0 ==> !HasPrefix(line[|line|..], Needle(key)))
            && (rel >= 0 ==> from + rel < |line| && HasPrefix(line[from + rel..], Needle(key)))
  {
    var u := line[from..];
    var rel := Index(u, Needle(key));
    forall k | from <= k <= |line| ensures line[k..] == u[k - from..] {
    }
    assert |Needle(key)| >= 2;
  }

  /** ValueAt, step by step. */
  lemma ValueSteps(line: string, key: string, p: nat)
    requires p < |line| && HasPrefix(line[p..], Needle(key))
    ensures p + |Needle(key)| <= |line|
    ensures var colon := Past(line, p + |Needle(key)|);
            ValueAt(line, key, p) ==
            if !KeyPosition(line, p) || colon >= |line| || line[colon] != ':' then -1
            else if Past(line, colon + 1) >= |line| || line[Past(line, colon + 1)] != '"' then -1
            else Past(line, colon + 1)
  {
  }

  lemma PatchSteps(line: string, start: nat, codec: Codec, redact: Redactor)
    requires start < |line|
    ensures var end := start + 1 + StringEnd(line[start + 1..]);
            && (end <= start ==> PatchAt(line, start, codec, redact) == Patched(line, false, 0))
            && (end > start ==>
                  var d := codec.decode(line[start + 1..end]);
                  PatchAt(line, start, codec, redact) ==
                  if d == None then Patched(line, false, 0)
                  else if redact(d.value).0 == d.value then Patched(line, false, redact(d.value).1)
                  else Patched(line[..start] + ("\"" + codec.encode(redact(d.value).0) + "\"") + line[end + 1..],
                               true, redact(d.value).1))
  {
    var e := StringEnd(line[start + 1..]);
    assert start + 2 + e == start + 1 + e + 1;
  }

  method ReplaceJSONStringField(line: string, key: string, codec: Codec, redact: Redactor)
    returns (out: string, hit: bool, count: nat)
    ensures Patched(out, hit, count) == Patch(line, key, codec, redact)
  {
    hide FirstValue, BlankRun, KeyPosition, StringEnd, Past, HasPrefix, Index, Needle, ValueAt, PatchAt;
    var needle := Needle(key);
    var from := 0;
    while from < |line|
      invariant from <= |line|
      invariant FirstValue(line, key, 0) == FirstValue(line, key, from)
    {
      var rel := Index(line[from..], needle);
      NeedlePositions(line, key, from);
      if rel < 0 {
        NoNeedle(line, key, from, |line|);
        AtEnd(line, key);
        return line, false, 0;
      }
      var at := from + rel;
      NoNeedle(line, key, from, at);
      FirstHere(line, key, at);
      ValueSteps(line, key, at);
      from := at + 1;
      var keyPosition := AtJSONKeyPosition(line, at);
      if !keyPosition {
        continue;
      }
      var start := SkipJSONBlanks(line, at + |needle|);
      if start >= |line| || line[start] != ':' {
        continue;
      }
      start := SkipJSONBlanks(line, start + 1);
      if start >= |line| || line[start] != '"' {
        continue;
      }
      PatchSteps(line, start, codec, redact);
      var end := JSONStringEnd(line, start);
      if end < 0 {
        return line, false, 0;
      }
      var v := codec.decode(line[start + 1..end]);
      if v == None {
        return line, false, 0;
      }
      var (nv, n) := redact(v.value);
      if nv == v.value {
        return line, false, n;
      }
      var enc := "\"" + codec.encode(nv) + "\"";
      return line[..start] + enc + line[end + 1..], true, n;
    }
    AtEnd(line, key);
    return line, false, 0;
  }

  lemma AtEnd(line: string, key: string)
    ensures FirstValue(line, key, |line|) == -1
  {
    assert |Needle(key)| >= 2;
  }

  lemma FirstHere(line: string, key: string, at: nat)
    requires at < |line|
    ensures FirstValue(line, key, at) ==
            if ValueAt(line, key, at) >= 0 then ValueAt(line, key, at) else FirstValue(line, key, at + 1)
  {
  }

  // ----- lines and fields

  function PatchFields(line: string, fields: seq<string>, codec: Codec, redact: Redactor): (string, nat)
    decreases |fields|
  {
    if fields == [] then (line, 0)
    else
      var p := Patch(line, fields[0], codec, redact);
      var (out, n) := PatchFields(p.line, fields[1..], codec, redact);
      (out, p.count + n)
  }

  function PatchLines(lines: seq<string>, fields: seq<string>, codec: Codec, redact: Redactor): (r: (seq<string>, nat))
    ensures |r.0| == |lines|
    decreases |lines|
  {
    if lines == [] then ([], 0)
    else
      var (h, n) := PatchFields(lines[0], fields, codec, redact);
      var (t, m) := PatchLines(lines[1..], fields, codec, redact);
      ([h] + t, n + m)
  }

  lemma {:induction false} LinesStep(lines: seq<string>, k: nat, fields: seq<string>, codec: Codec, redact: Redactor)
    requires k < |lines|
    ensures PatchLines(lines, fields, codec, redact).0[k] == PatchFields(lines[k], fields, codec, redact).0
    ensures PatchLines(lines[k..], fields, codec, redact).1 ==
            PatchFields(lines[k], fields, codec, redact).1 + PatchLines(lines[k + 1..], fields, codec, redact).1
  {
    assert lines[k..][1..] == lines[k + 1..];
    if k > 0 {
      LinesStep(lines[1..], k - 1, fields, codec, redact);
      assert lines[1..][k - 1..] == lines[k..] && lines[1..][k..] == lines[k + 1..];
    }
  }

  method RedactJSONLFields(body: string, fields: seq<string>, codec: Codec, redact: Redactor)
    returns (out: string, total: nat)
    ensures if fields == [] || body == "" then out == body && total == 0
            else var (lines, n) := PatchLines(Split(body), fields, codec, redact);
                 out == Join(lines, "\n") && total == n
  {
    if fields == [] || body == "" {
      return body, 0;
    }
    hide Split, PatchLines, PatchFields, Patch;
    total := 0;
    var lines := Split(body);
    ghost var goal := PatchLines(Split(body), fields, codec, redact);
    assert lines[0..] == lines;
    for li := 0 to |lines|
      invariant |lines| == |Split(body)|
      invariant forall k :: 0 <= k < li ==> lines[k] == goal.0[k]
      invariant forall k :: li <= k < |lines| ==> lines[k] == Split(body)[k]
      invariant goal.1 == total + PatchLines(Split(body)[li..], fields, codec, redact).1
    {
      var line := lines[li];
      ghost var target := PatchFields(line, fields, codec, redact);
      ghost var before := total;
      assert fields[0..] == fields;
      for f := 0 to |fields|
        invariant PatchFields(line, fields[f..], codec, redact).0 == target.0
        invariant total + PatchFields(line, fields[f..], codec, redact).1 == before + target.1
      {
        var line2, hit, n := ReplaceJSONStringField(line, fields[f], codec, redact);
        FieldStep(line, fields, f, codec, redact);
        total := total + n;
        line := line2;
      }
      FieldNil(line, fields[|fields|..], codec, redact);
      LinesStep(Split(body), li, fields, codec, redact);
      lines := lines[li := line];
    }
    LinesNil(Split(body)[|lines|..], fields, codec, redact);
    assert lines == goal.0;
    out := Join(lines, "\n");
  }

  lemma FieldStep(line: string, fields: seq<string>, f: nat, codec: Codec, redact: Redactor)
    requires f < |fields|
    ensures var p := Patch(line, fields[f], codec, redact);
            var r := PatchFields(p.line, fields[f + 1..], codec, redact);
            PatchFields(line, fields[f..], codec, redact) == (r.0, p.count + r.1)
  {
    hide Patch;
    assert fields[f..][0] == fields[f] && fields[f..][1..] == fields[f + 1..];
  }

  lemma FieldNil(line: string, fields: seq<string>, codec: Codec, redact: Redactor)
    requires fields == []
    ensures PatchFields(line, fields, codec, redact) == (line, 0)
  {
  }

  lemma LinesNil(lines: seq<string>, fields: seq<string>, codec: Codec, redact: Redactor)
    requires lines == []
    ensures PatchLines(lines, fields, codec, redact) == ([], 0)
  {
  }
}
