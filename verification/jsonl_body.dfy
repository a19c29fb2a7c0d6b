/** Whole files of JSON lines: lines are kept apart. */
module JsonlBody {
  import opened Text
  import opened JsonlPatch
  import opened JsonlTokens
  import opened JsonlMeaning

  predicate OneLine(s: string) {
    '\n' !in s
  }

  lemma {:induction false} SplitJoin(lines: seq<string>)
    requires lines != [] && forall i :: 0 <= i < |lines| ==> OneLine(lines[i])
    ensures Split(Join(lines, "\n")) == lines
  {
    if |lines| == 1 {
      SplitOne(lines[0], "");
      assert lines[0] + "" == lines[0];
    } else {
      SplitJoin(lines[1..]);
      SplitOne(lines[0], "\n" + Join(lines[1..], "\n"));
      assert lines[0] + "\n" + Join(lines[1..], "\n") == lines[0] + ("\n" + Join(lines[1..], "\n"));
      assert ("\n" + Join(lines[1..], "\n"))[1..] == Join(lines[1..], "\n");
      assert lines[0] + "" == lines[0];
    }
  }

  lemma {:induction false} SplitOne(line: string, rest: string)
    requires OneLine(line)
    ensures Split(line + rest) == [line + Split(rest)[0]] + Split(rest)[1..]
  {
    if line == "" {
      assert line + rest == rest && "" + Split(rest)[0] == Split(rest)[0];
    } else {
      assert (line + rest)[1..] == line[1..] + rest && line[0] in line;
      SplitOne(line[1..], rest);
      assert [line[0]] + (line[1..] + Split(rest)[0]) == line + Split(rest)[0];
    }
  }

  lemma {:induction false} SplitLines(s: string)
    ensures forall i :: 0 <= i < |Split(s)| ==> OneLine(Split(s)[i])
  {
    if s != "" { SplitLines(s[1..]); }
  }

  lemma {:induction false} ContentOneLine(s: string)
    requires StringContent(s)
    ensures OneLine(s)
    decreases |s|
  {
    if s == "" {
    } else if s[0] == '\\' && s[1] == 'u' {
      ContentOneLine(s[6..]);
      assert s == s[..6] + s[6..];
    } else if s[0] == '\\' {
      ContentOneLine(s[2..]);
      assert s == [s[0], s[1]] + s[2..];
    } else {
      ContentOneLine(s[1..]);
      assert s == [s[0]] + s[1..];
    }
  }

  lemma JoinedOneLine(a: string, b: string, c: string)
    requires OneLine(a) && OneLine(b) && OneLine(c)
    ensures OneLine(a + ("\"" + b + "\"") + c)
  {
  }

  lemma PatchOneLine(line: string, key: string, codec: Codec, redact: Redactor)
    requires OneLine(line) && Faithful(codec)
    ensures OneLine(Patch(line, key, codec, redact).line)
  {
    hide FirstValue, StringEnd, StringContent, PatchAt, OneLine;
    var start := FirstValue(line, key, 0);
    if start >= 0 {
      PatchSteps(line, start, codec, redact);
      var end := start + 1 + StringEnd(line[start + 1..]);
      if end > start && codec.decode(line[start + 1..end]).Some? {
        var nv := redact(codec.decode(line[start + 1..end]).value).0;
        ContentOneLine(codec.encode(nv));
        PartOneLine(line, start);
        PartOneLine(line, end + 1);
        JoinedOneLine(line[..start], codec.encode(nv), line[end + 1..]);
      }
    }
  }

  lemma PartOneLine(s: string, i: nat)
    requires OneLine(s) && i <= |s|
    ensures OneLine(s[..i]) && OneLine(s[i..])
  {
  }

  lemma {:induction false} PatchFieldsOneLine(line: string, fields: seq<string>, codec: Codec, redact: Redactor)
    requires OneLine(line) && Faithful(codec)
    ensures OneLine(PatchFields(line, fields, codec, redact).0)
    decreases |fields|
  {
    hide Patch, Faithful;
    if fields != [] {
      PatchOneLine(line, fields[0], codec, redact);
      PatchFieldsOneLine(Patch(line, fields[0], codec, redact).line, fields[1..], codec, redact);
    }
  }

  /** For every body: the output has the same number of lines, each the patched
      line of the input, whatever the lines hold. */
  lemma LinesKept(body: string, fields: seq<string>, codec: Codec, redact: Redactor)
    requires Faithful(codec)
    ensures var ls := PatchLines(Split(body), fields, codec, redact).0;
            && Split(Join(ls, "\n")) == ls
            && |ls| == |Split(body)|
            && forall i :: 0 <= i < |ls| ==> ls[i] == PatchFields(Split(body)[i], fields, codec, redact).0
  {
    hide Split, PatchLines, PatchFields, Faithful;
    SplitLines(body);
    var lines := Split(body);
    var ls := PatchLines(lines, fields, codec, redact).0;
    forall i | 0 <= i < |ls| ensures ls[i] == PatchFields(lines[i], fields, codec, redact).0 && OneLine(ls[i]) {
      LinesStep(lines, i, fields, codec, redact);
      PatchFieldsOneLine(lines[i], fields, codec, redact);
    }
    SplitJoin(ls);
  }
}
