/** redactCalls: the positional pass over SQL/DDL text, as a function on tokens
    and as the loop over bytes that refines it. The arguments of a call are redacted
    inside, masked by the call's rule and joined again. */
module SqlRedactor {
  import opened SqlLexer
  import opened SqlScanners
  import opened SqlRules
  import opened SqlNesting
  import Text

  datatype Redacted = Redacted(out: seq<Token>, count: nat)
  datatype RedactedArgs = RedactedArgs(outs: seq<seq<Token>>, count: nat)

  function Total(ps: seq<seq<Token>>): nat {
    if ps == [] then 0 else |ps[0]| + Total(ps[1..])
  }

  lemma {:induction false} PiecesTotal(ts: seq<Token>, d: int)
    ensures Total(Pieces(ts, d)) <= |ts|
  {
    if ts != [] {
      PiecesTotal(ts[1..], d + (if ts[0] == "," && d == 0 then 0 else NestStep(ts[0])));
    }
  }

  function LexEach(texts: seq<string>): (r: seq<seq<Token>>)
    ensures |r| == |texts|
    ensures forall i :: 0 <= i < |r| ==> r[i] == Lex(texts[i])
  {
    if texts == [] then [] else [Lex(texts[0])] + LexEach(texts[1..])
  }

  /** The index of the ")" of the call ts begins with, or -1. */
  function CallClose(ts: seq<Token>): (c: int)
    requires IsCallHead(ts)
    ensures c == -1 || (OpenIdx(ts) < c < |ts| && ts[c] == ")")
  {
    var o := OpenIdx(ts);
    var k := CloseIdx(ts[o..], 0);
    if k < 0 then -1 else o + k
  }

  function CallArgs(ts: seq<Token>): (ps: seq<seq<Token>>)
    requires IsCallHead(ts) && CallClose(ts) >= 0
    ensures Total(ps) < |ts|
  {
    PiecesTotal(ts[OpenIdx(ts) + 1..CallClose(ts)], 0);
    Args(ts[OpenIdx(ts) + 1..CallClose(ts)])
  }

  function MaskedTexts(name: string, outs: seq<seq<Token>>): MaskedArgs {
    MaskAt(Flats(outs), Positions(name, Flats(outs)))
  }

  /** The whole pass: copy up to a call, redact inside each of its arguments,
      mask the positions its rule picks, go on behind its ")". A call that never
      closes ends the pass. */
  function Redact(ts: seq<Token>): Redacted
    decreases |ts|, 0
  {
    if ts == [] then Redacted([], 0)
    else if !IsCallHead(ts) then
      var r := Redact(ts[1..]);
      Redacted([ts[0]] + r.out, r.count)
    else if CallClose(ts) < 0 then Redacted(ts, 0)
    else
      var o, c := OpenIdx(ts), CallClose(ts);
      var inner := RedactEach(CallArgs(ts));
      var masked := MaskedTexts(ts[0], inner.outs);
      var rest := Redact(ts[c + 1..]);
      Redacted(ts[..o + 1] + Commas(LexEach(masked.args)) + [")"] + rest.out,
               inner.count + masked.count + rest.count)
  }

  function RedactEach(ps: seq<seq<Token>>): (r: RedactedArgs)
    ensures |r.outs| == |ps|
    decreases Total(ps), 1 + |ps|
  {
    if ps == [] then RedactedArgs([], 0)
    else
      var h, t := Redact(ps[0]), RedactEach(ps[1..]);
      RedactedArgs([h.out] + t.outs, h.count + t.count)
  }

  function RedactText(s: string): string {
    Flat(Redact(Lex(s)).out)
  }

  // ----- where the pieces of a call lie in the text

  /** Slices of a text at token boundaries, read afresh. */
  lemma {:induction false} LexSlice(s: string, i: nat, j: nat)
    requires i <= j <= |Lex(s)|
    ensures var ts := Lex(s);
            var p, q := |Flat(ts[..i])|, |Flat(ts[..j])|;
            && p <= q <= |s|
            && s[p..q] == Flat(ts[i..j])
            && Lex(s[p..q]) == ts[i..j]
            && Lex(s[q..]) == ts[j..]
  {
    hide Lex;
    var ts := Lex(s);
    LexCanonical(s);
    var a, b, c := ts[..i], ts[i..j], ts[j..];
    assert ts == a + b + c && ts[..j] == a + b;
    FlatAppend(a, b);
    FlatAppend(a + b, c);
    var p, q := |Flat(a)|, |Flat(a + b)|;
    assert s[p..q] == Flat(b) && s[q..] == Flat(c);
    SliceCanonical(ts, i, j);
    SliceCanonical(ts, j, |ts|);
    assert ts[j..|ts|] == c;
    LexFlat(b);
    LexFlat(c);
  }

  ghost predicate IsSlice(p: seq<Token>, ts: seq<Token>) {
    exists i: nat, j: nat :: i <= j <= |ts| && p == ts[i..j]
  }

  lemma {:induction false} PiecesAreSlices(ts: seq<Token>, d: int)
    ensures forall p :: p in Pieces(ts, d) ==> IsSlice(p, ts)
    ensures var n := |Pieces(ts, d)[0]|; n <= |ts| && Pieces(ts, d)[0] == ts[..n]
  {
    if ts != [] {
      var comma := ts[0] == "," && d == 0;
      var d' := if comma then d else d + NestStep(ts[0]);
      PiecesAreSlices(ts[1..], d');
      var rest, ps := Pieces(ts[1..], d'), Pieces(ts, d);
      forall p | p in ps ensures IsSlice(p, ts) {
        if p == ps[0] {
          assert ps[0] == ts[0..|ps[0]|];
        } else {
          assert p in rest;
          var i: nat, j: nat :| i <= j <= |ts[1..]| && p == ts[1..][i..j];
          assert p == ts[i + 1..j + 1];
        }
      }
    } else {
      assert [] == ts[0..0];
    }
  }

  /** Every argument of a canonical argument list, read afresh, gives its tokens. */
  lemma {:induction false} ArgsLex(ts: seq<Token>)
    requires Canonical(ts)
    ensures forall p :: p in Args(ts) ==> Canonical(p) && Lex(Flat(p)) == p && |Flat(p)| <= |Flat(ts)|
  {
    hide Lex, Flat, Pieces, Text.TrimSpace, Canonical;
    PiecesAreSlices(ts, 0);
    forall p | p in Args(ts) ensures Canonical(p) && Lex(Flat(p)) == p && |Flat(p)| <= |Flat(ts)| {
      var i: nat, j: nat :| i <= j <= |ts| && p == ts[i..j];
      SliceCanonical(ts, i, j);
      LexFlat(p);
      assert ts == ts[..i] + p + ts[j..];
      FlatAppend(ts[..i] + p, ts[j..]);
      FlatAppend(ts[..i], p);
    }
  }

  /** The first call of a token list, as an index. */
  function CallIdx(ts: seq<Token>): (n: nat)
    ensures n <= |ts|
    ensures n < |ts| ==> IsCallHead(ts[n..])
  {
    if ts == [] || IsCallHead(ts) then 0
    else
      assert forall n: nat :: n <= |ts[1..]| ==> ts[1..][n..] == ts[n + 1..];
      1 + CallIdx(ts[1..])
  }

  lemma CallIdxStep(ts: seq<Token>)
    requires ts != [] && !IsCallHead(ts)
    ensures CallIdx(ts) == 1 + CallIdx(ts[1..])
    ensures FirstCall(ts) == FirstCall(ts[1..]).Shift(|ts[0]|)
    ensures ts[CallIdx(ts)..] == ts[1..][CallIdx(ts[1..])..]
    ensures var r := Redact(ts[1..]); Redact(ts) == Redacted([ts[0]] + r.out, r.count)
  {
  }

  lemma CallIdxHead(ts: seq<Token>)
    requires ts == [] || IsCallHead(ts)
    ensures CallIdx(ts) == 0
    ensures FirstCall(ts) == if ts == [] then NoCall else Call(ts[0], 0, |Flat(ts[..OpenIdx(ts)])|)
  {
  }

  lemma FlatCons(t: Token, r: seq<Token>)
    ensures Flat([t] + r) == t + Flat(r)
  {
    assert ([t] + r)[1..] == r;
  }

  lemma {:induction false} CallIdxFirst(ts: seq<Token>)
    ensures var n := CallIdx(ts);
            && (n == |ts| ==> FirstCall(ts) == NoCall)
            && (n < |ts| ==>
                  var h := ts[n..];
                  FirstCall(ts) == Call(h[0], |Flat(ts[..n])|, |Flat(ts[..n + OpenIdx(h)])|))
  {
    hide IsCallHead, FirstCall, CallIdx, Redact, Flat, OpenIdx;
    var n := CallIdx(ts);
    if ts == [] || IsCallHead(ts) {
      CallIdxHead(ts);
      if ts != [] {
        assert ts[0..] == ts;
        assert |Flat(ts[..0])| == 0 by { FlatNil(); }
      }
    } else {
      CallIdxStep(ts);
      var r := ts[1..];
      CallIdxFirst(r);
      if n < |ts| {
        var m := n + OpenIdx(ts[n..]);
        assert ts[..n] == [ts[0]] + r[..n - 1];
        assert ts[..m] == [ts[0]] + r[..m - 1];
        FlatCons(ts[0], r[..n - 1]);
        FlatCons(ts[0], r[..m - 1]);
      }
    }
  }

  lemma FlatOne(t: Token)
    ensures Flat([t]) == t
  {
  }

  lemma FlatNil()
    ensures Flat([]) == ""
  {
  }

  /** Up to the first call the pass copies. */
  lemma {:induction false} CallIdxRedact(ts: seq<Token>)
    ensures var n := CallIdx(ts); var r := Redact(ts[n..]);
            Redact(ts) == Redacted(ts[..n] + r.out, r.count)
  {
    hide IsCallHead, FirstCall, CallIdx, Redact, Flat, OpenIdx;
    var n := CallIdx(ts);
    if ts == [] || IsCallHead(ts) {
      CallIdxHead(ts);
      assert ts[n..] == ts;
      assert ts[..n] + Redact(ts).out == Redact(ts).out;
    } else {
      CallIdxStep(ts);
      var r := ts[1..];
      CallIdxRedact(r);
      assert ts[..n] == [ts[0]] + r[..n - 1];
      var out := Redact(ts[n..]).out;
      assert [ts[0]] + (r[..n - 1] + out) == ts[..n] + out;
    }
  }

  /** Where the first call at or after i is, what it spans, and what is left of
      the pass when it is dealt with. */
  lemma CallAhead(s: string, i: nat, start: nat, open: nat, name: string)
    requires i <= |s|
    requires CallFrom(s, i) == Call(name, start, open)
    ensures i <= start < open < |s| && s[open] == '('
    ensures var h := Lex(s[start..]);
            && IsCallHead(h) && h[0] == name
            && Flat(h[..OpenIdx(h)]) == s[start..open]
            && Lex(s[open..]) == h[OpenIdx(h)..]
            && Redact(Lex(s[i..])).count == Redact(h).count
            && Flat(Redact(Lex(s[i..])).out) == s[i..start] + Flat(Redact(h).out)
  {
    hide Lex, Redact, FirstCall, CallIdx, Flat, OpenIdx, IsCallHead;
    var u := s[i..];
    var ts := Lex(u);
    CallIdxFirst(ts);
    CallIdxRedact(ts);
    var n := CallIdx(ts);
    var h := ts[n..];
    var m := n + OpenIdx(h);
    LexSlice(u, 0, n);
    LexSlice(u, n, m);
    LexSlice(u, 0, m);
    assert u[start - i..open - i] == s[start..open] && u[start - i..] == s[start..] && u[open - i..] == s[open..];
    assert ts[n..m] == h[..OpenIdx(h)] && ts[m..] == h[OpenIdx(h)..];
    assert u[0..start - i] == s[i..start] && ts[0..n] == ts[..n];
    FlatAppend(ts[..n], Redact(h).out);
    HeadShape(h);
    assert Lex(s[open..])[0] == h[OpenIdx(h)];
    OpenByte(s[open..]);
  }

  lemma HeadShape(h: seq<Token>)
    requires IsCallHead(h)
    ensures h != [] && OpenIdx(h) < |h| && h[OpenIdx(h)] == "("
    ensures |Flat(h[..OpenIdx(h)])| > 0
  {
    assert h[..OpenIdx(h)][0] == h[0];
  }

  lemma OpenByte(s: string)
    requires Lex(s) != [] && Lex(s)[0] == "("
    ensures s != "" && s[0] == '('
  {
    LexCanonical(s);
  }

  // ----- one call

  /** Byte positions of a "(" and of its ")". */
  lemma ParenBytes(s: string, k: nat) returns (open: nat, close: int)
    requires k < |Lex(s)| && Lex(s)[k] == "("
    ensures open == |Flat(Lex(s)[..k])| && open < |s| && s[open] == '('
    ensures close == CloseFrom(s, open, 0)
    ensures |Flat(Lex(s)[..k + 1])| == open + 1
    ensures close >= 0 ==>
              var c := CloseIdx(Lex(s)[k..], 0);
              && 0 < c && k + c < |Lex(s)|
              && open < close < |s| && s[close] == ')'
              && Lex(s[open + 1..close]) == Lex(s)[k + 1..k + c]
              && s[open + 1..close] == Flat(Lex(s)[k + 1..k + c])
              && Lex(s[close + 1..]) == Lex(s)[k + c + 1..]
  {
    hide Lex, Flat, CloseIdx;
    var ts := Lex(s);
    LexSlice(s, 0, k);
    LexSlice(s, k, k + 1);
    open := |Flat(ts[..k])|;
    close := CloseFrom(s, open, 0);
    assert ts[k..k + 1] == ["("] && ts[..k + 1] == ts[..k] + ["("];
    FlatOne("(");
    FlatAppend(ts[..k], ["("]);
    assert s[open..open + 1] == "(" && s[open] == '(';
    LexSlice(s, k, |ts|);
    var u, g := s[open..], ts[k..];
    assert ts[k..|ts|] == g && Lex(u) == g;
    if close >= 0 {
      var c := CloseIdx(g, 0);
      assert g[0] == "(" && g[c] == ")";
      LexSlice(s, k + 1, k + c);
      LexSlice(s, k + c, k + c + 1);
      assert ts[..k + c] == ts[..k] + g[..c];
      FlatAppend(ts[..k], g[..c]);
      assert ts[k + c..k + c + 1] == [")"] && ts[..k + c + 1] == ts[..k + c] + [")"];
      FlatOne(")");
      FlatAppend(ts[..k + c], [")"]);
      LexSlice(s, k + c + 1, |ts|);
      assert ts[k + c + 1..|ts|] == ts[k + c + 1..];
      assert s[close..close + 1] == ")";
      assert s[close] == s[close..close + 1][0];
    }
  }

  /** The bytes of the call h that s[start..] begins with. */
  lemma {:induction false} CallSpan(s: string, start: nat, open: nat)
    requires start <= open < |s|
    requires var h := Lex(s[start..]);
             IsCallHead(h) && Flat(h[..OpenIdx(h)]) == s[start..open] && Lex(s[open..]) == h[OpenIdx(h)..]
    ensures var h := Lex(s[start..]); var c := CallClose(h); var close := CloseFrom(s, open, 0);
            && (c < 0 <==> close < 0)
            && (c >= 0 ==>
                  && open < close < |s| && s[close] == ')'
                  && Lex(s[open + 1..close]) == h[OpenIdx(h) + 1..c]
                  && Lex(s[close + 1..]) == h[c + 1..]
                  && s[start..open + 1] == Flat(h[..OpenIdx(h) + 1]))
  {
    hide Lex, Flat, IsCallHead, OpenIdx, CloseIdx;
    var u := s[start..];
    var h := Lex(u);
    HeadShape(h);
    var o, c := OpenIdx(h), CallClose(h);
    var uo, uc := ParenBytes(u, o);
    assert u[uo..] == s[open..];
    LexSlice(u, 0, o + 1);
    assert h[0..o + 1] == h[..o + 1] && u[0..uo + 1] == s[start..open + 1];
    assert |Flat(h[..0])| == 0 by { FlatNil(); }
    if c >= 0 {
      assert u[uo + 1..uc] == s[open + 1..start + uc] && u[uc + 1..] == s[start + uc + 1..];
    }
  }

  lemma RedactCall(h: seq<Token>)
    requires IsCallHead(h) && CallClose(h) >= 0
    ensures var o, c := OpenIdx(h), CallClose(h);
            var inner := RedactEach(CallArgs(h));
            var masked := MaskedTexts(h[0], inner.outs);
            var rest := Redact(h[c + 1..]);
            Redact(h) == Redacted(h[..o + 1] + Commas(LexEach(masked.args)) + [")"] + rest.out,
                                  inner.count + masked.count + rest.count)
  {
  }

  lemma {:induction false} FlatCommas(texts: seq<string>)
    ensures Flat(Commas(LexEach(texts))) == Text.Join(texts, ",")
  {
    hide Lex, Flat;
    FlatNil();
    if texts != [] {
      LexCanonical(texts[0]);
      var ps := LexEach(texts);
      assert ps[1..] == LexEach(texts[1..]);
      if |texts| > 1 {
        FlatCommas(texts[1..]);
        var rest := Commas(ps[1..]);
        FlatAppend(ps[0], [","] + rest);
        assert ps[0] + [","] + rest == ps[0] + ([","] + rest);
        FlatCons(",", rest);
      }
    }
  }

  /** The text a call becomes. */
  lemma CallText(h: seq<Token>)
    requires IsCallHead(h) && CallClose(h) >= 0
    ensures var o, c := OpenIdx(h), CallClose(h);
            Flat(Redact(h).out) ==
            Flat(h[..o + 1]) + Text.Join(MaskedTexts(h[0], RedactEach(CallArgs(h)).outs).args, ",") + ")"
            + Flat(Redact(h[c + 1..]).out)
  {
    hide Redact, RedactEach, IsCallHead, CallArgs, MaskedTexts, Flat, LexEach, Commas, OpenIdx, CallClose;
    RedactCall(h);
    var o, c := OpenIdx(h), CallClose(h);
    var texts := MaskedTexts(h[0], RedactEach(CallArgs(h)).outs).args;
    var j, r := Commas(LexEach(texts)), Redact(h[c + 1..]).out;
    FlatCommas(texts);
    FlatAppend(h[..o + 1] + j + [")"], r);
    FlatAppend(h[..o + 1] + j, [")"]);
    FlatAppend(h[..o + 1], j);
    FlatOne(")");
    assert Redact(h).out == h[..o + 1] + j + [")"] + r;
  }

  lemma NoCallAhead(s: string, i: nat)
    requires i <= |s| && CallFrom(s, i) == NoCall
    ensures RedactText(s[i..]) == s[i..] && Redact(Lex(s[i..])).count == 0
  {
    hide Lex, FirstCall, IsCallHead, CallIdx;
    var ts := Lex(s[i..]);
    CallIdxFirst(ts);
    CallIdxRedact(ts);
    LexCanonical(s[i..]);
    assert ts[|ts|..] == [] && ts[..|ts|] + [] == ts;
  }

  lemma Truncated(h: seq<Token>)
    requires IsCallHead(h) && CallClose(h) < 0
    ensures Redact(h) == Redacted(h, 0)
  {
  }

  lemma {:induction false} EachStep(ps: seq<seq<Token>>, k: nat)
    requires k < |ps|
    ensures RedactEach(ps[k..]).count == Redact(ps[k]).count + RedactEach(ps[k + 1..]).count
    ensures RedactEach(ps).outs[k] == Redact(ps[k]).out
    decreases k
  {
    assert ps[k..][1..] == ps[k + 1..];
    if k > 0 {
      EachStep(ps[1..], k - 1);
    }
  }

  /** The loop over the arguments of one call, each redacted on its own. */
  method RedactEachArg(texts: seq<string>, ghost ps: seq<seq<Token>>, ghost bound: nat)
    returns (args: seq<string>, count: nat)
    requires texts == Flats(ps)
    requires forall p :: p in ps ==> Lex(Flat(p)) == p && |Flat(p)| < bound
    ensures args == Flats(RedactEach(ps).outs) && count == RedactEach(ps).count
    decreases bound, 0
  {
    hide Lex, Redact, RedactEach, Flat;
    args := texts;
    count := 0;
    assert ps[0..] == ps;
    for k := 0 to |args|
      invariant |args| == |ps|
      invariant forall x :: 0 <= x < k ==> args[x] == Flat(RedactEach(ps).outs[x])
      invariant forall x :: k <= x < |args| ==> args[x] == Flat(ps[x])
      invariant RedactEach(ps).count == count + RedactEach(ps[k..]).count
    {
      assert ps[k] in ps;
      var r, n := RedactCalls(args[k]);
      EachStep(ps, k);
      args := args[k := r];
      count := count + n;
    }
    EachNil(ps[|args|..]);
  }

  /** The loop that overwrites the arguments at the rule's positions. */
  method MaskPositions(texts: seq<string>, positions: seq<nat>) returns (args: seq<string>, count: nat)
    ensures MaskAt(texts, positions) == MaskedArgs(args, count)
  {
    hide MaskAt, MaskLiteral;
    args := texts;
    count := 0;
    ghost var masked := MaskAt(texts, positions);
    assert positions[0..] == positions;
    for p := 0 to |positions|
      invariant MaskAt(args, positions[p..]).args == masked.args
      invariant count + MaskAt(args, positions[p..]).count == masked.count
    {
      var idx := positions[p];
      MaskStep(args, positions, p);
      if 1 <= idx <= |args| {
        var m := MaskLiteral(args[idx - 1]);
        if m.1 {
          args := args[idx - 1 := m.0];
          count := count + 1;
        }
      }
    }
    MaskNil(args, positions[|positions|..]);
  }

  /** The call at start, its "(" at open and its ")" at close. */
  ghost predicate CallSpans(s: string, start: nat, open: nat, close: nat, h: seq<Token>) {
    && start <= open < close < |s| && s[close] == ')'
    && IsCallHead(h) && CallClose(h) >= 0
    && Lex(s[start..]) == h
    && Lex(s[open + 1..close]) == h[OpenIdx(h) + 1..CallClose(h)]
    && Lex(s[close + 1..]) == h[CallClose(h) + 1..]
    && s[start..open + 1] == Flat(h[..OpenIdx(h) + 1])
  }

  /** The arguments SplitArgs hands out, ready to be redacted one by one. */
  lemma ArgsReady(s: string, start: nat, open: nat, close: nat, h: seq<Token>)
    requires CallSpans(s, start, open, close, h)
    ensures Args(Lex(s[open + 1..close])) == CallArgs(h)
    ensures forall p :: p in CallArgs(h) ==> Lex(Flat(p)) == p && |Flat(p)| < |s|
  {
    LexCanonical(s[open + 1..close]);
    ArgsLex(h[OpenIdx(h) + 1..CallClose(h)]);
  }

  lemma CallDone(s: string, start: nat, open: nat, close: nat, h: seq<Token>)
    requires CallSpans(s, start, open, close, h)
    ensures var inner := RedactEach(CallArgs(h));
            var masked := MaskedTexts(h[0], inner.outs);
            var rest := Redact(Lex(s[close + 1..]));
            && Redact(h).count == inner.count + masked.count + rest.count
            && Flat(Redact(h).out) == s[start..open + 1] + Text.Join(masked.args, ",") + ")" + Flat(rest.out)
  {
    hide Redact, RedactEach, MaskedTexts, Flat, Lex, Text.Join;
    RedactCall(h);
    CallText(h);
  }

  /** What the pass does from i on, when the first call there has its "(" at open
      and the search for its ")" ends with close. */
  lemma PassCall(s: string, i: nat, start: nat, open: nat, close: int, name: string)
    requires i <= |s| && CallFrom(s, i) == Call(name, start, open)
    requires open < |s| && close == CloseFrom(s, open, 0)
    ensures i <= start < open
    ensures close < 0 ==> RedactText(s[i..]) == s[i..start] + s[start..] && Redact(Lex(s[i..])).count == 0
    ensures close >= 0 ==>
              && open < close < |s| && s[close] == ')'
              && var ps := Args(Lex(s[open + 1..close]));
                 var inner := RedactEach(ps);
                 var masked := MaskedTexts(name, inner.outs);
                 && (forall p :: p in ps ==> Lex(Flat(p)) == p && |Flat(p)| < |s|)
                 && Redact(Lex(s[i..])).count == inner.count + masked.count + Redact(Lex(s[close + 1..])).count
                 && RedactText(s[i..]) ==
                    s[i..start] + (s[start..open + 1] + Text.Join(masked.args, ",") + ")" + RedactText(s[close + 1..]))
  {
    hide Lex, Redact, RedactEach, Flat, CallFrom, CloseFrom, IsCallHead, OpenIdx, Args, MaskedTexts, Text.Join;
    hide CallArgs, CallClose;
    CallAhead(s, i, start, open, name);
    CallSpan(s, start, open);
    var h := Lex(s[start..]);
    if close < 0 {
      Truncated(h);
      LexCanonical(s[start..]);
    } else {
      assert CallSpans(s, start, open, close, h);
      ArgsReady(s, start, open, close, h);
      CallDone(s, start, open, close, h);
    }
  }

  /** The arguments of one call, cut, redacted inside and masked by its rule. */
  method RedactArgs(list: string, name: string, ghost bound: nat) returns (args: seq<string>, count: nat)
    requires forall p :: p in Args(Lex(list)) ==> Lex(Flat(p)) == p && |Flat(p)| < bound
    ensures var inner := RedactEach(Args(Lex(list)));
            var masked := MaskedTexts(name, inner.outs);
            args == masked.args && count == inner.count + masked.count
    decreases bound, 1
  {
    hide Lex, Redact, RedactEach, Flat, Args, Positions, MaskAt, Flats;
    args := SplitArgs(list);
    var inner, masked;
    args, inner := RedactEachArg(args, Args(Lex(list)), bound);
    args, masked := MaskPositions(args, Positions(name, args));
    count := inner + masked;
  }

  method RedactCalls(s: string) returns (out: string, count: nat)
    ensures out == RedactText(s)
    ensures count == Redact(Lex(s)).count
    decreases |s|, 2
  {
    hide Lex, Redact, RedactEach, Flat, CallFrom, CloseFrom, Positions, Args, MaskAt, MaskedTexts, WordLen, Text.Join;
    hide Settled, Flats, RedactText;
    count := 0;
    var b := "";
    var i := 0;
    assert s[0..] == s;
    while i < |s|
      invariant i <= |s|
      invariant i > 0 ==> !IsIdentByte(s[i - 1])
      invariant RedactText(s) == b + RedactText(s[i..])
      invariant Redact(Lex(s)).count == count + Redact(Lex(s[i..])).count
    {
      var name, start, open := NextCall(s, i);
      NotInWord(s, i);
      if start < 0 {
        NoCallAhead(s, i);
        return b + s[i..], count;
      }
      CallAhead(s, i, start, open, name);
      var close := MatchingParen(s, open);
      PassCall(s, i, start, open, close, name);
      ghost var done, ahead := b, RedactText(s[i..]);
      b := b + s[i..start];
      if close < 0 {
        BehindPrefix(done, s[i..start], s[start..], ahead);
        return b + s[start..], count;
      }
      var args, n := RedactArgs(s[open + 1..close], name, |s|);
      count := count + n;
      BehindPrefix(done, s[i..start], s[start..open + 1] + Text.Join(args, ",") + ")" + RedactText(s[close + 1..]),
                   ahead);
      Carry(b, s[start..open + 1], Text.Join(args, ","), RedactText(s[close + 1..]));
      b := b + s[start..open + 1] + Text.Join(args, ",") + ")";
      i := close + 1;
    }
    EmptyText(s[i..]);
    out := b;
  }

  lemma BehindPrefix(b: string, pre: string, rest: string, text: string)
    requires text == pre + rest
    ensures b + text == b + pre + rest
  {
  }

  lemma Carry(b: string, head: string, list: string, rest: string)
    ensures b + (head + list + ")" + rest) == b + head + list + ")" + rest
  {
  }

  lemma EachNil(ps: seq<seq<Token>>)
    requires ps == []
    ensures RedactEach(ps).count == 0
  {
  }

  lemma MaskNil(args: seq<string>, ps: seq<nat>)
    requires ps == []
    ensures MaskAt(args, ps) == MaskedArgs(args, 0)
  {
  }

  lemma MaskStep(args: seq<string>, ps: seq<nat>, k: nat)
    requires k < |ps|
    ensures var p := ps[k]; var r := MaskAt(args, ps[k..]);
            if 1 <= p <= |args| && MaskLiteral(args[p - 1]).1 then
              var q := MaskAt(args[p - 1 := MaskLiteral(args[p - 1]).0], ps[k + 1..]);
              r.args == q.args && r.count == q.count + 1
            else r == MaskAt(args, ps[k + 1..])
  {
    hide MaskAt, MaskLiteral;
    assert ps[k..][0] == ps[k] && ps[k..][1..] == ps[k + 1..];
    MaskUnfold(args, ps[k..]);
  }

  lemma MaskUnfold(args: seq<string>, ps: seq<nat>)
    requires ps != []
    ensures var p := ps[0]; var r := MaskAt(args, ps);
            if 1 <= p <= |args| && MaskLiteral(args[p - 1]).1 then
              var q := MaskAt(args[p - 1 := MaskLiteral(args[p - 1]).0], ps[1..]);
              r.args == q.args && r.count == q.count + 1
            else r == MaskAt(args, ps[1..])
  {
  }

  lemma EmptyText(s: string)
    requires s == ""
    ensures Redact(Lex(s)) == Redacted([], 0) && RedactText(s) == ""
  {
  }
}
