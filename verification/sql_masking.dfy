/** What masking one argument does to its tokens, and which positions the rules
    pick once the masked arguments are in place: a masked argument is one literal
    between single blank bytes, and no rule picks a position because another one was
    masked. */
module SqlMasking {
  import opened SqlLexer
  import opened SqlScanners
  import opened SqlRules
  import opened SqlNesting
  import opened Text

  /** b is the argument a, or a with its literal hidden and its blanks kept. */
  predicate MaskOf(a: string, b: string) {
    b == a || (Maskable(a) && b == Lead(a) + HIDDEN + Trail(a))
  }

  // ----- trimming a masked argument gives the token back

  lemma SpaceAtPrefix(s: string, u: string)
    requires SpaceAt(s) > 0 && |u| >= SpaceAt(s) && u[..SpaceAt(s)] == s[..SpaceAt(s)]
    ensures SpaceAt(u) == SpaceAt(s)
  {
    var k := SpaceAt(s);
    assert forall i :: 0 <= i < k ==> u[..k][i] == s[..k][i];
  }

  lemma SpaceBeforeSuffix(s: string, u: string)
    requires var k := SpaceBefore(s); k > 0 && |u| >= k && u[|u| - k..] == s[|s| - k..]
    ensures SpaceBefore(u) == SpaceBefore(s)
  {
    var k := SpaceBefore(s);
    var v, w := u[|u| - k..], s[|s| - k..];
    assert forall i :: 0 <= i < k ==> v[i] == w[i];
    assert v[k - 1] == u[|u| - 1] && w[k - 1] == s[|s| - 1];
    assert k > 1 ==> v[k - 2] == u[|u| - 2] && w[k - 2] == s[|s| - 2];
    assert k > 2 ==> v[k - 3] == u[|u| - 3] && w[k - 3] == s[|s| - 3];
  }

  lemma {:induction false} LeadLenKept(s: string, r: string)
    requires SpaceAt(r) == 0
    ensures LeadLen(s[..LeadLen(s)] + r) == LeadLen(s)
    decreases |s|
  {
    hide SpaceAt;
    var k, n := SpaceAt(s), LeadLen(s);
    var u := s[..n] + r;
    if k == 0 {
      assert u == r;
    } else {
      assert u[..k] == s[..k];
      SpaceAtPrefix(s, u);
      LeadLenKept(s[k..], r);
      assert u[k..] == s[k..][..LeadLen(s[k..])] + r;
    }
  }

  lemma {:induction false} TrailLenKept(s: string, r: string)
    requires SpaceBefore(r) == 0
    ensures TrailLen(r + s[|s| - TrailLen(s)..]) == TrailLen(s)
    decreases |s|
  {
    hide SpaceBefore;
    var k, n := SpaceBefore(s), TrailLen(s);
    var u := r + s[|s| - n..];
    if k == 0 {
      assert u == r;
    } else {
      var s' := s[..|s| - k];
      assert u[|u| - k..] == s[|s| - k..];
      SpaceBeforeSuffix(s, u);
      TrailLenKept(s', r);
      assert u[..|u| - k] == r + s'[|s'| - TrailLen(s')..];
    }
  }

  lemma MaskedTrim(a: string)
    ensures TrimSpace(Lead(a) + HIDDEN + Trail(a)) == HIDDEN
    ensures !Maskable(Lead(a) + HIDDEN + Trail(a))
  {
    var r := HIDDEN + Trail(a);
    assert HIDDEN[0] == '\'' && HIDDEN[|HIDDEN| - 1] == '\'' && r[0] == '\'';
    assert SpaceAt(r) == 0 && SpaceBefore(HIDDEN) == 0;
    hide SpaceAt, SpaceBefore;
    LeadLenKept(a, r);
    var m := Lead(a) + HIDDEN + Trail(a);
    assert m == a[..LeadLen(a)] + r;
    assert TrimLeft(m) == r;
    var t := TrimLeft(a);
    TrailLenKept(t, HIDDEN);
    assert Trail(a) == t[|t| - TrailLen(t)..];
    assert r[..|r| - TrailLen(r)] == HIDDEN;
  }

  // ----- the loop over the positions

  /** Each argument is left alone or hidden, hidden only where the rule points,
      and no literal shows where it points; the count is 0 when nothing changed. */
  lemma {:induction false} MaskAtForm(args: seq<string>, ps: seq<nat>)
    ensures var r := MaskAt(args, ps);
            && (forall i :: 0 <= i < |args| ==> MaskOf(args[i], r.args[i]))
            && (forall i :: 0 <= i < |args| && r.args[i] != args[i] ==> i + 1 in ps)
            && (forall i :: 0 <= i < |args| && i + 1 in ps ==> !Maskable(r.args[i]))
            && (r.count == 0 <==> r.args == args)
    decreases |ps|
  {
    hide Maskable, Lead, Trail, MaskLiteral;
    if ps != [] {
      var p := ps[0];
      if 1 <= p <= |args| {
        var a := args[p - 1];
        MaskedForm(a);
        if Maskable(a) {
          var m := Lead(a) + HIDDEN + Trail(a);
          MaskedTrim(a);
          MaskAtForm(args[p - 1 := m], ps[1..]);
          assert MaskAt(args, ps).args[p - 1] == m;
        } else {
          MaskAtForm(args, ps[1..]);
        }
      } else {
        MaskAtForm(args, ps[1..]);
      }
    }
  }

  // ----- rules on masked arguments

  /** Masking at the rule's positions never makes the rule pick a new one. */
  lemma {:induction false} PositionsStable(name: string, args: seq<string>)
    ensures var r := MaskAt(args, Positions(name, args)).args;
            forall p :: p in Positions(name, r) ==> p in Positions(name, args)
  {
    hide MaskAt, LooksLikeFormat, LooksLikeCompression, TrimSpace, FoldUpper, ToLower, Contains, POSITIONAL_SECRETS;
    var ps := Positions(name, args);
    MaskAtForm(args, ps);
    var r := MaskAt(args, ps).args;
    if ToLower(name) in POSITIONAL_SECRETS {
      match POSITIONAL_SECRETS[ToLower(name)] {
        case S3 => S3Stable(args, r);
        case ShiftedS3 =>
          if |args| >= 2 {
            var q := S3Positions(args[1..]);
            assert forall x :: x in ps ==> x >= 1 && x - 1 in q;
            assert forall i :: 0 <= i < |args| - 1 && r[1..][i] != args[1..][i] ==> i + 2 in ps;
            S3Stable(args[1..], r[1..]);
            var q' := S3Positions(r[1..]);
            forall x | x in Positions(name, r) ensures x in ps {
              var i :| 0 <= i < |q'| && x == q'[i] + 1;
              assert q'[i] in q;
              var j :| 0 <= j < |q| && q[j] == q'[i];
              assert ps[j] == x;
            }
          }
        case _ =>
      }
    }
  }

  lemma S3Stable(args: seq<string>, r: seq<string>)
    requires |r| == |args|
    requires forall i :: 0 <= i < |args| && r[i] != args[i] ==> i + 1 in S3Positions(args)
    ensures forall p :: p in S3Positions(r) ==> p in S3Positions(args)
  {
  }

  // ----- the tokens of a masked argument

  function Singles(s: string): seq<Token> {
    if s == "" then [] else [[s[0]]] + Singles(s[1..])
  }

  /** A token no scanner reacts to. */
  predicate Plain(t: Token) {
    && t != "" && !IsIdentStart(t[0])
    && t != "(" && t != ")" && t != "[" && t != "]" && t != ","
  }

  lemma SpaceToken(c: char)
    requires SpaceByte(c)
    ensures IsToken([c]) && Closed([c]) && Plain([c]) && KindOf([c]) == Mark
    ensures forall d :: Separates([c], d)
  {
  }

  lemma {:induction false} SinglesFacts(s: string)
    requires Blank(s)
    ensures Canonical(Singles(s)) && Flat(Singles(s)) == s
    ensures forall t :: t in Singles(s) ==> Plain(t) && Closed(t) && t[0] != '\''
    ensures forall t, d :: t in Singles(s) ==> Separates(t, d)
  {
    hide TokLen, KindOf, Closed, Separates, Plain;
    if s != "" {
      var r := Singles(s[1..]);
      assert s == [s[0]] + s[1..];
      SpaceToken(s[0]);
      SinglesFacts(s[1..]);
      assert Canonical([[s[0]]]);
      JoinCanonical([[s[0]]], r);
      assert Singles(s)[1..] == r;
    }
  }

  lemma HiddenToken()
    ensures IsToken(HIDDEN) && Closed(HIDDEN) && Plain(HIDDEN) && KindOf(HIDDEN) == Quoted
  {
    PlainQuoted("[HIDDEN]");
    assert HIDDEN[1..] == "[HIDDEN]" + "'";
    QuotedWhole(HIDDEN);
  }

  lemma QuotedWhole(t: Token)
    requires |t| > 1 && t[0] == '\'' && QuotedLen(t[1..], '\'') == |t| - 1 && QuotedClosed(t[1..], '\'')
    ensures IsToken(t) && Closed(t) && Plain(t) && KindOf(t) == Quoted
  {
    hide QuotedLen, QuotedClosed;
  }

  lemma {:induction false} PlainQuoted(s: string)
    requires '\\' !in s && '\'' !in s
    ensures QuotedLen(s + "'", '\'') == |s| + 1 && QuotedClosed(s + "'", '\'')
  {
    if s != "" {
      assert (s + "'")[0] == s[0] && (s + "'")[1..] == s[1..] + "'";
      PlainQuoted(s[1..]);
    }
  }

  /** A masked argument is plain throughout, and every token of it is terminated. */
  lemma MaskedTokens(a: string)
    ensures var ts := Lex(Lead(a) + HIDDEN + Trail(a));
            && ts != [] && Canonical(ts)
            && forall t :: t in ts ==> Plain(t) && Closed(t)
  {
    hide TokLen, KindOf, Closed, Separates, Plain, Lex, Flat;
    var x, y := Singles(Lead(a)), Singles(Trail(a));
    TrimParts(a);
    SinglesFacts(Lead(a));
    SinglesFacts(Trail(a));
    HiddenToken();
    var h := [HIDDEN];
    assert Canonical(h);
    if y != [] {
      assert y[0] in y && Plain(y[0]);
      HiddenSeparates(y[0]);
    }
    JoinCanonical(h, y);
    if x != [] {
      assert x[|x| - 1] in x && Separates(x[|x| - 1], (h + y)[0][0]);
    }
    JoinCanonical(x, h + y);
    FlatAppend(x, h + y);
    FlatAppend(h, y);
    FlatHidden();
    LexFlat(x + (h + y));
    assert Lead(a) + (HIDDEN + Trail(a)) == Lead(a) + HIDDEN + Trail(a);
  }

  lemma FlatHidden()
    ensures Flat([HIDDEN]) == HIDDEN
  {
  }

  lemma HiddenSeparates(t: Token)
    requires t != "" && t[0] != '\''
    ensures Separates(HIDDEN, t[0])
  {
    assert HIDDEN[0] == '\'';
  }

  lemma {:induction false} PlainRun(ts: seq<Token>, st: seq<Token>, d: int)
    requires forall t :: t in ts ==> Plain(t)
    ensures Run(ts, st) == Expect(st) && NoComma(ts, d)
  {
    if ts != [] {
      assert Plain(ts[0]);
      assert forall t :: t in ts[1..] ==> t in ts;
      PlainRun(ts[1..], st, d);
    }
  }
}
