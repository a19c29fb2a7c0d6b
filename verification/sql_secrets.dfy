/** Which arguments the pass hides, engine by engine. */
module SqlSecrets {
  import opened SqlLexer
  import opened SqlScanners
  import opened SqlRules
  import opened SqlNesting
  import opened SqlMasking
  import opened SqlRedactor
  import opened SqlGuarantees
  import Text

  // ----- what counts as a credential

  /** Engines and functions called (url, key id, secret key, session token ..). */
  const KEYED := ["s3", "s3queue", "gcs", "oss", "cosn", "deltalake", "iceberg", "icebergs3", "hudi"]

  /** The same behind the name of a cluster. */
  const CLUSTERED := ["s3cluster", "deltalakecluster", "icebergcluster", "hudicluster", "icebergs3cluster"]

  /** Called (host, database, table, user, password ..), mongodb and some others. */
  const HOSTED := ["mysql", "postgresql", "mongodb", "materializedmysql", "materializedpostgresql", "remote",
                   "remotesecure"]

  const AZURE := ["azureblobstorage", "azurequeue", "azure"]

  /** The name is the word, in letters of either case. */
  predicate Called(name: string, word: string) {
    && |name| == |word|
    && forall i :: 0 <= i < |name| ==>
         if 'A' <= name[i] <= 'Z' then name[i] as int + 32 == word[i] as int else name[i] == word[i]
  }

  predicate Among(name: string, words: seq<string>) {
    exists w :: w in words && Called(name, w)
  }

  /** Anonymous access. */
  predicate NoSign(arg: string) {
    Text.FoldUpper(Text.TrimSpace(arg)) == "NOSIGN"
  }

  const FORMATS := ["csv", "tsv", "json", "parquet", "orc", "avro", "arrow", "native", "tabseparated",
                    "jsoneachrow", "jsoncompacteachrow", "lineasstring", "rawblob", "values", "protobuf",
                    "capnproto", "msgpack", "auto", "regexp", "template", "customseparated", "arrowstream"]

  /** The argument, quotes off, is the name of a format. */
  ghost predicate FormatName(arg: string) {
    var v := Text.TrimQuotes(Text.TrimSpace(arg));
    var l := Text.ToLower(v);
    && v != "" && ' ' !in v && '/' !in v && ':' !in v && '.' !in v && '@' !in v
    && (|| l in FORMATS
        || (exists p :: l == p + "withnames") || (exists p :: l == p + "withnamesandtypes")
        || (exists p, q :: l == p + "eachrow" + q)
        || (exists q :: l == "json" + q) || (exists q :: l == "csv" + q)
        || (exists q :: l == "tsv" + q) || (exists q :: l == "tabseparated" + q))
  }

  const COMPRESSIONS := ["gzip", "gz", "zstd", "lz4", "bz2", "xz", "snappy", "deflate", "brotli", "br", "none", "auto"]

  predicate CompressionName(arg: string) {
    Text.ToLower(Text.TrimQuotes(Text.TrimSpace(arg))) in COMPRESSIONS
  }

  /** Argument n, counted from 1, is the key id, the secret key or the session token. */
  ghost predicate KeyPart(args: seq<string>, n: int) {
    && |args| >= 3 && !NoSign(args[1]) && !FormatName(args[1])
    && (n == 2 || n == 3 || (n == 4 && |args| >= 4 && !FormatName(args[3]) && !CompressionName(args[3])))
  }

  /** A connection string with the key in it. */
  ghost predicate AccountKey(arg: string) {
    exists p, q :: Text.ToLower(arg) == p + "accountkey=" + q
  }

  /** Argument n of a call carries a credential. */
  ghost predicate Credential(name: string, args: seq<string>, n: int) {
    && 1 <= n <= |args|
    && (|| (Among(name, KEYED) && KeyPart(args, n))
        || (Among(name, CLUSTERED) && KeyPart(args[1..], n - 1))
        || (Among(name, HOSTED) && ((n == 4 && |args| == 4) || n == 5))
        || (Called(name, "externaldistributed") && n == 6)
        || (Called(name, "redis") && n == 3)
        || (Among(name, AZURE) && (n == 5 || (n == 1 && AccountKey(args[0])))))
  }

  /** The argument is a literal in single quotes that shows its value. */
  ghost predicate Shows(arg: string) {
    exists v :: Text.TrimSpace(arg) == "'" + v + "'" && v != "" && v != "[HIDDEN]"
  }

  // ----- the rules pick the credentials

  lemma ShowsMaskable(arg: string)
    ensures Shows(arg) <==> Maskable(arg)
  {
    var t := Text.TrimSpace(arg);
    hide Text.TrimSpace;
    if Maskable(arg) {
      var v := t[1..|t| - 1];
      assert t == "'" + v + "'";
    }
    if v :| t == "'" + v + "'" && v != "" && v != "[HIDDEN]" {
      assert t[0] == '\'' && t[|t| - 1] == '\'';
      assert t[1..|t| - 1] == v;
      assert HIDDEN[1..|HIDDEN| - 1] == "[HIDDEN]";
    }
  }

  lemma {:induction false} LowerWord(name: string)
    requires forall i :: 0 <= i < |name| ==> IsIdentByte(name[i])
    ensures |Text.ToLower(name)| == |name|
    ensures forall i :: 0 <= i < |name| ==> Text.ToLower(name)[i] == Text.LowerByte(name[i])
  {
    if name != "" {
      LowerWord(name[1..]);
    }
  }

  lemma CalledLower(name: string, word: string)
    requires forall i :: 0 <= i < |name| ==> IsIdentByte(name[i])
    ensures Called(name, word) <==> Text.ToLower(name) == word
  {
    LowerWord(name);
    hide Text.ToLower;
  }

  lemma AmongLower(name: string, words: seq<string>)
    requires forall i :: 0 <= i < |name| ==> IsIdentByte(name[i])
    ensures Among(name, words) <==> Text.ToLower(name) in words
  {
    hide Text.ToLower, Called;
    forall w ensures Called(name, w) <==> Text.ToLower(name) == w {
      CalledLower(name, w);
    }
  }

  /** The table of rules, read off. */
  lemma TableWords(l: string)
    ensures l in KEYED <==> l in POSITIONAL_SECRETS && POSITIONAL_SECRETS[l] == S3
    ensures l in CLUSTERED <==> l in POSITIONAL_SECRETS && POSITIONAL_SECRETS[l] == ShiftedS3
    ensures l in HOSTED <==> l in POSITIONAL_SECRETS && POSITIONAL_SECRETS[l] == HostDbUserPw
    ensures l == "externaldistributed" <==> l in POSITIONAL_SECRETS && POSITIONAL_SECRETS[l] == Fixed(6)
    ensures l == "redis" <==> l in POSITIONAL_SECRETS && POSITIONAL_SECRETS[l] == Fixed(3)
    ensures l in AZURE <==> l in POSITIONAL_SECRETS && POSITIONAL_SECRETS[l] == Azure
    ensures l in POSITIONAL_SECRETS && POSITIONAL_SECRETS[l].Fixed? ==> POSITIONAL_SECRETS[l].idx in {3, 6}
  {
  }

  lemma PrefixIs(s: string, p: string)
    ensures Text.HasPrefix(s, p) <==> exists q :: s == p + q
  {
    if Text.HasPrefix(s, p) {
      assert s == p + s[|p|..];
    }
    if q :| s == p + q {
      assert s[..|p|] == p;
    }
  }

  lemma SuffixIs(s: string, p: string)
    ensures Text.HasSuffix(s, p) <==> exists q :: s == q + p
  {
    if Text.HasSuffix(s, p) {
      assert s == s[..|s| - |p|] + p;
    }
    if q :| s == q + p {
      assert s[|s| - |p|..] == p;
    }
  }

  lemma ContainsIs(s: string, sub: string)
    ensures Text.Contains(s, sub) <==> exists p, q :: s == p + sub + q
  {
    var r := Text.Index(s, sub);
    hide Text.Index;
    if r >= 0 {
      assert s[r..] == sub + s[r..][|sub|..];
      assert s == s[..r] + sub + s[r..][|sub|..];
    }
    if p, q :| s == p + sub + q {
      assert s[|p|..] == sub + q;
      assert Text.HasPrefix(s[|p|..], sub);
    }
  }

  lemma FormatExactly(arg: string)
    ensures FormatName(arg) <==> LooksLikeFormat(arg)
  {
    var v := Text.TrimQuotes(Text.TrimSpace(arg));
    var l := Text.ToLower(v);
    hide Text.TrimQuotes, Text.TrimSpace, Text.ToLower, Text.HasPrefix, Text.HasSuffix, Text.Contains;
    SuffixIs(l, "withnames");
    SuffixIs(l, "withnamesandtypes");
    ContainsIs(l, "eachrow");
    PrefixIs(l, "json");
    PrefixIs(l, "csv");
    PrefixIs(l, "tsv");
    PrefixIs(l, "tabseparated");
    NoPunctuation(v);
  }

  lemma NoPunctuation(v: string)
    ensures (' ' !in v && '/' !in v && ':' !in v && '.' !in v && '@' !in v) <==> !exists c :: c in v && c in " /:.@"
  {
  }

  lemma KeyPartExactly(args: seq<string>, n: nat)
    ensures n in S3Positions(args) <==> KeyPart(args, n)
  {
    hide LooksLikeFormat, FormatName, Text.TrimSpace, Text.FoldUpper, Text.TrimQuotes, Text.ToLower;
    if |args| >= 2 { FormatExactly(args[1]); }
    if |args| >= 4 { FormatExactly(args[3]); }
  }

  /** A rule's positions, one further. */
  lemma ShiftedIn(ps: seq<nat>, n: nat)
    ensures n in seq(|ps|, i requires 0 <= i < |ps| => ps[i] + 1) <==> n > 0 && n - 1 in ps
  {
    var q := seq(|ps|, i requires 0 <= i < |ps| => ps[i] + 1);
    if n > 0 && n - 1 in ps {
      var i :| 0 <= i < |ps| && ps[i] == n - 1;
      assert q[i] == n;
    }
  }

  /** What each kind of rule picks. */
  ghost predicate Picks(rule: ArgRule, args: seq<string>, n: int) {
    match rule
    case S3 => KeyPart(args, n)
    case ShiftedS3 => |args| > 0 && KeyPart(args[1..], n - 1)
    case HostDbUserPw => (n == 4 && |args| == 4) || (n == 5 && |args| >= 5)
    case Fixed(idx) => n == idx <= |args|
    case Azure => |args| > 0 && ((n == 5 && |args| >= 5) || (n == 1 && AccountKey(args[0])))
  }

  lemma RuleExactly(rule: ArgRule, args: seq<string>, n: nat)
    ensures n in RulePositions(rule, args) <==> Picks(rule, args, n)
  {
    hide S3Positions, KeyPart, Text.Contains, Text.ToLower;
    match rule {
      case S3 => KeyPartExactly(args, n);
      case ShiftedS3 =>
        if |args| >= 2 {
          ShiftedIn(S3Positions(args[1..]), n);
          if n > 0 { KeyPartExactly(args[1..], n - 1); } else { NoPart(args[1..], n - 1); }
        } else if |args| > 0 {
          ShortList(args[1..], n - 1);
        }
      case Azure => if |args| > 0 { ContainsIs(Text.ToLower(args[0]), "accountkey="); }
      case _ =>
    }
  }

  /** What the rules pick are the credentials. */
  lemma PositionsExactly(name: string, args: seq<string>, n: int)
    requires forall i :: 0 <= i < |name| ==> IsIdentByte(name[i])
    requires 1 <= n <= |args|
    ensures n in Positions(name, args) <==> Credential(name, args, n)
  {
    var l := Text.ToLower(name);
    AmongLower(name, KEYED);
    AmongLower(name, CLUSTERED);
    AmongLower(name, HOSTED);
    AmongLower(name, AZURE);
    CalledLower(name, "externaldistributed");
    CalledLower(name, "redis");
    TableWords(l);
    hide Text.ToLower, Among, Called, POSITIONAL_SECRETS, KEYED, CLUSTERED, HOSTED, AZURE, KeyPart, RulePositions;
    if l in POSITIONAL_SECRETS {
      RuleExactly(POSITIONAL_SECRETS[l], args, n);
    }
  }

  lemma NoPart(args: seq<string>, n: int)
    requires n < 0
    ensures !KeyPart(args, n)
  {
  }

  lemma ShortList(args: seq<string>, n: int)
    requires |args| < 3
    ensures !KeyPart(args, n)
  {
  }

  // ----- what the output shows

  /** Every call found in ts, at top level and inside arguments, that closes shows no
      credential. */
  ghost predicate Guarded(ts: seq<Token>)
    decreases |ts|, 0
  {
    if ts == [] then true
    else if !IsCallHead(ts) then Guarded(ts[1..])
    else if CallClose(ts) < 0 then true
    else
      var args := CallArgs(ts);
      && (forall i :: 0 <= i < |args| ==> Credential(ts[0], Flats(args), i + 1) ==> !Shows(Flats(args)[i]))
      && AllGuarded(args)
      && Guarded(ts[CallClose(ts) + 1..])
  }

  ghost predicate AllGuarded(ps: seq<seq<Token>>)
    decreases Total(ps), 1 + |ps|
  {
    ps == [] || (Guarded(ps[0]) && AllGuarded(ps[1..]))
  }

  /** The name of a call is a word. */
  lemma NameIsWord(ts: seq<Token>)
    requires Canonical(ts) && IsCallHead(ts)
    ensures forall i :: 0 <= i < |ts[0]| ==> IsIdentByte(ts[0][i])
  {
    hide OpenIdx;
    assert IsToken(ts[0]);
    assert KindOf(ts[0]) == Word;
  }

  lemma {:induction false} AllGuardedIf(ps: seq<seq<Token>>)
    requires forall i :: 0 <= i < |ps| ==> Guarded(ps[i])
    ensures AllGuarded(ps)
    decreases |ps|
  {
    if ps != [] { AllGuardedIf(ps[1..]); }
  }

  lemma {:induction false} CleanGuarded(ts: seq<Token>)
    requires Canonical(ts) && Clean(ts)
    ensures Guarded(ts)
    decreases |ts|
  {
    hide Canonical, IsCallHead, OpenIdx, CallClose, CallArgs, Positions, Maskable, Credential, Shows;
    if ts == [] {
    } else if !IsCallHead(ts) {
      Behind(ts, 1);
      CleanGuarded(ts[1..]);
    } else if CallClose(ts) >= 0 {
      var c, ps := CallClose(ts), CallArgs(ts);
      Behind(ts, c + 1);
      CleanGuarded(ts[c + 1..]);
      NameIsWord(ts);
      forall i | 0 <= i < |ps| ensures Guarded(ps[i]) {
        CallArgFacts(ts, i);
        AllCleanEach(ps, i);
        CleanGuarded(ps[i]);
      }
      AllGuardedIf(ps);
      forall i | 0 <= i < |ps| && Credential(ts[0], Flats(ps), i + 1) ensures !Shows(Flats(ps)[i]) {
        PositionsExactly(ts[0], Flats(ps), i + 1);
        ShowsMaskable(Flats(ps)[i]);
      }
    }
  }

  lemma Behind(ts: seq<Token>, i: nat)
    requires Canonical(ts) && i <= |ts|
    ensures Canonical(ts[i..])
  {
    hide Canonical;
    SliceCanonical(ts, i, |ts|);
    assert ts[i..|ts|] == ts[i..];
  }

  /** When the brackets inside each top-level call nest, the output shows no
      credential at any depth. */
  lemma NoCredentialShows(s: string)
    requires CallsNested(Lex(s))
    ensures Guarded(Lex(RedactText(s)))
  {
    hide Lex, Canonical, Clean, CallsNested, RedactText, Guarded;
    NothingShows(s);
    LexCanonical(RedactText(s));
    CleanGuarded(Lex(RedactText(s)));
  }

  // ----- what the pass does to one call

  /** The text after masking: the value gone, the white space around it kept. */
  function Masked(arg: string): string {
    Text.Lead(arg) + "'[HIDDEN]'" + Text.Trail(arg)
  }

  /** Argument i of a call after the pass: hidden when it shows a credential, else as
      the pass leaves it on its own. */
  ghost predicate HiddenIf(name: string, outs: seq<seq<Token>>, i: nat, m: seq<Token>)
    requires i < |outs|
  {
    m == if Credential(name, Flats(outs), i + 1) && Shows(Flat(outs[i])) then Lex(Masked(Flat(outs[i]))) else outs[i]
  }

  /** For every call that closes, whatever its brackets: the pass keeps the head, hides
      exactly the arguments that show a credential once they were redacted inside, and
      goes on behind the closing parenthesis. */
  lemma HidesExactly(ts: seq<Token>) returns (outs: seq<seq<Token>>, ms: seq<seq<Token>>)
    requires Canonical(ts) && IsCallHead(ts) && CallClose(ts) >= 0
    ensures |outs| == |ms| == |CallArgs(ts)|
    ensures forall i :: 0 <= i < |outs| ==> outs[i] == Redact(CallArgs(ts)[i]).out && HiddenIf(ts[0], outs, i, ms[i])
    ensures Redact(ts).out == ts[..OpenIdx(ts) + 1] + Commas(ms) + [")"] + Redact(ts[CallClose(ts) + 1..]).out
  {
    hide Canonical, IsCallHead, OpenIdx, CallClose, CallArgs, Positions, Maskable, Redact, RedactEach, MaskAt;
    hide Credential, Shows, Lex, Flat, Text.Lead, Text.Trail, Commas;
    var ps := CallArgs(ts);
    outs, ms := RedactEach(ps).outs, ArgsOut(ts);
    EachLength(ps);
    NameIsWord(ts);
    HeadShape(ts);
    RebuiltIs(ts);
    var texts := Flats(outs);
    var r := MaskAt(texts, Positions(ts[0], texts)).args;
    MaskAtForm(texts, Positions(ts[0], texts));
    forall i | 0 <= i < |outs| ensures outs[i] == Redact(ps[i]).out && HiddenIf(ts[0], outs, i, ms[i]) {
      EachStep(ps, i);
      CallArgFacts(ts, i);
      RedactCanonical(ps[i]);
      LexFlat(outs[i]);
      PositionsExactly(ts[0], texts, i + 1);
      ShowsMaskable(texts[i]);
      MaskedShowsNot(texts[i], r[i]);
      assert ms[i] == Lex(r[i]);
    }
  }

  lemma MaskedShowsNot(a: string, b: string)
    requires MaskOf(a, b)
    ensures b != a ==> Maskable(a) && b == Masked(a)
  {
    hide Maskable, Text.Lead, Text.Trail;
  }
}
