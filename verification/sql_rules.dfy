/** Which positional arguments carry a credential, and masking one. */
module SqlRules {
  import opened Text

  const HIDDEN := "'[HIDDEN]'"

  datatype ArgRule = S3 | ShiftedS3 | HostDbUserPw | Fixed(idx: nat) | Azure

  const POSITIONAL_SECRETS: map<string, ArgRule> := map[
    "s3" := S3, "s3queue" := S3, "gcs" := S3, "oss" := S3, "cosn" := S3,
    "deltalake" := S3, "iceberg" := S3, "icebergs3" := S3, "hudi" := S3,
    "s3cluster" := ShiftedS3, "deltalakecluster" := ShiftedS3, "icebergcluster" := ShiftedS3,
    "hudicluster" := ShiftedS3, "icebergs3cluster" := ShiftedS3,
    "mysql" := HostDbUserPw, "postgresql" := HostDbUserPw, "mongodb" := HostDbUserPw,
    "materializedmysql" := HostDbUserPw, "materializedpostgresql" := HostDbUserPw,
    "remote" := HostDbUserPw, "remotesecure" := HostDbUserPw,
    "externaldistributed" := Fixed(6),
    "redis" := Fixed(3),
    "azureblobstorage" := Azure, "azurequeue" := Azure, "azure" := Azure
  ]

  predicate LooksLikeFormat(arg: string) {
    var v := TrimQuotes(TrimSpace(arg));
    if v == "" || exists c :: c in v && c in " /:.@" then false
    else
      var l := ToLower(v);
      || l in ["csv", "tsv", "json", "parquet", "orc", "avro", "arrow", "native", "tabseparated",
               "jsoneachrow", "jsoncompacteachrow", "lineasstring", "rawblob", "values", "protobuf",
               "capnproto", "msgpack", "auto", "regexp", "template", "customseparated", "arrowstream"]
      || HasSuffix(l, "withnames") || HasSuffix(l, "withnamesandtypes")
      || Contains(l, "eachrow") || HasPrefix(l, "json") || HasPrefix(l, "csv")
      || HasPrefix(l, "tsv") || HasPrefix(l, "tabseparated")
  }

  predicate LooksLikeCompression(arg: string) {
    ToLower(TrimQuotes(TrimSpace(arg))) in
    ["gzip", "gz", "zstd", "lz4", "bz2", "xz", "snappy", "deflate", "brotli", "br", "none", "auto"]
  }

  /** Positions count from 1. */
  function S3Positions(args: seq<string>): seq<nat> {
    if |args| < 3 then []
    else if FoldUpper(TrimSpace(args[1])) == "NOSIGN" then []
    else if LooksLikeFormat(args[1]) then []
    else if |args| >= 4 && !LooksLikeFormat(args[3]) && !LooksLikeCompression(args[3]) then [2, 3, 4]
    else [2, 3]
  }

  function AzurePositions(args: seq<string>): seq<nat> {
    (if |args| >= 1 && Contains(ToLower(args[0]), "accountkey=") then [1] else []) +
    (if |args| >= 5 then [5] else [])
  }

  function RulePositions(rule: ArgRule, args: seq<string>): seq<nat> {
    match rule
    case S3 => S3Positions(args)
    case ShiftedS3 =>
      if |args| < 2 then []
      else
        var out := S3Positions(args[1..]);
        seq(|out|, i requires 0 <= i < |out| => out[i] + 1)
    case HostDbUserPw => if |args| >= 5 then [5] else if |args| == 4 then [4] else []
    case Fixed(idx) => if |args| >= idx then [idx] else []
    case Azure => AzurePositions(args)
  }

  /** The positions the rule of the called name picks; none for an unknown name. */
  function Positions(name: string, args: seq<string>): seq<nat> {
    if ToLower(name) in POSITIONAL_SECRETS then RulePositions(POSITIONAL_SECRETS[ToLower(name)], args) else []
  }

  /** The argument is a single-quoted literal as maskLiteral judges it - by the
      first and last byte of the trimmed text - that still shows its value. */
  predicate Maskable(arg: string) {
    var t := TrimSpace(arg);
    && |t| >= 2 && t[0] == '\'' && t[|t| - 1] == '\''
    && t != HIDDEN && t != "''"
  }

  function MaskLiteral(arg: string): (string, bool) {
    var t := TrimSpace(arg);
    if |t| < 2 || t[0] != '\'' || t[|t| - 1] != '\'' then (arg, false)
    else if t == HIDDEN || t == "''" then (arg, false)
    else
      TrimParts(arg);
      IndexTrimmed(arg);
      var lead := arg[..Index(arg, t)];
      var trail := arg[|lead| + |t|..];
      (lead + HIDDEN + trail, true)
  }

  datatype MaskedArgs = MaskedArgs(args: seq<string>, count: nat)

  /** Masks the arguments at the given positions, one position after the other. */
  function MaskAt(args: seq<string>, ps: seq<nat>): (r: MaskedArgs)
    ensures |r.args| == |args|
    decreases |ps|
  {
    if ps == [] then MaskedArgs(args, 0)
    else
      var p := ps[0];
      if 1 <= p <= |args| && MaskLiteral(args[p - 1]).1 then
        var r := MaskAt(args[p - 1 := MaskLiteral(args[p - 1]).0], ps[1..]);
        r.(count := r.count + 1)
      else MaskAt(args, ps[1..])
  }

  // ----- facts about masking

  /** The trimmed text of an argument that starts with a quote is found where the
      leading white space ends: no white space is encoded with a quote byte. */
  lemma IndexTrimmed(arg: string)
    requires var t := TrimSpace(arg); t != "" && t[0] == '\''
    ensures Index(arg, TrimSpace(arg)) == |Lead(arg)|
  {
    TrimParts(arg);
    hide LeadLen, TrailLen, TrimSpace, Lead, Trail;
    FirstAt(arg, Lead(arg), TrimSpace(arg), Trail(arg));
  }

  lemma FirstAt(s: string, lead: string, t: string, trail: string)
    requires s == lead + t + trail && Blank(lead) && t != "" && t[0] == '\''
    ensures Index(s, t) == |lead|
  {
    hide Index;
    var n := |lead|;
    assert s[n..] == t + trail;
    assert HasPrefix(s[n..], t);
    forall i | 0 <= i < n ensures !HasPrefix(s[i..], t) {
      assert s[i..][0] == lead[i];
    }
  }

  lemma MaskedForm(arg: string)
    ensures MaskLiteral(arg) == if Maskable(arg) then (Lead(arg) + HIDDEN + Trail(arg), true) else (arg, false)
  {
    if Maskable(arg) {
      IndexTrimmed(arg);
      TrimParts(arg);
    }
  }
}
