/** Share submissions: parameter checks, the duplicate filter in sixteen shards, and the
    verdict on a share. */
module Shares {
  import opened Bytes
  import opened Jobs
  import opened Merkle
  import opened Wire
  import opened Difficulty
  import Hex

  /** BIP 320 ("Specification"): the version bits a miner may roll, 13 to 28. */
  const ROLLING_MASK: bv32 := 0x1fffe000

  datatype Submission = Submission(jobId: string, extranonce2: string, ntime: string, nonce: string,
                                   versionBits: Option<bv32>)

  datatype Error =
    | EmptyJobId | EmptyExtranonce2 | EmptyNtime | EmptyNonce
    | BadExtranonce2 | BadNtime | BadNonce
    | UnknownJob | UnknownMiner | TimeTooOld | TimeTooNew | BadVersion | Duplicate | BadExtranonce1

  datatype Miner = Miner(extranonce1: string, difficulty: nat)

  datatype Verdict =
    | Refused(error: Error)
    | Judged(header: seq<Byte>, isBlock: bool, accepted: bool)

  /** `validate_share_params`. */
  function ValidateParams(s: Submission): (e: Option<Error>)
    ensures e.None? <==>
              && s.jobId != ""
              && Hex.Decode(s.extranonce2).Some? && |Hex.Decode(s.extranonce2).value| == 8
              && Hex.ParseU32(s.ntime).Some? && Hex.ParseU32(s.nonce).Some?
  {
    if s.jobId == "" then Some(EmptyJobId)
    else if s.extranonce2 == "" then Some(EmptyExtranonce2)
    else if s.ntime == "" then Some(EmptyNtime)
    else if s.nonce == "" then Some(EmptyNonce)
    else if Hex.Decode(s.extranonce2).None? || |Hex.Decode(s.extranonce2).value| != 8 then Some(BadExtranonce2)
    else if Hex.ParseU32(s.ntime).None? then Some(BadNtime)
    else if Hex.ParseU32(s.nonce).None? then Some(BadNonce)
    else None
  }

  /** A validated share and an eight-digit extranonce1 give exactly twelve bytes. */
  lemma TwelveBytes(s: Submission, extranonce1: string)
    requires ValidateParams(s).None? && |extranonce1| == 8 && Hex.Decode(extranonce1).Some?
    ensures |Hex.Decode(extranonce1).value + Hex.Decode(s.extranonce2).value| == 12
  {
  }

  function Rolled(version: bv32, bits: Option<bv32>): bv32 {
    match bits
    case Some(b) => (version & !ROLLING_MASK) | (b & ROLLING_MASK)
    case None => version
  }

  /** The header a validated share hashes. */
  function ShareHeader(H: seq<Byte> -> Hash, job: Job, extranonce1: string, s: Submission): (h: seq<Byte>)
    requires ValidateParams(s).None? && Hex.Decode(extranonce1).Some?
    ensures |h| == 80
  {
    JobHeader(H, job, Rolled(job.version, s.versionBits) as nat,
              Hex.Decode(extranonce1).value + Hex.Decode(s.extranonce2).value,
              Hex.ParseU32(s.ntime).value, Hex.ParseU32(s.nonce).value)
  }

  /** The version a header carries: outside the mask the template's bits, inside it the miner's if
      any were sent. */
  predicate Carries(v: bv32, template: bv32, bits: Option<bv32>) {
    match bits
    case None => v == template
    case Some(b) => v & 0xe0001fff == template & 0xe0001fff && v & 0x1fffe000 == b & 0x1fffe000
  }

  lemma RolledCarries(version: bv32, bits: Option<bv32>)
    ensures Carries(Rolled(version, bits), version, bits)
  {
  }

  lemma VersionReads(v: bv32)
    ensures LeValue(Le(v as nat, 4)) < U32_LIMIT && LeValue(Le(v as nat, 4)) as bv32 == v
  {
    WordReads(v as nat);
    assert (v as nat) as bv32 == v;
  }

  lemma WordReads(n: nat)
    requires n < U32_LIMIT
    ensures LeValue(Le(n, 4)) == n
  {
    Pow256Widths();
    LeValueOfLe(n, 4);
  }

  /** What the 80 bytes say, field by field: each number of the share and of the job in its own
      four bytes, and the root of the coinbase around extranonce1 and extranonce2 in that order. */
  lemma ShareHeaderFields(H: seq<Byte> -> Hash, job: Job, extranonce1: string, s: Submission)
    requires ValidateParams(s).None? && Hex.Decode(extranonce1).Some? && job.nbits < U32_LIMIT
    ensures var h := ShareHeader(H, job, extranonce1, s);
            var leaf := job.coinbase1 + Hex.Decode(extranonce1).value + Hex.Decode(s.extranonce2).value + job.coinbase2;
            && LeValue(h[..4]) < U32_LIMIT && Carries(LeValue(h[..4]) as bv32, job.version, s.versionBits)
            && h[4..36] == job.prevHash && h[36..68] == Fold(H, H(leaf), job.branches)
            && LeValue(h[68..72]) == Hex.ParseU32(s.ntime).value && LeValue(h[72..76]) == job.nbits
            && LeValue(h[76..80]) == Hex.ParseU32(s.nonce).value
  {
    var (a, b) := (Hex.Decode(extranonce1).value, Hex.Decode(s.extranonce2).value);
    var (ntime, nonce) := (Hex.ParseU32(s.ntime).value, Hex.ParseU32(s.nonce).value);
    var root := Fold(H, H(LeafBytes(job, a + b)), job.branches);
    Assoc(job.coinbase1, a, b);
    HeaderSlices(Rolled(job.version, s.versionBits) as nat, job.prevHash, root, ntime, job.nbits, nonce);
    VersionReads(Rolled(job.version, s.versionBits));
    RolledCarries(job.version, s.versionBits);
    WordReads(ntime);
    WordReads(job.nbits);
    WordReads(nonce);
  }

  // ----- Duplicate keys

  function Decimal(n: nat): (s: string)
    ensures forall i :: 0 <= i < |s| ==> '0' <= s[i] <= '9'
  {
    var last := ['0' + (n % 10) as char];
    if n < 10 then last else Decimal(n / 10) + last
  }

  /** Rust's debug form of an optional number. */
  function Debug(bits: Option<bv32>): string {
    match bits
    case None => "None"
    case Some(b) => "Some(" + Decimal(b as nat) + ")"
  }

  function Key(extranonce1: string, s: Submission): string {
    var back := s.ntime + ":" + (Debug(s.versionBits) + ":" + s.nonce);
    s.jobId + ":" + (extranonce1 + ":" + (s.extranonce2 + ":" + back))
  }

  predicate NoColon(t: string) {
    forall i :: 0 <= i < |t| ==> t[i] != ':'
  }

  lemma {:induction false} SplitAtColon(a: string, x: string, b: string, y: string)
    requires NoColon(a) && NoColon(b) && a + ":" + x == b + ":" + y
    ensures a == b && x == y
  {
    var s := a + ":" + x;
    assert s[0] == (if a == "" then ':' else a[0]) && s[0] == (if b == "" then ':' else b[0]);
    if a == "" {
      assert x == s[1..] && y == s[1..];
    } else {
      assert s[1..] == a[1..] + ":" + x && s[1..] == b[1..] + ":" + y;
      SplitAtColon(a[1..], x, b[1..], y);
      assert a == [a[0]] + a[1..] && b == [b[0]] + b[1..];
    }
  }

  function DecimalValue(s: string): int {
    if s == "" then 0 else 10 * DecimalValue(s[..|s| - 1]) + (s[|s| - 1] as int - '0' as int)
  }

  lemma {:induction false} DecimalReadsBack(n: nat)
    ensures DecimalValue(Decimal(n)) == n
  {
    var s := Decimal(n);
    assert s[|s| - 1] as int - '0' as int == n % 10;
    if n < 10 {
      assert s[..|s| - 1] == "";
    } else {
      DecimalReadsBack(n / 10);
      assert s[..|s| - 1] == Decimal(n / 10);
    }
  }

  lemma SomeInjective(m: nat, n: nat)
    requires "Some(" + Decimal(m) + ")" == "Some(" + Decimal(n) + ")"
    ensures m == n
  {
    var t := "Some(" + Decimal(m) + ")";
    assert Decimal(m) == t[5..|t| - 1] && Decimal(n) == t[5..|t| - 1];
    DecimalReadsBack(m);
    DecimalReadsBack(n);
  }

  lemma DebugInjective(a: Option<bv32>, b: Option<bv32>)
    requires Debug(a) == Debug(b)
    ensures a == b
  {
    assert Debug(a)[0] == (if a.Some? then 'S' else 'N') && Debug(b)[0] == (if b.Some? then 'S' else 'N');
    if a.Some? {
      SomeInjective(a.value as nat, b.value as nat);
      assert (a.value as nat) as bv32 == a.value && (b.value as nat) as bv32 == b.value;
    }
  }

  lemma DebugHasNoColon(bits: Option<bv32>)
    ensures NoColon(Debug(bits))
  {
  }

  /** No validated field holds the separator: digits, at most one plus sign. */
  lemma FieldsHaveNoColon(extranonce1: string, s: Submission)
    requires ValidateParams(s).None? && Hex.Decode(extranonce1).Some?
    ensures NoColon(extranonce1) && NoColon(s.extranonce2) && NoColon(s.ntime) && NoColon(s.nonce)
  {
    NumberHasNoColon(s.ntime);
    NumberHasNoColon(s.nonce);
  }

  lemma NumberHasNoColon(t: string)
    requires Hex.ParseU32(t).Some?
    ensures NoColon(t)
  {
    var body := if |t| > 1 && t[0] == '+' then t[1..] else t;
    assert Hex.AllDigits(body);
    forall i | 0 <= i < |t| ensures t[i] != ':' {
      if |t| > 1 && t[0] == '+' { if i > 0 { assert t[i] == body[i - 1]; } }
    }
  }

  lemma KeyFields(e1: string, s1: Submission, e2: string, s2: Submission)
    requires NoColon(s1.jobId) && NoColon(s2.jobId)
    requires ValidateParams(s1).None? && ValidateParams(s2).None?
    requires Hex.Decode(e1).Some? && Hex.Decode(e2).Some?
    requires Key(e1, s1) == Key(e2, s2)
    ensures e1 == e2 && s1 == s2
  {
    FieldsHaveNoColon(e1, s1);
    FieldsHaveNoColon(e2, s2);
    DebugHasNoColon(s1.versionBits);
    DebugHasNoColon(s2.versionBits);
    var d1, d2 := Debug(s1.versionBits) + ":" + s1.nonce, Debug(s2.versionBits) + ":" + s2.nonce;
    var c1, c2 := s1.ntime + ":" + d1, s2.ntime + ":" + d2;
    var b1, b2 := s1.extranonce2 + ":" + c1, s2.extranonce2 + ":" + c2;
    var a1, a2 := e1 + ":" + b1, e2 + ":" + b2;
    SplitAtColon(s1.jobId, a1, s2.jobId, a2);
    SplitAtColon(e1, b1, e2, b2);
    SplitAtColon(s1.extranonce2, c1, s2.extranonce2, c2);
    SplitAtColon(s1.ntime, d1, s2.ntime, d2);
    SplitAtColon(Debug(s1.versionBits), s1.nonce, Debug(s2.versionBits), s2.nonce);
    DebugInjective(s1.versionBits, s2.versionBits);
  }

  /** Equal keys mean one job and one 80-byte header. */
  lemma KeyDeterminesHeader(H: seq<Byte> -> Hash, jobs: map<string, Job>, e1: string, s1: Submission,
                            e2: string, s2: Submission)
    requires s1.jobId in jobs && s2.jobId in jobs && NoColon(s1.jobId) && NoColon(s2.jobId)
    requires ValidateParams(s1).None? && ValidateParams(s2).None?
    requires Hex.Decode(e1).Some? && Hex.Decode(e2).Some?
    requires Key(e1, s1) == Key(e2, s2)
    ensures s1.jobId == s2.jobId
    ensures ShareHeader(H, jobs[s1.jobId], e1, s1) == ShareHeader(H, jobs[s2.jobId], e2, s2)
  {
    KeyFields(e1, s1, e2, s2);
  }

  /** Each number in the one form `{:08x}` prints, the extranonce in lower case. */
  predicate Canonical(s: Submission) {
    && ValidateParams(s).None?
    && s.extranonce2 == Hex.Encode(Hex.Decode(s.extranonce2).value)
    && s.ntime == Hex.Format08(Hex.ParseU32(s.ntime).value)
    && s.nonce == Hex.Format08(Hex.ParseU32(s.nonce).value)
  }

  /** In canonical text the key is exactly the decoded values; in other text it is finer. */
  lemma CanonicalKey(e: string, s1: Submission, s2: Submission)
    requires Canonical(s1) && Canonical(s2) && Hex.Decode(e).Some?
    requires NoColon(s1.jobId) && NoColon(s2.jobId)
    ensures Key(e, s1) == Key(e, s2) <==>
              && s1.jobId == s2.jobId && s1.versionBits == s2.versionBits
              && Hex.Decode(s1.extranonce2) == Hex.Decode(s2.extranonce2)
              && Hex.ParseU32(s1.ntime) == Hex.ParseU32(s2.ntime)
              && Hex.ParseU32(s1.nonce) == Hex.ParseU32(s2.nonce)
  {
    if Key(e, s1) == Key(e, s2) { KeyFields(e, s1, e, s2); }
  }

  lemma {:induction false} LeadingZero(t: string)
    requires Hex.AllDigits(t)
    ensures Hex.AllDigits("0" + t) && Hex.Value("0" + t) == Hex.Value(t)
  {
    if t == "" {
      assert "0" + t == "0" && Hex.Value("0"[..0]) == 0;
    } else {
      LeadingZero(t[..|t| - 1]);
      assert ("0" + t)[..|t|] == "0" + t[..|t| - 1];
    }
  }

  /** The same number in longer text: one more leading zero, behind the plus sign if there is one. */
  lemma PaddedNumber(t: string) returns (u: string)
    requires Hex.ParseU32(t).Some?
    ensures Hex.ParseU32(u) == Hex.ParseU32(t) && |u| == |t| + 1
  {
    if |t| > 1 && t[0] == '+' {
      LeadingZero(t[1..]);
      u := "+" + ("0" + t[1..]);
      assert u[1..] == "0" + t[1..];
    } else {
      LeadingZero(t);
      u := "0" + t;
    }
  }

  /** Outside canonical text the filter is not a filter on headers: every validated share has a
      twin with one more leading zero, the same header and another key. */
  lemma PaddedTimeTwin(H: seq<Byte> -> Hash, job: Job, e: string, s: Submission) returns (twin: Submission)
    requires ValidateParams(s).None? && Hex.Decode(e).Some? && NoColon(s.jobId)
    ensures ValidateParams(twin).None? && ShareHeader(H, job, e, twin) == ShareHeader(H, job, e, s)
    ensures Key(e, twin) != Key(e, s)
  {
    var ntime := PaddedNumber(s.ntime);
    twin := s.(ntime := ntime);
    if Key(e, twin) == Key(e, s) { KeyFields(e, twin, e, s); }
  }

  /** Sending no version bits and sending the template's own bits is one header under two keys. */
  lemma OwnBitsTwin(H: seq<Byte> -> Hash, job: Job, e: string, s: Submission) returns (twin: Submission)
    requires ValidateParams(s).None? && Hex.Decode(e).Some? && NoColon(s.jobId) && s.versionBits.None?
    ensures ValidateParams(twin).None? && ShareHeader(H, job, e, twin) == ShareHeader(H, job, e, s)
    ensures Key(e, twin) != Key(e, s)
  {
    twin := s.(versionBits := Some(job.version & ROLLING_MASK));
    assert Rolled(job.version, twin.versionBits) == job.version;
    if Key(e, twin) == Key(e, s) { KeyFields(e, twin, e, s); }
  }

  // ----- One header under two keys, exactly

  predicate InMask(bits: Option<bv32>) { bits.Some? ==> bits.value & !ROLLING_MASK == 0 }

  /** No bits in one share, the template's own bits in the other. */
  predicate OwnBits(version: bv32, a: Option<bv32>, b: Option<bv32>) {
    || (a.None? && b.Some? && b.value == version & ROLLING_MASK)
    || (b.None? && a.Some? && a.value == version & ROLLING_MASK)
  }

  /** Under the mask a rolled version shows the bits it was rolled with. */
  lemma RolledShows(version: bv32, b: bv32)
    requires b & !ROLLING_MASK == 0
    ensures Rolled(version, Some(b)) & ROLLING_MASK == b
    ensures b == version & ROLLING_MASK ==> Rolled(version, Some(b)) == version
  {
  }

  lemma BothRolled(version: bv32, a: bv32, b: bv32)
    requires a & !ROLLING_MASK == 0 && b & !ROLLING_MASK == 0
    ensures Rolled(version, Some(a)) == Rolled(version, Some(b)) <==> a == b
  {
    RolledShows(version, a);
    RolledShows(version, b);
  }

  lemma OneRolled(version: bv32, b: bv32)
    requires b & !ROLLING_MASK == 0
    ensures version == Rolled(version, Some(b)) <==> b == version & ROLLING_MASK
  {
    RolledShows(version, b);
  }

  lemma RolledAlike(version: bv32, a: Option<bv32>, b: Option<bv32>)
    requires InMask(a) && InMask(b) && Rolled(version, a) == Rolled(version, b)
    ensures a == b || OwnBits(version, a, b)
  {
    if a.Some? && b.Some? {
      BothRolled(version, a.value, b.value);
    } else if b.Some? {
      OneRolled(version, b.value);
    } else if a.Some? {
      OneRolled(version, a.value);
    }
  }

  lemma OwnBitsRollAlike(version: bv32, a: Option<bv32>, b: Option<bv32>)
    requires InMask(a) && InMask(b) && OwnBits(version, a, b)
    ensures Rolled(version, a) == Rolled(version, b)
  {
    if b.Some? { OneRolled(version, b.value); } else { OneRolled(version, a.value); }
  }

  /** The miner's extranonce1, as the server hands it out: eight lower-case digits. */
  predicate ServerExtranonce(e: string) {
    |e| == 8 && Hex.Decode(e).Some? && e == Hex.Encode(Hex.Decode(e).value)
  }

  /** The extranonce of a share: the miner's part, then its own. */
  function Extranonce(e: string, s: Submission): seq<Byte>
    requires ValidateParams(s).None? && Hex.Decode(e).Some?
  {
    Hex.Decode(e).value + Hex.Decode(s.extranonce2).value
  }

  /** The work a validated share stands for. */
  function ShareWork(job: Job, e: string, s: Submission): Work
    requires ValidateParams(s).None? && Hex.Decode(e).Some?
  {
    WorkOf(job, Rolled(job.version, s.versionBits) as nat,
           Hex.Decode(e).value + Hex.Decode(s.extranonce2).value,
           Hex.ParseU32(s.ntime).value, Hex.ParseU32(s.nonce).value)
  }

  lemma ShareWorkOk(job: Job, e: string, s: Submission)
    requires ValidateParams(s).None? && ServerExtranonce(e) && Minable(job)
    ensures WorkOk(ShareWork(job, e, s))
  {
    TwelveBytes(s, e);
  }

  predicate Validated(job: Job, e: string, s: Submission) {
    ValidateParams(s).None? && ServerExtranonce(e) && Minable(job)
  }

  /** The strings hashed for the roots of two shares do not collide. */
  predicate Separate(H: seq<Byte> -> Hash, j1: Job, e1: string, s1: Submission, j2: Job, e2: string, s2: Submission)
    requires Validated(j1, e1, s1) && Validated(j2, e2, s2)
  {
    NoCollisionIn(H, WorkTexts(H, ShareWork(j1, e1, s1)) + WorkTexts(H, ShareWork(j2, e2, s2)))
  }

  /** Two validated shares, of any jobs and miners and in any text, have one header when they are
      one piece of work, and only then if the strings hashed for their roots do not collide. */
  lemma OneHeaderOneWork(H: seq<Byte> -> Hash, j1: Job, e1: string, s1: Submission, j2: Job, e2: string, s2: Submission)
    requires Validated(j1, e1, s1) && Validated(j2, e2, s2)
    ensures ShareWork(j1, e1, s1) == ShareWork(j2, e2, s2) ==> ShareHeader(H, j1, e1, s1) == ShareHeader(H, j2, e2, s2)
    ensures Separate(H, j1, e1, s1, j2, e2, s2) ==>
              (ShareHeader(H, j1, e1, s1) == ShareHeader(H, j2, e2, s2)
               <==> ShareWork(j1, e1, s1) == ShareWork(j2, e2, s2))
  {
    var v, w := ShareWork(j1, e1, s1), ShareWork(j2, e2, s2);
    ShareWorkOk(j1, e1, s1);
    ShareWorkOk(j2, e2, s2);
    assert ShareHeader(H, j1, e1, s1) == WorkHeader(H, v) && ShareHeader(H, j2, e2, s2) == WorkHeader(H, w);
    if Separate(H, j1, e1, s1, j2, e2, s2) { HeaderDeterminesWork(H, v, w); }
  }

  /** One header under two keys. */
  predicate Twins(H: seq<Byte> -> Hash, j1: Job, e1: string, s1: Submission, j2: Job, e2: string, s2: Submission)
    requires Validated(j1, e1, s1) && Validated(j2, e2, s2)
  {
    ShareHeader(H, j1, e1, s1) == ShareHeader(H, j2, e2, s2) && Key(e1, s1) != Key(e2, s2)
  }

  /** One piece of work in two submissions. */
  predicate SubmittedTwice(j1: Job, e1: string, s1: Submission, j2: Job, e2: string, s2: Submission)
    requires Validated(j1, e1, s1) && Validated(j2, e2, s2)
  {
    ShareWork(j1, e1, s1) == ShareWork(j2, e2, s2) && !(e1 == e2 && s1 == s2)
  }

  /** In any text, work submitted twice is one header under two keys, and nothing else is if the
      strings hashed for the roots do not collide. */
  lemma TwoKeysOneHeader(H: seq<Byte> -> Hash, j1: Job, e1: string, s1: Submission, j2: Job, e2: string, s2: Submission)
    requires Validated(j1, e1, s1) && Validated(j2, e2, s2) && NoColon(s1.jobId) && NoColon(s2.jobId)
    ensures SubmittedTwice(j1, e1, s1, j2, e2, s2) ==> Twins(H, j1, e1, s1, j2, e2, s2)
    ensures Separate(H, j1, e1, s1, j2, e2, s2) ==>
              (Twins(H, j1, e1, s1, j2, e2, s2) <==> SubmittedTwice(j1, e1, s1, j2, e2, s2))
  {
    OneHeaderOneWork(H, j1, e1, s1, j2, e2, s2);
    if Key(e1, s1) == Key(e2, s2) { KeyFields(e1, s1, e2, s2); }
  }

  /** The same leaf around the same halves holds the same extranonces. */
  lemma LeafGivesExtranonces(job: Job, e1: string, s1: Submission, e2: string, s2: Submission)
    requires ValidateParams(s1).None? && ServerExtranonce(e1) && ValidateParams(s2).None? && ServerExtranonce(e2)
    requires ShareWork(job, e1, s1).leaf == ShareWork(job, e2, s2).leaf
    ensures e1 == e2 && Hex.Decode(s1.extranonce2) == Hex.Decode(s2.extranonce2)
  {
    var (a1, b1) := (Hex.Decode(e1).value, Hex.Decode(s1.extranonce2).value);
    var (a2, b2) := (Hex.Decode(e2).value, Hex.Decode(s2.extranonce2).value);
    Between(job.coinbase1, a1 + b1, a2 + b2, job.coinbase2);
    assert a1 == (a1 + b1)[..4] && b1 == (a1 + b1)[4..] && a2 == (a2 + b2)[..4] && b2 == (a2 + b2)[4..];
  }

  lemma Between(pre: seq<Byte>, a: seq<Byte>, b: seq<Byte>, post: seq<Byte>)
    requires |a| == |b| && pre + a + post == pre + b + post
    ensures a == b
  {
    assert a == (pre + a + post)[|pre|..|pre| + |a|] && b == (pre + b + post)[|pre|..|pre| + |b|];
  }

  /** The only twins of canonical text: one share without bits, the other with the template's own,
      all else equal. */
  predicate BitsTwins(version: bv32, e1: string, s1: Submission, e2: string, s2: Submission) {
    e1 == e2 && s1.(versionBits := None) == s2.(versionBits := None)
    && OwnBits(version, s1.versionBits, s2.versionBits)
  }

  predicate CanonicalPair(e1: string, s1: Submission, e2: string, s2: Submission) {
    && Canonical(s1) && ServerExtranonce(e1) && InMask(s1.versionBits)
    && Canonical(s2) && ServerExtranonce(e2) && InMask(s2.versionBits)
  }

  lemma OneWorkMeans(job: Job, e1: string, s1: Submission, e2: string, s2: Submission)
    requires CanonicalPair(e1, s1, e2, s2) && s1.jobId == s2.jobId
    requires ShareWork(job, e1, s1) == ShareWork(job, e2, s2)
    ensures (e1 == e2 && s1 == s2) || BitsTwins(job.version, e1, s1, e2, s2)
  {
    SameVersion(Rolled(job.version, s1.versionBits), Rolled(job.version, s2.versionBits));
    RolledAlike(job.version, s1.versionBits, s2.versionBits);
    SameText(job, e1, s1, e2, s2);
  }

  lemma SameText(job: Job, e1: string, s1: Submission, e2: string, s2: Submission)
    requires CanonicalPair(e1, s1, e2, s2) && s1.jobId == s2.jobId
    requires ShareWork(job, e1, s1) == ShareWork(job, e2, s2)
    ensures e1 == e2 && s1.(versionBits := None) == s2.(versionBits := None)
  {
    LeafGivesExtranonces(job, e1, s1, e2, s2);
  }

  lemma TwinsAreOneWork(job: Job, e1: string, s1: Submission, e2: string, s2: Submission)
    requires CanonicalPair(e1, s1, e2, s2) && BitsTwins(job.version, e1, s1, e2, s2)
    ensures ShareWork(job, e1, s1) == ShareWork(job, e2, s2)
  {
    OwnBitsRollAlike(job.version, s1.versionBits, s2.versionBits);
  }

  lemma SameVersion(a: bv32, b: bv32)
    requires a as nat == b as nat
    ensures a == b
  {
    assert (a as nat) as bv32 == a && (b as nat) as bv32 == b;
  }

  /** For canonical shares of one job, the bits twins are one header under two keys, and nothing
      else is if the strings hashed for the roots do not collide. */
  lemma CanonicalTwins(H: seq<Byte> -> Hash, job: Job, e1: string, s1: Submission, e2: string, s2: Submission)
    requires CanonicalPair(e1, s1, e2, s2) && Minable(job) && s1.jobId == s2.jobId && NoColon(s1.jobId)
    ensures BitsTwins(job.version, e1, s1, e2, s2) ==> Twins(H, job, e1, s1, job, e2, s2)
    ensures Separate(H, job, e1, s1, job, e2, s2) ==>
              (Twins(H, job, e1, s1, job, e2, s2) <==> BitsTwins(job.version, e1, s1, e2, s2))
  {
    TwoKeysOneHeader(H, job, e1, s1, job, e2, s2);
    if BitsTwins(job.version, e1, s1, e2, s2) {
      TwinsAreOneWork(job, e1, s1, e2, s2);
    } else if ShareWork(job, e1, s1) == ShareWork(job, e2, s2) {
      OneWorkMeans(job, e1, s1, e2, s2);
    }
  }

  // ----- The verdict

  predicate BitsAllowed(s: Submission) { s.versionBits.Some? ==> s.versionBits.value & !ROLLING_MASK == 0 }

  /** The checks before a share is hashed, in the order they are made. */
  function Gate(seen: bool, job: Option<Job>, miner: Option<Miner>, s: Submission): (e: Option<Error>)
    ensures e.None? ==> ValidateParams(s).None? && job.Some? && miner.Some? && Hex.Decode(miner.value.extranonce1).Some?
  {
    if ValidateParams(s).Some? then ValidateParams(s)
    else if job.None? then Some(UnknownJob)
    else if miner.None? then Some(UnknownMiner)
    else
      var ntime := Hex.ParseU32(s.ntime).value;
      if ntime < job.value.mintime then Some(TimeTooOld)
      else if ntime > job.value.curtime + 7200 then Some(TimeTooNew)
      else if !BitsAllowed(s) then Some(BadVersion)
      else if seen then Some(Duplicate)
      else if Hex.Decode(miner.value.extranonce1).None? then Some(BadExtranonce1)
      else None
  }

  /** `validate_and_submit_share` up to the bookkeeping of an accepted share. */
  function Judge(H: seq<Byte> -> Hash, seen: bool, job: Option<Job>, miner: Option<Miner>,
                 s: Submission): Verdict {
    match Gate(seen, job, miner, s)
    case Some(e) => Refused(e)
    case None =>
      var header := ShareHeader(H, job.value, miner.value.extranonce1, s);
      Judged(header, LeValue(H(header)) <= CompactValue(job.value.nbits),
             DifficultyOf(H(header)) >= miner.value.difficulty)
  }

  /** The submission is well formed and its job and miner are known. */
  predicate Known(job: Option<Job>, miner: Option<Miner>, s: Submission) {
    ValidateParams(s).None? && job.Some? && miner.Some?
  }

  lemma AllowedBits(s: Submission)
    ensures BitsAllowed(s) <==> (s.versionBits.Some? ==> s.versionBits.value & 0xe0001fff == 0)
  {
  }

  /** Nothing but the filter stands between the submission and its header. */
  predicate CanPass(job: Option<Job>, miner: Option<Miner>, s: Submission) {
    && Known(job, miner, s)
    && job.value.mintime <= Hex.ParseU32(s.ntime).value <= job.value.curtime + 7200 && BitsAllowed(s)
  }

  predicate EightBytes(text: string) { Hex.Decode(text).Some? && |Hex.Decode(text).value| == 8 }

  /** When each fault of the parameters is the first one. */
  predicate FaultIs(s: Submission, e: Error) {
    match e
    case EmptyJobId => s.jobId == ""
    case EmptyExtranonce2 => s.jobId != "" && s.extranonce2 == ""
    case EmptyNtime => s.jobId != "" && s.extranonce2 != "" && s.ntime == ""
    case EmptyNonce => s.jobId != "" && s.extranonce2 != "" && s.ntime != "" && s.nonce == ""
    case BadExtranonce2 =>
      "" !in {s.jobId, s.extranonce2, s.ntime, s.nonce} && !EightBytes(s.extranonce2)
    case BadNtime =>
      s.jobId != "" && s.nonce != "" && s.ntime != "" && EightBytes(s.extranonce2) && Hex.ParseU32(s.ntime).None?
    case BadNonce =>
      && s.jobId != "" && s.nonce != "" && EightBytes(s.extranonce2)
      && Hex.ParseU32(s.ntime).Some? && Hex.ParseU32(s.nonce).None?
    case _ => false
  }

  lemma FaultRightly(s: Submission, e: Error)
    ensures ValidateParams(s) == Some(e) <==> FaultIs(s, e)
  {
  }

  /** When each refusal is the right one. */
  predicate RefusedFor(held: bool, job: Option<Job>, miner: Option<Miner>, s: Submission, e: Error) {
    match e
    case UnknownJob => ValidateParams(s).None? && job.None?
    case UnknownMiner => ValidateParams(s).None? && job.Some? && miner.None?
    case TimeTooOld => Known(job, miner, s) && Hex.ParseU32(s.ntime).value < job.value.mintime
    case TimeTooNew =>
      && Known(job, miner, s) && job.value.mintime <= Hex.ParseU32(s.ntime).value
      && job.value.curtime + 7200 < Hex.ParseU32(s.ntime).value
    case BadVersion =>
      && Known(job, miner, s) && !BitsAllowed(s)
      && job.value.mintime <= Hex.ParseU32(s.ntime).value <= job.value.curtime + 7200
    case Duplicate => CanPass(job, miner, s) && held
    case BadExtranonce1 => CanPass(job, miner, s) && !held && Hex.Decode(miner.value.extranonce1).None?
    case _ => FaultIs(s, e)
  }

  lemma RefusedRightly(held: bool, job: Option<Job>, miner: Option<Miner>, s: Submission, e: Error)
    ensures Gate(held, job, miner, s) == Some(e) <==> RefusedFor(held, job, miner, s, e)
  {
    FaultRightly(s, e);
  }

  lemma PassesRightly(held: bool, job: Option<Job>, miner: Option<Miner>, s: Submission)
    ensures Gate(held, job, miner, s).None? <==>
              CanPass(job, miner, s) && !held && Hex.Decode(miner.value.extranonce1).Some?
  {
  }

  /** The hash reaches the difficulty: times it, the truncated hash is at most the difficulty-one
      target 0xFFFF * 2^208. Below 2^160 every 64-bit difficulty is reached. */
  predicate Reaches(h: Hash, difficulty: nat) {
    Trunc8(h) < Pow256(20) || Trunc8(h) * difficulty <= 0xFFFF * Pow256(26)
  }

  /** When each verdict is the right one. */
  predicate RightVerdict(H: seq<Byte> -> Hash, held: bool, job: Option<Job>, miner: Option<Miner>, s: Submission,
                         v: Verdict)
  {
    match v
    case Refused(e) => RefusedFor(held, job, miner, s, e)
    case Judged(header, isBlock, accepted) =>
      && CanPass(job, miner, s) && !held && Hex.Decode(miner.value.extranonce1).Some?
      && header == ShareHeader(H, job.value, miner.value.extranonce1, s)
      && (isBlock <==> LeValue(H(header)) <= CompactValue(job.value.nbits))
      && (accepted <==> Reaches(H(header), miner.value.difficulty))
  }

  /** The judgement is the one right verdict: refused for the first fault found, a held key for
      being held, and otherwise accepted exactly when its hash reaches the miner's difficulty. */
  lemma JudgedRightly(H: seq<Byte> -> Hash, held: bool, job: Option<Job>, miner: Option<Miner>, s: Submission,
                      v: Verdict)
    requires miner.Some? ==> miner.value.difficulty <= U64_MAX
    ensures v == Judge(H, held, job, miner, s) <==> RightVerdict(H, held, job, miner, s, v)
  {
    PassesRightly(held, job, miner, s);
    if v.Refused? {
      RefusedRightly(held, job, miner, s, v.error);
    } else if Gate(held, job, miner, s).None? {
      WeighedRightly(H(ShareHeader(H, job.value, miner.value.extranonce1, s)), miner.value.difficulty);
    }
  }

  lemma WeighedRightly(h: Hash, difficulty: nat)
    requires difficulty <= U64_MAX
    ensures DifficultyOf(h) >= difficulty <==> Reaches(h, difficulty)
  {
    MeetsThreshold(h, difficulty);
  }

  /** A share that solves the block is accepted by every miner whose difficulty is at most the
      network's; it can only be refused before it is hashed. */
  lemma BlockIsNeverLowDifficulty(H: seq<Byte> -> Hash, seen: bool, job: Option<Job>, miner: Option<Miner>,
                                  s: Submission)
    requires Judge(H, seen, job, miner, s).Judged? && Judge(H, seen, job, miner, s).isBlock
    requires miner.value.difficulty <= U64_MAX
    requires miner.value.difficulty * CompactValue(job.value.nbits) <= One()
    ensures Judge(H, seen, job, miner, s).accepted
  {
    var header := ShareHeader(H, job.value, miner.value.extranonce1, s);
    BlockHashMeetsShare(H(header), job.value.nbits, miner.value.difficulty);
  }

  /** Solving a job of an honest template end to end: the block submitted for a validated share has
      the header the share was judged by, reads back, and commits to what it carries. */
  lemma SolvedShareSubmitsBlock(H: seq<Byte> -> Hash, id: string, t: Template, pool: seq<Byte>, meaning: seq<Tx>,
                                e: string, s: Submission) returns (job: Job, block: Block)
    requires JobOf(H, id, t, pool).Some? && Payable(t.payment, pool) && Honest(H, t.txs, meaning)
    requires ValidateParams(s).None? && ServerExtranonce(e)
    ensures job == JobOf(H, id, t, pool).value && block.header == ShareHeader(H, job, e, s)
    ensures var en := Hex.Decode(e).value + Hex.Decode(s.extranonce2).value;
            |LeafBytes(job, en)| > 64 && SubmittedBytes(block.header, job, en) == Some(WriteBlock(block))
    ensures ReadBlock(WriteBlock(block)) == Some((block, [])) && Consistent(H, block)
  {
    TwelveBytes(s, e);
    var en := Hex.Decode(e).value + Hex.Decode(s.extranonce2).value;
    job := JobOf(H, id, t, pool).value;
    job, block := JobBlockIsConsistent(H, id, t, pool, meaning, en, Rolled(job.version, s.versionBits) as nat,
                                       Hex.ParseU32(s.ntime).value, Hex.ParseU32(s.nonce).value);
  }

  method Weigh(H: seq<Byte> -> Hash, header: seq<Byte>, nbits: nat, required: nat) returns (v: Verdict)
    requires nbits < U32_LIMIT
    ensures v == Judged(header, LeValue(H(header)) <= CompactValue(nbits), DifficultyOf(H(header)) >= required)
  {
    var target := TargetFromNbits(nbits);
    var isBlock := HashLeTarget(H(header), target);
    var difficulty := DifficultyFromHash(H(header));
    v := Judged(header, isBlock, difficulty >= required);
  }

  // ----- Sixteen shards

  const SHARDS: nat := 16

  function ByteSum(key: string): nat {
    if key == "" then 0 else key[0] as nat + ByteSum(key[1..])
  }

  function ShardIndex(key: string): (i: nat)
    ensures i < SHARDS
  {
    ByteSum(key) % SHARDS
  }

  /** What happens to the shards, one lock at a time. A new block clears them one by one. */
  datatype Op = Insert(key: string) | Clear(shard: nat)

  function Apply(shards: seq<set<string>>, op: Op): (after: seq<set<string>>)
    requires |shards| == SHARDS
    ensures |after| == SHARDS
  {
    match op
    case Insert(k) => shards[ShardIndex(k) := shards[ShardIndex(k)] + {k}]
    case Clear(i) => if i < SHARDS then shards[i := {}] else shards
  }

  function After(ops: seq<Op>): (shards: seq<set<string>>)
    ensures |shards| == SHARDS
  {
    if ops == [] then seq(SHARDS, _ => {}) else Apply(After(ops[..|ops| - 1]), ops[|ops| - 1])
  }

  /** Inserted at `m` and its own shard not cleared since. */
  predicate Remembered(ops: seq<Op>, key: string, m: nat) {
    && m < |ops| && ops[m] == Insert(key)
    && forall j :: m < j < |ops| ==> ops[j] != Clear(ShardIndex(key))
  }

  /** In every interleaving of inserts and shard clears, the shard of a key holds it exactly when
      it was inserted and that shard was not cleared since. */
  lemma {:induction false} ShardsActAsOneSet(ops: seq<Op>, key: string)
    ensures key in After(ops)[ShardIndex(key)] <==> exists m :: Remembered(ops, key, m)
  {
    if ops != [] {
      var n := |ops| - 1;
      var before, last := ops[..n], ops[n];
      ShardsActAsOneSet(before, key);
      if key in After(ops)[ShardIndex(key)] {
        if last == Insert(key) {
          assert Remembered(ops, key, n);
        } else {
          var m :| Remembered(before, key, m);
          assert Remembered(ops, key, m);
        }
      }
      if m: nat :| Remembered(ops, key, m) {
        if m < n { assert Remembered(before, key, m); }
      }
    }
  }

  /** An insert passes exactly when the key is not remembered, so between two clears of its
      shard a key passes at most once. */
  lemma PassesAtMostOnce(ops: seq<Op>, key: string, i: nat, j: nat)
    requires i < j < |ops| && ops[i] == Insert(key) && ops[j] == Insert(key)
    requires key !in After(ops[..i])[ShardIndex(key)] && key !in After(ops[..j])[ShardIndex(key)]
    ensures exists c :: i < c < j && ops[c] == Clear(ShardIndex(key))
  {
    ShardsActAsOneSet(ops[..j], key);
    assert !Remembered(ops[..j], key, i);
  }

  /** Two canonical shares that pass the filter with no clear of their shard in between have one
      header exactly when they are bits twins of one job or belong to two jobs that ask for the
      same work, if the strings hashed for the roots do not collide. */
  lemma PassedSharesDiffer(H: seq<Byte> -> Hash, ops: seq<Op>, j1: Job, e1: string, s1: Submission,
                           j2: Job, e2: string, s2: Submission, i: nat, j: nat)
    requires i < j < |ops| && ops[i] == Insert(Key(e1, s1)) && ops[j] == Insert(Key(e2, s2))
    requires Key(e1, s1) !in After(ops[..i])[ShardIndex(Key(e1, s1))]
    requires Key(e2, s2) !in After(ops[..j])[ShardIndex(Key(e2, s2))]
    requires forall c :: i < c < j ==> ops[c] != Clear(ShardIndex(Key(e2, s2)))
    requires CanonicalPair(e1, s1, e2, s2) && Minable(j1) && Minable(j2)
    requires s1.jobId == s2.jobId ==> j1 == j2
    requires Separate(H, j1, e1, s1, j2, e2, s2)
    ensures ShareHeader(H, j1, e1, s1) == ShareHeader(H, j2, e2, s2) <==>
              if s1.jobId == s2.jobId then BitsTwins(j1.version, e1, s1, e2, s2)
              else ShareWork(j1, e1, s1) == ShareWork(j2, e2, s2)
  {
    OneHeaderOneWork(H, j1, e1, s1, j2, e2, s2);
    if Key(e1, s1) == Key(e2, s2) { PassesAtMostOnce(ops, Key(e1, s1), i, j); }
    if s1.jobId == s2.jobId {
      if BitsTwins(j1.version, e1, s1, e2, s2) {
        TwinsAreOneWork(j1, e1, s1, e2, s2);
      } else if ShareWork(j1, e1, s1) == ShareWork(j2, e2, s2) {
        OneWorkMeans(j1, e1, s1, e2, s2);
      }
    }
  }

  /** A new block clears every shard. */
  function ClearEach(n: nat): (ops: seq<Op>)
    ensures |ops| == n
  {
    seq(n, i requires 0 <= i < n => Clear(i))
  }

  lemma ClearedForgets(ops: seq<Op>, key: string)
    ensures key !in After(ops + ClearEach(SHARDS))[ShardIndex(key)]
  {
    var all, c := ops + ClearEach(SHARDS), |ops| + ShardIndex(key);
    ShardsActAsOneSet(all, key);
    assert all[c] == Clear(ShardIndex(key));
    assert forall m :: |ops| <= m < |all| ==> all[m].Clear?;
  }

  /** So a share judged before a new block is judged the same after it, accepted again if it was
      accepted, whenever its job can still be looked up. */
  lemma JudgedAgainAfterClear(H: seq<Byte> -> Hash, ops: seq<Op>, job: Job, miner: Miner, s: Submission)
    requires var key := Key(miner.extranonce1, s);
             Judge(H, key in After(ops)[ShardIndex(key)], Some(job), Some(miner), s).Judged?
    ensures var key := Key(miner.extranonce1, s);
            var first := Judge(H, key in After(ops)[ShardIndex(key)], Some(job), Some(miner), s);
            var later := ops + [Insert(key)] + ClearEach(SHARDS);
            Judge(H, key in After(later)[ShardIndex(key)], Some(job), Some(miner), s) == first
  {
    var key := Key(miner.extranonce1, s);
    ClearedForgets(ops + [Insert(key)], key);
  }

  class ShareFilter {
    var shards: seq<set<string>>

    ghost predicate Valid()
      reads this
    {
      |shards| == SHARDS && forall i, k :: 0 <= i < SHARDS && k in shards[i] ==> ShardIndex(k) == i
    }

    ghost predicate Seen(key: string)
      requires Valid()
      reads this
    {
      key in shards[ShardIndex(key)]
    }

    constructor ()
      ensures Valid() && shards == After([])
    {
      shards := seq(SHARDS, _ => {});
    }

    method InsertKey(key: string) returns (passed: bool)
      requires Valid()
      modifies this
      ensures Valid() && passed == !old(Seen(key))
      ensures shards == Apply(old(shards), Insert(key))
      ensures forall k :: Seen(k) <==> k == key || old(Seen(k))
    {
      var i := ShardIndex(key);
      passed := key !in shards[i];
      shards := shards[i := shards[i] + {key}];
    }

    /** The loop a new block runs; with no insert in between, nothing stays. */
    method ClearAll()
      requires Valid()
      modifies this
      ensures Valid() && forall k :: !Seen(k)
    {
      for i := 0 to SHARDS
        invariant |shards| == SHARDS
        invariant forall j :: 0 <= j < i ==> shards[j] == {}
        invariant forall j :: i <= j < SHARDS ==> shards[j] == old(shards)[j]
      {
        shards := shards[i := {}];
      }
    }

    /** The key enters the filter as soon as it passes, even if extranonce1 then fails to decode. */
    method Admit(job: Option<Job>, miner: Option<Miner>, s: Submission) returns (e: Option<Error>)
      requires Valid()
      modifies this
      ensures Valid()
      ensures e == Gate(miner.Some? && old(Seen(Key(miner.value.extranonce1, s))), job, miner, s)
      ensures CanPass(job, miner, s) ==>
                forall k :: Seen(k) <==> k == Key(miner.value.extranonce1, s) || old(Seen(k))
      ensures !CanPass(job, miner, s) ==> shards == old(shards)
    {
      e := ValidateParams(s);
      if e.Some? { return; }
      if job.None? { return Some(UnknownJob); }
      if miner.None? { return Some(UnknownMiner); }
      var ntime := Hex.ParseU32(s.ntime).value;
      if ntime < job.value.mintime { return Some(TimeTooOld); }
      if ntime > job.value.curtime + 7200 { return Some(TimeTooNew); }
      if s.versionBits.Some? && s.versionBits.value & !ROLLING_MASK != 0 { return Some(BadVersion); }
      var passed := InsertKey(Key(miner.value.extranonce1, s));
      if !passed { return Some(Duplicate); }
      if Hex.Decode(miner.value.extranonce1).None? { return Some(BadExtranonce1); }
    }

    /** One share through checks, filter, header and comparisons. */
    method Submit(H: seq<Byte> -> Hash, job: Option<Job>, miner: Option<Miner>, s: Submission) returns (v: Verdict)
      requires Valid() && (job.Some? ==> job.value.nbits < U32_LIMIT)
      modifies this
      ensures Valid()
      ensures v == Judge(H, miner.Some? && old(Seen(Key(miner.value.extranonce1, s))), job, miner, s)
      ensures (miner.Some? ==> miner.value.difficulty <= U64_MAX) ==>
                RightVerdict(H, miner.Some? && old(Seen(Key(miner.value.extranonce1, s))), job, miner, s, v)
      ensures CanPass(job, miner, s) ==>
                forall k :: Seen(k) <==> k == Key(miner.value.extranonce1, s) || old(Seen(k))
      ensures !CanPass(job, miner, s) ==> shards == old(shards)
    {
      ghost var held := miner.Some? && Seen(Key(miner.value.extranonce1, s));
      if miner.Some? ==> miner.value.difficulty <= U64_MAX {
        JudgedRightly(H, held, job, miner, s, Judge(H, held, job, miner, s));
      }
      var e := Admit(job, miner, s);
      if e.Some? { return Refused(e.value); }
      v := Weigh(H, ShareHeader(H, job.value, miner.value.extranonce1, s), job.value.nbits, miner.value.difficulty);
    }
  }
}
