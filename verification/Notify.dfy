/** The notify line as miners read it: what a miner hashes from it is what the server judges. */
module Notify {
  import opened Bytes
  import opened Merkle
  import opened Jobs
  import opened Shares
  import opened Sidecar

  import Hex

  /** Each group of four bytes turned round. */
  function WordsTurned(h: seq<Byte>): (r: seq<Byte>)
    requires |h| == 32
    ensures |r| == 32
  {
    seq(32, i requires 0 <= i < 32 => h[4 * (i / 4) + 3 - i % 4])
  }

  function BranchTexts(branches: seq<Hash>): (texts: seq<Json>) {
    seq(|branches|, i requires 0 <= i < |branches| => Str(Hex.Encode(branches[i])))
  }

  /** The parameters sent for a job. */
  function Line(job: Job): Json {
    Notification(job, Str(Hex.Encode(WordsTurned(job.prevHash))), Arr(BranchTexts(job.branches)))
  }

  /** `create_job_notification`. */
  method CreateNotification(job: Job) returns (params: Json)
    ensures params == Line(job)
  {
    var prev := TurnWords(job.prevHash);
    var branches := [];
    for i := 0 to |job.branches|
      invariant |branches| == i
      invariant forall k :: 0 <= k < i ==> branches[k] == Str(Hex.Encode(job.branches[k]))
    {
      branches := branches + [Str(Hex.Encode(job.branches[i]))];
    }
    assert branches == BranchTexts(job.branches);
    params := Notification(job, Str(Hex.Encode(prev)), Arr(branches));
  }

  /** The loop over chunks of four bytes. */
  method TurnWords(h: Hash) returns (turned: seq<Byte>)
    ensures turned == WordsTurned(h)
  {
    turned := [];
    for k := 0 to 8
      invariant |turned| == 4 * k
      invariant forall i :: 0 <= i < 4 * k ==> turned[i] == h[4 * (i / 4) + 3 - i % 4]
    {
      turned := turned + [h[4 * k + 3], h[4 * k + 2], h[4 * k + 1], h[4 * k]];
    }
  }

  /** In the text sent every eight digits are the number of one four-byte word of the hash. */
  lemma WordsAreNumbers(h: Hash, w: nat)
    requires w < 8
    ensures var text := Hex.Encode(WordsTurned(h));
            |text| == 64 && Hex.Value(text[8 * w..8 * w + 8]) == LeValue(h[4 * w..4 * w + 4])
  {
    var turned := WordsTurned(h);
    var (front, word, back) := (turned[..4 * w], turned[4 * w..4 * w + 4], turned[4 * w + 4..]);
    assert turned == front + word + back;
    Hex.EncodeAppend(front + word, back);
    Hex.EncodeAppend(front, word);
    assert Hex.Encode(turned)[8 * w..8 * w + 8] == Hex.Encode(word);
    Hex.DecodeEncode(word);
    DecodedValue(Hex.Encode(word));
    TurnedWord(h, w);
  }

  lemma TurnedWord(h: Hash, w: nat)
    requires w < 8
    ensures Reverse(WordsTurned(h)[4 * w..4 * w + 4]) == h[4 * w..4 * w + 4]
  {
    var (turned, word) := (WordsTurned(h)[4 * w..4 * w + 4], h[4 * w..4 * w + 4]);
    forall i | 0 <= i < 4 ensures Reverse(turned)[i] == word[i] {
      PlaceInWord(w, 3 - i);
      assert turned[3 - i] == WordsTurned(h)[4 * w + (3 - i)];
    }
  }

  lemma PlaceInWord(w: nat, i: nat)
    requires i < 4
    ensures (4 * w + i) / 4 == w && (4 * w + i) % 4 == i
  {
  }

  // ----- The miner's side

  /** The hashes of a list of texts, if each is the hex form of 32 bytes. */
  function ReadHashes(items: seq<Json>): Option<seq<Hash>> {
    if items == [] then Some([])
    else
      var first, rest := BytesOf(items[0]), ReadHashes(items[1..]);
      if first.None? || |first.value| != 32 || rest.None? then None
      else
        var h: Hash := first.value;
        Some([h] + rest.value)
  }

  lemma {:induction false} HashesReadBack(branches: seq<Hash>)
    ensures ReadHashes(BranchTexts(branches)) == Some(branches)
  {
    if branches != [] {
      HashesReadBack(branches[1..]);
      Hex.DecodeEncode(branches[0]);
      assert BranchTexts(branches)[1..] == BranchTexts(branches[1..]);
      assert branches == [branches[0]] + branches[1..];
    }
  }

  lemma WordsTurnedTwice(h: Hash)
    ensures WordsTurned(WordsTurned(h)) == h
  {
  }

  /** What a line tells a miner: the previous hash with its words turned back, the halves, the
      branches, the version and the target. */
  datatype Announced = Announced(prev: seq<Byte>, coinbase1: seq<Byte>, coinbase2: seq<Byte>, branches: seq<Hash>,
                                 version: bv32, nbits: nat)

  function ReadLine(line: Json): Option<Announced> {
    var (prev, c1, c2) := (BytesOf(Item(line, 1)), BytesOf(Item(line, 2)), BytesOf(Item(line, 3)));
    var (version, nbits) := (Item(line, 5), U32Of(Item(line, 6)));
    var branches := if Item(line, 4).Arr? then ReadHashes(Item(line, 4).items) else None;
    if prev.None? || |prev.value| != 32 || c1.None? || c2.None? || branches.None? || U32Of(version).None? || nbits.None?
    then None
    else Some(Announced(WordsTurned(prev.value), c1.value, c2.value, branches.value, VersionOf(version), nbits.value))
  }

  /** The items of a job's line, each under its own reader. */
  lemma LineReadsBack(job: Job)
    requires job.nbits < U32_LIMIT
    ensures ReadLine(Line(job))
         == Some(Announced(job.prevHash, job.coinbase1, job.coinbase2, job.branches, job.version, job.nbits))
  {
    var (prev, branches) := (WordsTurned(job.prevHash), BranchTexts(job.branches));
    FirstItems(job, Str(Hex.Encode(prev)), Arr(branches));
    LaterItems(job, Str(Hex.Encode(prev)), Arr(branches));
    TextReadsBack(prev);
    TextReadsBack(job.coinbase1);
    TextReadsBack(job.coinbase2);
    WordsTurnedTwice(job.prevHash);
    HashesReadBack(job.branches);
    VersionReadsBack(job.version);
    Hex.ParseFormat(job.nbits);
  }

  lemma FirstItems(job: Job, prev: Json, branches: Json)
    ensures var line := Notification(job, prev, branches);
            && Item(line, 1) == prev && Item(line, 2) == Str(Hex.Encode(job.coinbase1))
            && Item(line, 3) == Str(Hex.Encode(job.coinbase2))
  {
  }

  lemma LaterItems(job: Job, prev: Json, branches: Json)
    ensures var line := Notification(job, prev, branches);
            && Item(line, 4) == branches && Item(line, 5) == Str(Hex.Format08(job.version as nat))
            && Item(line, 6) == Str(Hex.Format08(job.nbits))
  {
  }

  lemma TextReadsBack(bytes: seq<Byte>)
    ensures BytesOf(Str(Hex.Encode(bytes))) == Some(bytes)
  {
    Hex.DecodeEncode(bytes);
  }

  lemma VersionReadsBack(version: bv32)
    ensures var text := Str(Hex.Format08(version as nat));
            U32Of(text).Some? && VersionOf(text) == version
  {
    Hex.ParseFormat(version as nat);
    PrintedVersion(version);
  }

  /** What a miner hashes, from the line, its extranonce1 and what it submits. */
  function MinerHeader(H: seq<Byte> -> Hash, line: Json, extranonce1: seq<Byte>, extranonce2: seq<Byte>,
                       bits: Option<bv32>, ntime: nat, nonce: nat): Option<seq<Byte>>
  {
    match ReadLine(line)
    case None => None
    case Some(a) =>
      var leaf := H(a.coinbase1 + extranonce1 + extranonce2 + a.coinbase2);
      Some(Le(Rolled(a.version, bits) as nat, 4) + a.prev + Fold(H, leaf, a.branches)
           + Le(ntime, 4) + Le(a.nbits, 4) + Le(nonce, 4))
  }

  /** For every job, extranonce and validated share, the header a miner hashes from the line sent is
      the one the server judges the share by. */
  lemma MinerHashesWhatIsJudged(H: seq<Byte> -> Hash, job: Job, extranonce1: string, s: Submission)
    requires ValidateParams(s).None? && Hex.Decode(extranonce1).Some? && job.nbits < U32_LIMIT
    ensures MinerHeader(H, Line(job), Hex.Decode(extranonce1).value, Hex.Decode(s.extranonce2).value, s.versionBits,
                        Hex.ParseU32(s.ntime).value, Hex.ParseU32(s.nonce).value)
         == Some(ShareHeader(H, job, extranonce1, s))
  {
    var (en1, en2) := (Hex.Decode(extranonce1).value, Hex.Decode(s.extranonce2).value);
    var (ntime, nonce) := (Hex.ParseU32(s.ntime).value, Hex.ParseU32(s.nonce).value);
    LineReadsBack(job);
    Assoc(job.coinbase1, en1, en2);
    var version := Rolled(job.version, s.versionBits) as nat;
    var root := Fold(H, H(LeafBytes(job, en1 + en2)), job.branches);
    HeaderJoins(version, job.prevHash, root, ntime, job.nbits, nonce);
  }

  lemma HeaderJoins(version: nat, prev: Hash, root: Hash, ntime: nat, nbits: nat, nonce: nat)
    ensures Header(version, prev, root, ntime, nbits, nonce)
         == Le(version, 4) + prev + root + Le(ntime, 4) + Le(nbits, 4) + Le(nonce, 4)
  {
    var front: seq<Byte> := Le(version, 4) + prev;
    Assoc(front + root, Le(ntime, 4) + Le(nbits, 4), Le(nonce, 4));
    Assoc(front + root, Le(ntime, 4), Le(nbits, 4));
  }
}
