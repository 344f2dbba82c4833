/** Mining jobs: built from a block template, refreshed from the mempool, and turned
    back into a full block when a share solves it. */
module Jobs {
  import opened Bytes
  import opened Wire
  import opened Merkle
  import opened Coinbase
  import Hex

  datatype TemplateTx = TemplateTx(data: string, txid: string)

  datatype Template = Template(version: int, previousHash: string, txs: seq<TemplateTx>, payment: Payment,
                               bits: string, mintime: nat, curtime: nat)

  datatype Job = Job(id: string, height: nat, prevHash: Hash, coinbase1: seq<Byte>, coinbase2: seq<Byte>,
                     branches: seq<Hash>, version: bv32, nbits: nat, ntime: nat, clean: bool, rootBase: Hash,
                     templateId: Option<string>, mintime: nat, curtime: nat, hasWitness: bool,
                     data: seq<string>, templateSeq: nat)

  function Txids(txs: seq<TemplateTx>): (ids: seq<string>)
    ensures |ids| == |txs|
  {
    seq(|txs|, i requires 0 <= i < |txs| => txs[i].txid)
  }

  function Datas(txs: seq<TemplateTx>): (ds: seq<string>)
    ensures |ds| == |txs|
  {
    seq(|txs|, i requires 0 <= i < |txs| => txs[i].data)
  }

  /** The job of a template, as the parsed fields determine it. */
  function JobOf(H: seq<Byte> -> Hash, id: string, t: Template, poolScript: seq<Byte>): Option<Job> {
    var prev, nbits := HashOfText(t.previousHash), Hex.ParseU32(t.bits);
    if prev.None? || (HasWitness(t.payment) && Commitment(t.payment).None?) || nbits.None? then None
    else
      var c1, c2 := Half1(t.payment.height), Half2(t.payment, poolScript);
      var branches := Branches(H, ValidHashes(Txids(t.txs)));
      Some(Job(id, t.payment.height, prev.value, c1, c2, branches, (t.version % U32_LIMIT) as bv32, nbits.value,
               t.curtime % U32_LIMIT, true, Fold(H, H(c1 + Zeros(12) + c2), branches), None,
               t.mintime, t.curtime, HasWitness(t.payment), Datas(t.txs), 0))
  }

  /** `create_new_job_from_template`. */
  method CreateJob(H: seq<Byte> -> Hash, id: string, t: Template, poolScript: seq<Byte>) returns (r: Option<Job>)
    requires PaymentOk(t.payment)
    ensures r == JobOf(H, id, t, poolScript)
  {
    var prev := HashOfText(t.previousHash);
    if prev.None? { return None; }
    var halves := CreateCoinbase(t.payment, poolScript);
    if halves.None? { return None; }
    var (coinbase1, coinbase2) := halves.value;
    var branches := CalculateBranches(H, Txids(t.txs));
    var rootBase := CalculateRoot(H, coinbase1, coinbase2, Zeros(12), branches);
    var nbits := Hex.ParseU32(t.bits);
    if nbits.None? { return None; }
    r := Some(Job(id, t.payment.height, prev.value, coinbase1, coinbase2, branches, (t.version % U32_LIMIT) as bv32,
                  nbits.value, t.curtime % U32_LIMIT, true, rootBase, None, t.mintime, t.curtime,
                  HasWitness(t.payment), Datas(t.txs), 0));
  }

  /** A template gives no job exactly when its previous hash is not 64 hex digits, its target is
      not a 32-bit hex number, or its commitment is not hexadecimal. */
  lemma JobFailsIff(H: seq<Byte> -> Hash, id: string, t: Template, poolScript: seq<Byte>)
    ensures var commitment := t.payment.commitmentHex;
            JobOf(H, id, t, poolScript).None? <==>
              || !(|t.previousHash| == 64 && Hex.AllDigits(t.previousHash))
              || Hex.ParseU32(t.bits).None?
              || (commitment.Some? && commitment.value != "" && Hex.Decode(commitment.value).None?)
  {
  }

  /** The mempool refresh of `job_updater`: branches and coinbase are new, the raw
      transactions, the witness flag, the version and the time window stay. */
  function Refreshed(H: seq<Byte> -> Hash, job: Job, id: string, t: Template, poolScript: seq<Byte>): Job {
    var c1, c2 := Half1(t.payment.height), Half2(t.payment, poolScript);
    var branches := Branches(H, ValidHashes(Txids(t.txs)));
    job.(id := id, templateSeq := job.templateSeq + 1, branches := branches, coinbase1 := c1, coinbase2 := c2,
         rootBase := Fold(H, H(c1 + Zeros(12) + c2), branches), ntime := t.curtime % U32_LIMIT,
         clean := false, templateId := None)
  }

  /** No new job when the branches are unchanged or the coinbase cannot be built. */
  method RefreshJob(H: seq<Byte> -> Hash, job: Job, id: string, t: Template, poolScript: seq<Byte>)
      returns (r: Option<Job>)
    requires PaymentOk(t.payment)
    ensures r.Some? ==> r.value == Refreshed(H, job, id, t, poolScript) && r.value.branches != job.branches
    ensures r.None? <==> job.branches == Branches(H, ValidHashes(Txids(t.txs)))
                         || (HasWitness(t.payment) && Commitment(t.payment).None?)
  {
    var branches := CalculateBranches(H, Txids(t.txs));
    if job.branches == branches { return None; }
    var halves := CreateCoinbase(t.payment, poolScript);
    if halves.None? { return None; }
    var (coinbase1, coinbase2) := halves.value;
    var rootBase := CalculateRoot(H, coinbase1, coinbase2, Zeros(12), branches);
    r := Some(job.(id := id, templateSeq := job.templateSeq + 1, branches := branches,
                   coinbase1 := coinbase1, coinbase2 := coinbase2, rootBase := rootBase,
                   ntime := t.curtime % U32_LIMIT, clean := false, templateId := None));
  }

  /** The 80 bytes a share hashes. */
  function Header(version: nat, prev: Hash, root: Hash, ntime: nat, nbits: nat, nonce: nat): (h: seq<Byte>)
    ensures |h| == 80 && h[..4] == Le(version, 4) && h[36..68] == root
  {
    var p: seq<Byte> := prev;
    var front, back := Le(version, 4) + p, Le(ntime, 4) + Le(nbits, 4) + Le(nonce, 4);
    assert (front + root + back)[36..68] == root;
    assert (front + root + back)[..4] == Le(version, 4);
    front + root + back
  }

  function LeafBytes(job: Job, en: seq<Byte>): seq<Byte> {
    job.coinbase1 + en + job.coinbase2
  }

  function JobHeader(H: seq<Byte> -> Hash, job: Job, version: nat, en: seq<Byte>, ntime: nat,
                     nonce: nat): (h: seq<Byte>)
    ensures |h| == 80 && h[..4] == Le(version, 4) && h[36..68] == Fold(H, H(LeafBytes(job, en)), job.branches)
  {
    Header(version, job.prevHash, Fold(H, H(LeafBytes(job, en)), job.branches), ntime, job.nbits, nonce)
  }

  lemma LeInjective(a: nat, b: nat)
    requires a < U32_LIMIT && b < U32_LIMIT && Le(a, 4) == Le(b, 4)
    ensures a == b
  {
    Pow256Widths();
    LeValueOfLe(a, 4);
    LeValueOfLe(b, 4);
  }

  /** Every field of a header can be read off it. */
  lemma HeaderSlices(version: nat, prev: Hash, root: Hash, ntime: nat, nbits: nat, nonce: nat)
    ensures var h := Header(version, prev, root, ntime, nbits, nonce);
            && h[4..36] == prev && h[68..72] == Le(ntime, 4) && h[72..76] == Le(nbits, 4) && h[76..80] == Le(nonce, 4)
  {
    var p: seq<Byte> := prev;
    var front, back := Le(version, 4) + p, Le(ntime, 4) + Le(nbits, 4) + Le(nonce, 4);
    var h := front + root + back;
    assert h[4..36] == prev;
    assert h[68..] == back;
    assert back[0..4] == Le(ntime, 4) && back[4..8] == Le(nbits, 4) && back[8..12] == Le(nonce, 4);
    assert h[68..72] == back[0..4] && h[72..76] == back[4..8] && h[76..80] == back[8..12];
  }

  predicate Words(version: nat, ntime: nat, nbits: nat, nonce: nat) {
    version < U32_LIMIT && ntime < U32_LIMIT && nbits < U32_LIMIT && nonce < U32_LIMIT
  }

  /** What a share's work is, apart from the text it came in. */
  datatype Work = Work(version: nat, prevHash: Hash, leaf: seq<Byte>, branches: seq<Hash>,
                       ntime: nat, nbits: nat, nonce: nat)

  function WorkOf(job: Job, version: nat, en: seq<Byte>, ntime: nat, nonce: nat): Work {
    Work(version, job.prevHash, LeafBytes(job, en), job.branches, ntime, job.nbits, nonce)
  }

  predicate WorkOk(w: Work) { Words(w.version, w.ntime, w.nbits, w.nonce) && |w.leaf| > 64 }

  function WorkHeader(H: seq<Byte> -> Hash, w: Work): seq<Byte> {
    Header(w.version, w.prevHash, Fold(H, H(w.leaf), w.branches), w.ntime, w.nbits, w.nonce)
  }

  lemma HeaderFields(H: seq<Byte> -> Hash, v: Work, w: Work)
    requires WorkOk(v) && WorkOk(w) && WorkHeader(H, v) == WorkHeader(H, w)
    ensures v.version == w.version && v.prevHash == w.prevHash && v.ntime == w.ntime && v.nbits == w.nbits
    ensures v.nonce == w.nonce && Fold(H, H(v.leaf), v.branches) == Fold(H, H(w.leaf), w.branches)
  {
    HeaderSlices(v.version, v.prevHash, Fold(H, H(v.leaf), v.branches), v.ntime, v.nbits, v.nonce);
    HeaderSlices(w.version, w.prevHash, Fold(H, H(w.leaf), w.branches), w.ntime, w.nbits, w.nonce);
    LeInjective(v.version, w.version);
    LeInjective(v.ntime, w.ntime);
    LeInjective(v.nbits, w.nbits);
    LeInjective(v.nonce, w.nonce);
  }

  /** Everything hashed on the way from the coinbase of a piece of work to its root. */
  function WorkTexts(H: seq<Byte> -> Hash, w: Work): seq<seq<Byte>> {
    PathTexts(H, w.leaf, w.branches)
  }

  /** Two pieces of work have one header exactly when they are the same, provided the strings
      hashed for their roots do not collide. */
  lemma HeaderDeterminesWork(H: seq<Byte> -> Hash, v: Work, w: Work)
    requires WorkOk(v) && WorkOk(w) && NoCollisionIn(H, WorkTexts(H, v) + WorkTexts(H, w))
    ensures WorkHeader(H, v) == WorkHeader(H, w) <==> v == w
  {
    if WorkHeader(H, v) == WorkHeader(H, w) {
      HeaderFields(H, v, w);
      FoldInjective(H, v.leaf, v.branches, w.leaf, w.branches);
    }
  }

  /** Jobs whose halves leave the coinbase longer than 64 bytes; every built job is one. */
  predicate Minable(job: Job) { job.nbits < U32_LIMIT && |job.coinbase1| + |job.coinbase2| > 52 }

  // ----- Block assembly

  /** The raw transactions, or None when one of them is not hexadecimal. */
  function Decoded(data: seq<string>): Option<seq<Byte>> {
    if data == [] then Some([])
    else
      var first, rest := Hex.Decode(data[0]), Decoded(data[1..]);
      if first.None? || rest.None? then None else Some(first.value + rest.value)
  }

  /** Assembly fails exactly on a raw transaction that is not hexadecimal. */
  lemma {:induction false} DecodedFails(data: seq<string>)
    ensures Decoded(data).None? <==> exists i :: 0 <= i < |data| && Hex.Decode(data[i]).None?
  {
    if data != [] {
      DecodedFails(data[1..]);
      assert forall i :: 0 < i < |data| ==> data[i] == data[1..][i - 1];
    }
  }

  /** The coinbase as it enters the block: BIP 144 form with the zero witness reserved value. */
  function CoinbaseBytes(raw: seq<Byte>, hasWitness: bool): seq<Byte>
    requires hasWitness ==> |raw| >= 8
  {
    if hasWitness
    then raw[..4] + [0x00] + [0x01] + raw[4..|raw| - 4] + [0x01] + [0x20] + Zeros(32) + raw[|raw| - 4..]
    else raw
  }

  /** The serialized block, or None when a raw transaction is not hexadecimal. */
  function BlockBytes(header: seq<Byte>, raw: seq<Byte>, hasWitness: bool, data: seq<string>): Option<seq<Byte>>
    requires hasWitness ==> |raw| >= 8
  {
    match Decoded(data)
    case None => None
    case Some(body) => Some(header + Varint(1 + |data|) + CoinbaseBytes(raw, hasWitness) + body)
  }

  /** `assemble_block`: the hex form of the block. */
  method AssembleBlock(header: seq<Byte>, coinbase1: seq<Byte>, en: seq<Byte>, coinbase2: seq<Byte>,
                       hasWitness: bool, data: seq<string>) returns (r: Option<string>)
    requires hasWitness ==> |coinbase1 + en + coinbase2| >= 8
    ensures r.None? <==> exists i :: 0 <= i < |data| && Hex.Decode(data[i]).None?
    ensures r.Some? ==> Hex.Decode(r.value) == BlockBytes(header, coinbase1 + en + coinbase2, hasWitness, data)
  {
    DecodedFails(data);
    var block := header;
    block := block + Varint(1 + |data|);
    var raw := coinbase1 + en + coinbase2;
    block := block + CoinbaseBytes(raw, hasWitness);
    var bytes := AppendAll(block, data);
    if bytes.None? { return None; }
    Hex.DecodeEncode(bytes.value);
    r := Some(Hex.Encode(bytes.value));
  }

  method AppendAll(start: seq<Byte>, data: seq<string>) returns (r: Option<seq<Byte>>)
    ensures r.None? <==> Decoded(data).None?
    ensures r.Some? ==> r.value == start + Decoded(data).value
  {
    var block := start;
    for k := 0 to |data|
      invariant Decoded(data).Some? <==> Decoded(data[k..]).Some?
      invariant Decoded(data).Some? ==> block + Decoded(data[k..]).value == start + Decoded(data).value
    {
      assert data[k..][1..] == data[k + 1..];
      var bytes := Hex.Decode(data[k]);
      if bytes.None? { return None; }
      ghost var before := block;
      block := block + bytes.value;
      if Decoded(data).Some? {
        ghost var after := Decoded(data[k + 1..]).value;
        assert before + (bytes.value + after) == block + after;
      }
    }
    assert data[|data|..] == [] && block + [] == block;
    r := Some(block);
  }

  // ----- An honest template: raw bytes and ids describe the same transactions

  predicate HonestTx(H: seq<Byte> -> Hash, t: TemplateTx, meaning: Tx) {
    && TxOk(meaning)
    && Hex.Decode(t.data) == Some(WriteTx(meaning))
    && HashOfText(t.txid) == Some(TxId(H, meaning))
  }

  predicate Honest(H: seq<Byte> -> Hash, txs: seq<TemplateTx>, meaning: seq<Tx>) {
    |txs| == |meaning| < U64_LIMIT - 1 && forall i :: 0 <= i < |txs| ==> HonestTx(H, txs[i], meaning[i])
  }

  function TxIds(H: seq<Byte> -> Hash, txs: seq<Tx>): (ids: seq<Hash>)
    ensures |ids| == |txs|
  {
    if txs == [] then [] else [TxId(H, txs[0])] + TxIds(H, txs[1..])
  }

  lemma HonestTail(H: seq<Byte> -> Hash, txs: seq<TemplateTx>, meaning: seq<Tx>)
    requires Honest(H, txs, meaning) && txs != []
    ensures HonestTx(H, txs[0], meaning[0]) && Honest(H, txs[1..], meaning[1..])
  {
    forall i | 0 <= i < |txs[1..]| ensures HonestTx(H, txs[1..][i], meaning[1..][i]) {
      assert HonestTx(H, txs[i + 1], meaning[i + 1]);
    }
  }

  lemma TextsOfTail(txs: seq<TemplateTx>)
    requires txs != []
    ensures Txids(txs)[1..] == Txids(txs[1..]) && Datas(txs)[1..] == Datas(txs[1..])
  {
  }

  lemma {:induction false} HonestIds(H: seq<Byte> -> Hash, txs: seq<TemplateTx>, meaning: seq<Tx>)
    requires Honest(H, txs, meaning)
    ensures ValidHashes(Txids(txs)) == TxIds(H, meaning)
  {
    if txs != [] {
      HonestTail(H, txs, meaning);
      TextsOfTail(txs);
      HonestIds(H, txs[1..], meaning[1..]);
    }
  }

  lemma {:induction false} HonestData(H: seq<Byte> -> Hash, txs: seq<TemplateTx>, meaning: seq<Tx>)
    requires Honest(H, txs, meaning)
    ensures Decoded(Datas(txs)) == Some(WriteMany(WriteTx, meaning))
  {
    if txs != [] {
      HonestTail(H, txs, meaning);
      TextsOfTail(txs);
      HonestData(H, txs[1..], meaning[1..]);
    }
  }

  // ----- What the assembled block says

  const RESERVED: seq<seq<seq<Byte>>> := [[Zeros(32)]]

  function BlockCoinbase(p: Payment, poolScript: seq<Byte>, en: seq<Byte>, hasWitness: bool): Tx {
    CoinbaseTx(p, poolScript, en, if hasWitness then RESERVED else [])
  }

  /** Taking marker, flag and witness away from the block's coinbase leaves the hashed bytes. */
  lemma CoinbaseInBlock(p: Payment, poolScript: seq<Byte>, en: seq<Byte>, hasWitness: bool)
    requires PaymentOk(p) && ShortScripts(p, poolScript) && |en| == 12
    requires HasWitness(p) ==> Commitment(p).Some?
    ensures var raw := Half1(p.height) + en + Half2(p, poolScript);
            var tx := BlockCoinbase(p, poolScript, en, hasWitness);
            && |raw| > 64 && Stripped(tx) == raw && TxOk(tx) && CoinbaseBytes(raw, hasWitness) == WriteTx(tx)
  {
    var raw, tx := Half1(p.height) + en + Half2(p, poolScript), BlockCoinbase(p, poolScript, en, hasWitness);
    assert StackOk(RESERVED[0]);
    HalvesAreStripped(p, poolScript, en, tx.witnesses);
    CoinbaseOk(p, poolScript, en, tx.witnesses);
    HalvesLong(p, poolScript);
    if hasWitness { WitnessForm(tx); }
  }

  lemma HalvesLong(p: Payment, poolScript: seq<Byte>)
    ensures |Half1(p.height)| + |Half2(p, poolScript)| > 52
  {
    var out := TxOut(p.value, PayoutScript(poolScript));
    assert |ScriptLen(|out.script|)| >= 1;
    assert |WriteShort(out)| >= 9;
  }

  lemma WitnessForm(tx: Tx)
    requires tx.witnesses == RESERVED
    ensures |Stripped(tx)| >= 8 && CoinbaseBytes(Stripped(tx), true) == WriteTx(tx)
  {
    var (v, e, l) := (Le(tx.version, 4), WriteEnds(tx), Le(tx.lockTime, 4));
    var raw := Stripped(tx);
    assert raw == v + e + l;
    assert raw[..4] == v && raw[4..|raw| - 4] == e && raw[|raw| - 4..] == l;
    ReservedStack();
    WitnessJoin(v, e, l, Zeros(32));
  }

  lemma ReservedStack()
    ensures WriteMany(WriteStack, RESERVED) == [0x01] + [0x20] + Zeros(32)
  {
    var item, z := RESERVED[0], Zeros(32);
    assert item == [z] && item[1..] == [] && RESERVED[1..] == [];
    assert WriteScript(z) == [0x20] + z;
    assert WriteMany(WriteScript, item) == WriteScript(z) + [];
    assert WriteStack(item) == [0x01] + ([0x20] + z);
    assert WriteMany(WriteStack, RESERVED) == WriteStack(item) + [];
  }

  lemma WitnessJoin(v: seq<Byte>, e: seq<Byte>, l: seq<Byte>, z: seq<Byte>)
    ensures v + [0x00] + [0x01] + e + [0x01] + [0x20] + z + l == v + [0x00, 0x01] + e + ([0x01] + [0x20] + z) + l
  {
  }

  /** What a coinbase needs to be written in full: widths that fit, a commitment that decodes. */
  predicate Payable(p: Payment, poolScript: seq<Byte>) {
    PaymentOk(p) && ShortScripts(p, poolScript) && (HasWitness(p) ==> Commitment(p).Some?)
  }

  /** The bytes submitted for a solved job. */
  function SubmittedBytes(header: seq<Byte>, job: Job, en: seq<Byte>): Option<seq<Byte>>
    requires job.hasWitness ==> |LeafBytes(job, en)| >= 8
  {
    BlockBytes(header, LeafBytes(job, en), job.hasWitness, job.data)
  }

  /** What a solved job submits is this block, written so that it reads back. */
  predicate Submits(job: Job, en: seq<Byte>, block: Block) {
    && |LeafBytes(job, en)| > 64 && SubmittedBytes(block.header, job, en) == Some(WriteBlock(block))
    && ReadBlock(WriteBlock(block)) == Some((block, []))
  }

  /** The Merkle root of a block that starts with coinbase `tx`. */
  lemma BlockRoot(H: seq<Byte> -> Hash, tx: Tx, meaning: seq<Tx>)
    ensures Root(H, TxIds(H, [tx] + meaning)) == Fold(H, H(Stripped(tx)), Branches(H, TxIds(H, meaning)))
  {
    assert ([tx] + meaning)[1..] == meaning;
    FoldIsRoot(H, H(Stripped(tx)), TxIds(H, meaning));
  }

  /** The submitted bytes are the serialized block of the coinbase and the carried transactions. */
  lemma SubmittedIsBlock(H: seq<Byte> -> Hash, header: seq<Byte>, job: Job, p: Payment, poolScript: seq<Byte>,
                         en: seq<Byte>, txs: seq<TemplateTx>, meaning: seq<Tx>)
    requires |header| == 80 && |en| == 12 && Payable(p, poolScript) && Honest(H, txs, meaning)
    requires job.coinbase1 == Half1(p.height) && job.coinbase2 == Half2(p, poolScript) && job.data == Datas(txs)
    ensures var tx := BlockCoinbase(p, poolScript, en, job.hasWitness);
            var block := Block(header, [tx] + meaning);
            && |LeafBytes(job, en)| > 64 && Stripped(tx) == LeafBytes(job, en)
            && SubmittedBytes(header, job, en) == Some(WriteBlock(block)) && BlockOk(block)
  {
    var tx := BlockCoinbase(p, poolScript, en, job.hasWitness);
    CoinbaseInBlock(p, poolScript, en, job.hasWitness);
    assert Decoded(job.data) == Some(WriteMany(WriteTx, meaning)) by { HonestData(H, txs, meaning); }
    JoinBlock(header, tx, meaning);
    CarriedOk(H, header, tx, txs, meaning);
  }

  lemma CarriedOk(H: seq<Byte> -> Hash, header: seq<Byte>, tx: Tx, txs: seq<TemplateTx>, meaning: seq<Tx>)
    requires |header| == 80 && TxOk(tx) && Honest(H, txs, meaning)
    ensures BlockOk(Block(header, [tx] + meaning))
  {
    var all := [tx] + meaning;
    forall i | 0 <= i < |all| ensures TxOk(all[i]) {
      if i > 0 { assert HonestTx(H, txs[i - 1], meaning[i - 1]); }
    }
  }

  lemma JoinBlock(header: seq<Byte>, tx: Tx, meaning: seq<Tx>)
    ensures WriteBlock(Block(header, [tx] + meaning))
         == header + Varint(1 + |meaning|) + WriteTx(tx) + WriteMany(WriteTx, meaning)
  {
    assert ([tx] + meaning)[1..] == meaning;
    Assoc(header + Varint(1 + |meaning|), WriteTx(tx), WriteMany(WriteTx, meaning));
  }

  /** Whether the header commits to the transactions the block carries. */
  predicate Consistent(H: seq<Byte> -> Hash, b: Block) {
    b.txs != [] && |b.header| == 80 && b.header[36..68] == Root(H, TxIds(H, b.txs))
  }

  /** Every block of a job made from an honest template reads back as that template's
      transactions behind the coinbase, and its header commits to them, whatever the
      extranonce, version, time and nonce. Marker, flag and witness aside, its coinbase is
      the byte string whose hash entered the root. */
  lemma JobBlockIsConsistent(H: seq<Byte> -> Hash, id: string, t: Template, poolScript: seq<Byte>,
                             meaning: seq<Tx>, en: seq<Byte>, version: nat, ntime: nat, nonce: nat)
      returns (job: Job, block: Block)
    requires Payable(t.payment, poolScript) && |en| == 12 && Honest(H, t.txs, meaning)
    requires JobOf(H, id, t, poolScript).Some?
    ensures job == JobOf(H, id, t, poolScript).value
    ensures block.header == JobHeader(H, job, version, en, ntime, nonce)
    ensures |block.txs| == 1 + |meaning| && block.txs[1..] == meaning && Stripped(block.txs[0]) == LeafBytes(job, en)
    ensures block.txs[0] == BlockCoinbase(t.payment, poolScript, en, job.hasWitness)
    ensures Pays(block.txs[0], t.payment, poolScript, en)
    ensures |LeafBytes(job, en)| > 64 && SubmittedBytes(block.header, job, en) == Some(WriteBlock(block))
    ensures ReadBlock(WriteBlock(block)) == Some((block, []))
    ensures Consistent(H, block)
  {
    job := JobOf(H, id, t, poolScript).value;
    HonestIds(H, t.txs, meaning);
    block := MixedBlock(H, job, t.payment, t.txs, meaning, poolScript, en, version, ntime, nonce);
  }

  /** Everything hashed for the root of a job's header and for the root of `meaning` behind the
      same coinbase. */
  function BlockTexts(H: seq<Byte> -> Hash, job: Job, en: seq<Byte>, meaning: seq<Tx>): seq<seq<Byte>> {
    PathTexts(H, LeafBytes(job, en), job.branches)
    + PathTexts(H, LeafBytes(job, en), Branches(H, TxIds(H, meaning)))
  }

  /** A job may mix templates: halves paying `p`, branches of its own, raw transactions `carried`.
      Its block reads back as the carried transactions behind the coinbase. It is consistent
      when the job's branches are those of the carried transactions, and only then, provided the
      strings hashed for the two roots do not collide. */
  lemma MixedBlock(H: seq<Byte> -> Hash, job: Job, p: Payment, carried: seq<TemplateTx>, meaning: seq<Tx>,
                   poolScript: seq<Byte>, en: seq<Byte>, version: nat, ntime: nat, nonce: nat)
      returns (block: Block)
    requires Payable(p, poolScript) && |en| == 12 && Honest(H, carried, meaning)
    requires job.coinbase1 == Half1(p.height) && job.coinbase2 == Half2(p, poolScript) && job.data == Datas(carried)
    ensures block.header == JobHeader(H, job, version, en, ntime, nonce)
    ensures |block.txs| == 1 + |meaning| && block.txs[1..] == meaning && Stripped(block.txs[0]) == LeafBytes(job, en)
    ensures block.txs[0] == BlockCoinbase(p, poolScript, en, job.hasWitness)
    ensures Pays(block.txs[0], p, poolScript, en)
    ensures |LeafBytes(job, en)| > 64 && SubmittedBytes(block.header, job, en) == Some(WriteBlock(block))
    ensures ReadBlock(WriteBlock(block)) == Some((block, []))
    ensures job.branches == Branches(H, TxIds(H, meaning)) ==> Consistent(H, block)
    ensures NoCollisionIn(H, BlockTexts(H, job, en, meaning)) ==>
              (Consistent(H, block) <==> job.branches == Branches(H, TxIds(H, meaning)))
  {
    var header := JobHeader(H, job, version, en, ntime, nonce);
    var tx := BlockCoinbase(p, poolScript, en, job.hasWitness);
    block := Block(header, [tx] + meaning);
    SubmittedIsBlock(H, header, job, p, poolScript, en, carried, meaning);
    CoinbasePays(p, poolScript, en, tx.witnesses);
    BlockRoot(H, tx, meaning);
    BlockRoundTrip(block);
    var raw := LeafBytes(job, en);
    if NoCollisionIn(H, BlockTexts(H, job, en, meaning)) && Consistent(H, block) {
      FoldInjective(H, raw, job.branches, raw, Branches(H, TxIds(H, meaning)));
    }
  }

  /** A refreshed job still carries the old transactions under a root for the new ones. Its
      block is consistent when the new branches are those of the carried transactions, and only
      then, provided the strings hashed for the two roots do not collide. */
  lemma RefreshedBlock(H: seq<Byte> -> Hash, job: Job, carried: seq<TemplateTx>, meaning: seq<Tx>, id: string,
                       t: Template, poolScript: seq<Byte>, en: seq<Byte>, version: nat, ntime: nat, nonce: nat)
      returns (block: Block)
    requires Payable(t.payment, poolScript) && |en| == 12
    requires Honest(H, carried, meaning) && job.data == Datas(carried)
    ensures var renewed := Refreshed(H, job, id, t, poolScript);
            && block.header == JobHeader(H, renewed, version, en, ntime, nonce)
            && |block.txs| == 1 + |meaning| && block.txs[1..] == meaning
            && Stripped(block.txs[0]) == LeafBytes(renewed, en)
            && |LeafBytes(renewed, en)| > 64 && SubmittedBytes(block.header, renewed, en) == Some(WriteBlock(block))
            && (renewed.branches == Branches(H, TxIds(H, meaning)) ==> Consistent(H, block))
            && (NoCollisionIn(H, BlockTexts(H, renewed, en, meaning)) ==>
                  (Consistent(H, block) <==> renewed.branches == Branches(H, TxIds(H, meaning))))
  {
    block := MixedBlock(H, Refreshed(H, job, id, t, poolScript), t.payment, carried, meaning, poolScript,
                        en, version, ntime, nonce);
  }

  /** The first refresh after a new block: the guard has seen new branches, the raw transactions
      are still the old template's, so no block of the refreshed job is consistent unless two of
      the strings hashed for the two roots collide. */
  lemma FirstRefreshBreaksBlock(H: seq<Byte> -> Hash, id0: string, t0: Template, meaning: seq<Tx>, id: string,
                                t: Template, poolScript: seq<Byte>, en: seq<Byte>, version: nat, ntime: nat, nonce: nat)
      returns (block: Block)
    requires JobOf(H, id0, t0, poolScript).Some? && Honest(H, t0.txs, meaning)
    requires Payable(t.payment, poolScript) && |en| == 12
    requires Refreshed(H, JobOf(H, id0, t0, poolScript).value, id, t, poolScript).branches
          != JobOf(H, id0, t0, poolScript).value.branches
    ensures var renewed := Refreshed(H, JobOf(H, id0, t0, poolScript).value, id, t, poolScript);
            && block.header == JobHeader(H, renewed, version, en, ntime, nonce)
            && block.txs != [] && block.txs[1..] == meaning
            && |LeafBytes(renewed, en)| > 64 && SubmittedBytes(block.header, renewed, en) == Some(WriteBlock(block))
            && (NoCollisionIn(H, BlockTexts(H, renewed, en, meaning)) ==> !Consistent(H, block))
  {
    HonestIds(H, t0.txs, meaning);
    block := RefreshedBlock(H, JobOf(H, id0, t0, poolScript).value, t0.txs, meaning, id, t, poolScript,
                            en, version, ntime, nonce);
  }

  /** A hash that tells nodes from transactions and nothing else. */
  function LengthHash(text: seq<Byte>): Hash {
    if |text| == 64 then seq(32, _ => 1) else Zeros(32)
  }

  lemma OneBranchMoves(raw: seq<Byte>, h: Hash)
    requires |raw| > 64
    ensures Fold(LengthHash, LengthHash(raw), Branches(LengthHash, [h]))
         != Fold(LengthHash, LengthHash(raw), Branches(LengthHash, []))
  {
    var leaf := LengthHash(raw);
    assert [h][1..] == [] && Branches(LengthHash, [h]) == [h];
    assert Fold(LengthHash, leaf, [h]) == LengthHash(Pair(leaf, h));
    assert LengthHash(Pair(leaf, h))[0] == 1 && leaf[0] == 0;
  }

  lemma RootsApart(H: seq<Byte> -> Hash, block: Block, leaf: seq<Byte>, branches: seq<Hash>, meaning: seq<Tx>)
    requires |block.header| == 80 && block.header[36..68] == Fold(H, H(leaf), branches)
    requires block.txs != [] && block.txs[1..] == meaning && Stripped(block.txs[0]) == leaf
    requires Fold(H, H(leaf), branches) != Fold(H, H(leaf), Branches(H, TxIds(H, meaning)))
    ensures !Consistent(H, block)
  {
    assert block.txs == [block.txs[0]] + meaning;
    BlockRoot(H, block.txs[0], meaning);
  }

  /** A refresh that does break: a job without transactions, refreshed to a template with one. */
  lemma RefreshedBlockFails(job: Job, id: string, t: Template, h: Hash, poolScript: seq<Byte>, en: seq<Byte>,
                            version: nat, ntime: nat, nonce: nat) returns (block: Block)
    requires Payable(t.payment, poolScript) && |en| == 12 && job.data == []
    requires ValidHashes(Txids(t.txs)) == [h]
    ensures var renewed := Refreshed(LengthHash, job, id, t, poolScript);
            && block.header == JobHeader(LengthHash, renewed, version, en, ntime, nonce)
            && |LeafBytes(renewed, en)| > 64 && SubmittedBytes(block.header, renewed, en) == Some(WriteBlock(block))
    ensures !Consistent(LengthHash, block)
  {
    var renewed := Refreshed(LengthHash, job, id, t, poolScript);
    block := RefreshedBlock(LengthHash, job, [], [], id, t, poolScript, en, version, ntime, nonce);
    OneBranchMoves(LeafBytes(renewed, en), h);
    RootsApart(LengthHash, block, LeafBytes(renewed, en), Branches(LengthHash, [h]), []);
  }
}
