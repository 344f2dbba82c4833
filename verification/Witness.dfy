/** The witness commitment of BIP 141 ("Commitment structure") in the blocks the pool submits. */
module Witness {
  import opened Bytes
  import opened Wire
  import opened Merkle
  import opened Coinbase
  import opened Jobs

  /** What a commitment script begins with: a 36-byte data push and the header aa21a9ed. */
  const TAG: seq<Byte> := [0x6a, 0x24, 0xaa, 0x21, 0xa9, 0xed]

  /** In the witness tree the coinbase stands as 32 zero bytes. */
  const COINBASE_LEAF: Hash := Zeros(32)

  function WtxIds(H: seq<Byte> -> Hash, txs: seq<Tx>): (ids: seq<Hash>)
    ensures |ids| == |txs|
  {
    if txs == [] then [] else [H(WriteTx(txs[0]))] + WtxIds(H, txs[1..])
  }

  /** The witness root of a block whose transactions after the coinbase are `txs`. */
  function WitnessRoot(H: seq<Byte> -> Hash, txs: seq<Tx>): Hash {
    Root(H, [COINBASE_LEAF] + WtxIds(H, txs))
  }

  function CommitmentHash(H: seq<Byte> -> Hash, root: Hash, reserved: seq<Byte>): Hash {
    H(root + reserved)
  }

  predicate IsCommitment(script: seq<Byte>) { |script| >= 38 && script[..6] == TAG }

  /** The rule reads the last output that looks like a commitment. */
  function LastCommitment(outputs: seq<TxOut>): (c: Option<seq<Byte>>)
    ensures c.Some? ==> |c.value| == 32
  {
    if outputs == [] then None
    else
      var last := outputs[|outputs| - 1].script;
      if IsCommitment(last) then Some(last[6..38]) else LastCommitment(outputs[..|outputs| - 1])
  }

  /** The block's coinbase carries a 32-byte reserved value, and its commitment is the hash of the
      witness root of the block followed by that value. */
  predicate Committed(H: seq<Byte> -> Hash, b: Block) {
    && b.txs != [] && |b.txs[0].witnesses| == 1 && |b.txs[0].witnesses[0]| == 1
    && |b.txs[0].witnesses[0][0]| == 32
    && LastCommitment(b.txs[0].outputs) == Some(CommitmentHash(H, WitnessRoot(H, b.txs[1..]), b.txs[0].witnesses[0][0]))
  }

  /** What the node promises of the commitment it sends with a template. */
  predicate CommitsTo(H: seq<Byte> -> Hash, p: Payment, txs: seq<Tx>) {
    HasWitness(p) && Commitment(p) == Some(TAG + CommitmentHash(H, WitnessRoot(H, txs), Zeros(32)))
  }

  /** The commitment is the coinbase's last output, whatever the payout script looks like. */
  lemma CommitmentIsLast(H: seq<Byte> -> Hash, p: Payment, poolScript: seq<Byte>, txs: seq<Tx>)
    requires CommitsTo(H, p, txs)
    ensures LastCommitment(Outputs(p, poolScript)) == Some(CommitmentHash(H, WitnessRoot(H, txs), Zeros(32)))
  {
    var c := CommitmentHash(H, WitnessRoot(H, txs), Zeros(32));
    var outs, script := Outputs(p, poolScript), TAG + c;
    assert outs[|outs| - 1].script == script;
    assert script[..6] == TAG && script[6..38] == c;
  }

  /** A block with a coinbase paying `p`, whose commitment is for `promised`, around `carried`. */
  lemma CommittedMeans(H: seq<Byte> -> Hash, b: Block, p: Payment, poolScript: seq<Byte>, en: seq<Byte>,
                       hasWitness: bool, promised: seq<Tx>, carried: seq<Tx>)
    requires CommitsTo(H, p, promised)
    requires b.txs != [] && b.txs[0] == BlockCoinbase(p, poolScript, en, hasWitness) && b.txs[1..] == carried
    ensures Committed(H, b) <==>
              hasWitness && CommitmentHash(H, WitnessRoot(H, promised), Zeros(32))
                         == CommitmentHash(H, WitnessRoot(H, carried), Zeros(32))
  {
    CommitmentIsLast(H, p, poolScript, promised);
  }

  /** The 64-byte strings hashed for the witness root of `txs`. */
  function RootTexts(H: seq<Byte> -> Hash, txs: seq<Tx>): seq<seq<Byte>> {
    FoldTexts(H, COINBASE_LEAF, Branches(H, WtxIds(H, txs)))
  }

  /** The 64 bytes hashed for the commitment to `txs`. */
  function CommitmentText(H: seq<Byte> -> Hash, txs: seq<Tx>): seq<Byte> {
    WitnessRoot(H, txs) + Zeros(32)
  }

  /** The strings hashed for two commitments do not collide, and none on the way to their roots
      hashes to the zero bytes that stand for the coinbase. */
  predicate Separates(H: seq<Byte> -> Hash, a: seq<Tx>, b: seq<Tx>) {
    && NoCollisionIn(H, RootTexts(H, a) + RootTexts(H, b))
    && NoneHashesTo(H, RootTexts(H, a) + RootTexts(H, b), COINBASE_LEAF)
    && NoCollisionIn(H, [CommitmentText(H, a)] + [CommitmentText(H, b)])
  }

  /** Then one commitment means one list of witness branches. */
  lemma CommitmentInjective(H: seq<Byte> -> Hash, a: seq<Tx>, b: seq<Tx>)
    requires Separates(H, a, b)
    requires CommitmentHash(H, WitnessRoot(H, a), Zeros(32)) == CommitmentHash(H, WitnessRoot(H, b), Zeros(32))
    ensures Branches(H, WtxIds(H, a)) == Branches(H, WtxIds(H, b))
  {
    var x, y := CommitmentText(H, a), CommitmentText(H, b);
    assert x in [x] + [y] && y in [x] + [y] && H(x) == H(y);
    assert WitnessRoot(H, a) == x[..32] && WitnessRoot(H, b) == y[..32];
    FoldIsRoot(H, COINBASE_LEAF, WtxIds(H, a));
    FoldIsRoot(H, COINBASE_LEAF, WtxIds(H, b));
    FoldSeparates(H, COINBASE_LEAF, Branches(H, WtxIds(H, a)), COINBASE_LEAF, Branches(H, WtxIds(H, b)));
  }

  /** Every block of a job made from an honest template whose commitment is right satisfies BIP 141. */
  lemma JobBlockIsCommitted(H: seq<Byte> -> Hash, id: string, t: Template, poolScript: seq<Byte>,
                            meaning: seq<Tx>, en: seq<Byte>, version: nat, ntime: nat, nonce: nat)
      returns (job: Job, block: Block)
    requires Payable(t.payment, poolScript) && |en| == 12 && Honest(H, t.txs, meaning)
    requires JobOf(H, id, t, poolScript).Some? && CommitsTo(H, t.payment, meaning)
    ensures job == JobOf(H, id, t, poolScript).value
    ensures block.header == JobHeader(H, job, version, en, ntime, nonce)
    ensures |LeafBytes(job, en)| > 64 && SubmittedBytes(block.header, job, en) == Some(WriteBlock(block))
    ensures Consistent(H, block) && Committed(H, block)
  {
    job, block := JobBlockIsConsistent(H, id, t, poolScript, meaning, en, version, ntime, nonce);
    CommittedMeans(H, block, t.payment, poolScript, en, job.hasWitness, meaning, meaning);
  }

  /** A job that mixes templates: halves and commitment of the one with transactions `promised`, raw
      transactions `carried` of the other. Its block satisfies BIP 141 when the witness flag is set
      and both have the same witness branches, and only then, provided the strings hashed for the
      two commitments are separated. */
  lemma MixedBlockCommitment(H: seq<Byte> -> Hash, block: Block, p: Payment, poolScript: seq<Byte>, en: seq<Byte>,
                             hasWitness: bool, promised: seq<Tx>, carried: seq<Tx>)
    requires CommitsTo(H, p, promised)
    requires block.txs != [] && block.txs[0] == BlockCoinbase(p, poolScript, en, hasWitness)
    requires block.txs[1..] == carried
    ensures var same := hasWitness && Branches(H, WtxIds(H, promised)) == Branches(H, WtxIds(H, carried));
            && (same ==> Committed(H, block))
            && (Separates(H, promised, carried) ==> (Committed(H, block) <==> same))
  {
    CommittedMeans(H, block, p, poolScript, en, hasWitness, promised, carried);
    if Branches(H, WtxIds(H, promised)) == Branches(H, WtxIds(H, carried)) {
      FoldIsRoot(H, COINBASE_LEAF, WtxIds(H, promised));
      FoldIsRoot(H, COINBASE_LEAF, WtxIds(H, carried));
    }
    if Separates(H, promised, carried) && Committed(H, block) { CommitmentInjective(H, promised, carried); }
  }
}
