/** The two halves of a coinbase transaction around the miner's extranonce, with the
    height pushed as BIP 34 ("Specification") asks. */
module Coinbase {
  import opened Bytes
  import opened Wire
  import Hex

  /** What the job builder takes from `getblocktemplate` for the coinbase. */
  datatype Payment = Payment(height: nat, value: nat, commitmentHex: Option<string>)

  predicate PaymentOk(p: Payment) {
    p.height < U64_LIMIT && p.value < U64_LIMIT
  }

  // ----- Heights as script numbers

  /** The number a script pushes: little-endian, the top bit of the last byte is the sign. */
  function ScriptNum(bs: seq<Byte>): int {
    if bs == [] then 0
    else
      var last := bs[|bs| - 1];
      if last < 128 then LeValue(bs) else -(LeValue(bs[..|bs| - 1] + [last - 128]) as int)
  }

  function PushLen(height: nat): (n: nat)
    ensures n >= 1
  {
    if height < 128 then 1 else 1 + PushLen(height / 256)
  }

  function HeightBytes(height: nat): seq<Byte> {
    Le(height, PushLen(height))
  }

  /** `v` with its low `n` bytes dropped. */
  function Shift(v: nat, n: nat): nat {
    if n == 0 then v else Shift(v / 256, n - 1)
  }

  lemma {:induction false} ShiftStep(v: nat, n: nat)
    ensures Shift(v, n + 1) == Shift(v, n) / 256
    ensures Le(v, n + 1) == Le(v, n) + [Shift(v, n) % 256]
  {
    if n > 0 { ShiftStep(v / 256, n - 1); } else { assert Le(v, 1) == [v % 256] + Le(v / 256, 0); }
  }

  lemma {:induction false} ShiftBound(v: nat, n: nat, k: nat)
    ensures Shift(v, n) < k <==> v < k * Pow256(n)
  {
    if n > 0 {
      ShiftBound(v / 256, n - 1, k);
      var m := k * Pow256(n - 1);
      assert k * Pow256(n) == 256 * m;
    }
  }

  lemma {:induction false} PushLenShift(height: nat, k: nat)
    requires k >= 1
    ensures PushLen(height) <= k <==> Shift(height, k - 1) < 128
  {
    if k > 1 {
      PushLenShift(height / 256, k - 1);
      if height < 128 { ShiftBound(height / 256, k - 2, 1); }
    }
  }

  lemma {:induction false} LePrefix(v: nat, n: nat, k: nat)
    requires k <= n
    ensures Le(v, n)[..k] == Le(v, k)
  {
    if k > 0 {
      LePrefix(v / 256, n - 1, k - 1);
      assert Le(v, n)[..k] == [v % 256] + Le(v / 256, n - 1)[..k - 1];
    }
  }

  /** The pushed bytes read back as the height. */
  lemma HeightReadsBack(height: nat)
    ensures ScriptNum(HeightBytes(height)) == height
  {
    var n := PushLen(height);
    PushLenShift(height, n);
    ShiftStep(height, n - 1);
    ShiftBound(height, n, 1);
    LeValueOfLe(height, n);
  }

  /** No shorter bytes read back as a height of at least one. */
  lemma HeightIsShortest(height: nat, bs: seq<Byte>)
    requires height >= 1 && ScriptNum(bs) == height
    ensures |HeightBytes(height)| <= |bs|
  {
    TopBound(bs);
    ShiftBound(height, |bs| - 1, 128);
    PushLenShift(height, |bs|);
  }

  lemma {:induction false} TopBound(bs: seq<Byte>)
    requires bs != [] && bs[|bs| - 1] < 128
    ensures LeValue(bs) < 128 * Pow256(|bs| - 1)
  {
    if |bs| > 1 {
      TopBound(bs[1..]);
      var m := 128 * Pow256(|bs| - 2);
      assert 128 * Pow256(|bs| - 1) == 256 * m;
    } else {
      assert LeValue(bs) == bs[0] + 256 * LeValue([]);
    }
  }

  method EncodeHeight(height: nat) returns (bytes: seq<Byte>)
    requires height < U64_LIMIT
    ensures bytes == HeightBytes(height) && 1 <= |bytes| <= 9
  {
    Pow256Widths();
    ShiftBound(height, 8, 1);
    var raw := Le(height, 8);
    var len := 8;
    while len > 1 && raw[len - 1] == 0
      invariant 1 <= len <= 8
      invariant Shift(height, len) == 0
    {
      LePrefix(height, 8, len);
      ShiftStep(height, len - 1);
      assert raw[len - 1] == raw[..len][len - 1];
      len := len - 1;
    }
    LePrefix(height, 8, len);
    ShiftStep(height, len - 1);
    bytes := raw[..len];
    assert bytes[len - 1] == Shift(height, len - 1) && bytes[len - 1] == raw[len - 1];
    PushLenShift(height, len);
    PushLenShift(height, len + 1);
    if len > 1 {
      ShiftStep(height, len - 2);
      PushLenShift(height, len - 1);
    }
    if bytes[len - 1] >= 128 {
      bytes := bytes + [0];
      ShiftStep(height, len);
    }
  }

  // ----- Script lengths

  /** `encode_script_len`: a length of 2^32 or more is cut to 32 bits. */
  function ScriptLen(len: nat): seq<Byte> {
    if len < 0xfd then [len]
    else if len <= 0xffff then [0xfd] + Le(len, 2)
    else [0xfe] + Le(len, 4)
  }

  /** The short form agrees with the compact size exactly below 2^32. */
  lemma ScriptLenIsVarint(len: nat)
    ensures ScriptLen(len) == Varint(len) <==> len < U32_LIMIT
  {
    if len >= U32_LIMIT { assert ScriptLen(len)[0] == 0xfe && Varint(len)[0] == 0xff; }
  }

  // ----- The two halves

  const NULL_PAYOUT: seq<Byte> := [0x76, 0xa9, 0x14] + Zeros(20) + [0x88, 0xac]

  function PayoutScript(poolScript: seq<Byte>): seq<Byte> {
    if poolScript == [] then NULL_PAYOUT else poolScript
  }

  predicate HasWitness(p: Payment) {
    p.commitmentHex.Some? && p.commitmentHex.value != ""
  }

  function Commitment(p: Payment): Option<seq<Byte>> {
    if HasWitness(p) then Hex.Decode(p.commitmentHex.value) else None
  }

  function Outputs(p: Payment, poolScript: seq<Byte>): seq<TxOut> {
    [TxOut(p.value, PayoutScript(poolScript))]
    + (match Commitment(p) case Some(c) => [TxOut(0, c)] case None => [])
  }

  function InputScript(height: nat, extranonce: seq<Byte>): seq<Byte> {
    [PushLen(height) % 256] + HeightBytes(height) + extranonce
  }

  /** The transaction the two halves must spell, for a given extranonce and witness. */
  function CoinbaseTx(p: Payment, poolScript: seq<Byte>, extranonce: seq<Byte>,
                      witnesses: seq<seq<seq<Byte>>>): Tx {
    Tx(1, [TxIn(Zeros(32), 0xffff_ffff, InputScript(p.height, extranonce), 0xffff_ffff)],
       Outputs(p, poolScript), witnesses, 0)
  }

  function Half1(height: nat): seq<Byte> {
    Le(1, 4) + [1] + Zeros(32) + [0xff, 0xff, 0xff, 0xff]
    + [(13 + PushLen(height)) % 256] + [PushLen(height) % 256] + HeightBytes(height)
  }

  function Half2(p: Payment, poolScript: seq<Byte>): seq<Byte> {
    [0xff, 0xff, 0xff, 0xff] + [if HasWitness(p) then 2 else 1]
    + WriteShort(TxOut(p.value, PayoutScript(poolScript)))
    + (match Commitment(p) case Some(c) => WriteShort(TxOut(0, c)) case None => [])
    + Zeros(4)
  }

  function WriteShort(o: TxOut): seq<Byte> {
    Le(o.value, 8) + ScriptLen(|o.script|) + o.script
  }

  method FirstHalf(height: nat) returns (coinbase1: seq<Byte>)
    requires height < U64_LIMIT
    ensures coinbase1 == Half1(height)
  {
    var heightBytes := EncodeHeight(height);
    var heightLen := |heightBytes|;
    coinbase1 := Le(1, 4);
    coinbase1 := coinbase1 + [1];
    coinbase1 := coinbase1 + Zeros(32);
    coinbase1 := coinbase1 + [0xff, 0xff, 0xff, 0xff];
    var scriptLen := 1 + heightLen + 12;
    coinbase1 := coinbase1 + [scriptLen % 256];
    coinbase1 := coinbase1 + [heightLen % 256];
    coinbase1 := coinbase1 + heightBytes;
  }

  /** Whom a coinbase pays, in plain terms: one input that pushes the height and holds the
      extranonce; the reward to the pool's script, or to the null key hash if there is none; then
      the commitment's own bytes at value zero if the template has one. */
  predicate Pays(tx: Tx, p: Payment, poolScript: seq<Byte>, en: seq<Byte>) {
    && tx.version == 1 && tx.lockTime == 0
    && |tx.inputs| == 1 && tx.inputs[0].prevHash == seq(32, _ => 0)
    && tx.inputs[0].prevIndex == 0xffff_ffff && tx.inputs[0].sequence == 0xffff_ffff
    && HoldsHeight(tx.inputs[0].script, p.height, en)
    && tx.outputs != []
    && tx.outputs[0] == TxOut(p.value, if poolScript == [] then [0x76, 0xa9, 0x14] + Zeros(20) + [0x88, 0xac]
                                       else poolScript)
    && match p.commitmentHex
       case None => |tx.outputs| == 1
       case Some(text) =>
         if text == "" then |tx.outputs| == 1
         else Hex.Decode(text).Some? && tx.outputs[1..] == [TxOut(0, Hex.Decode(text).value)]
  }

  /** A script that pushes the height and then holds the extranonce. */
  predicate HoldsHeight(script: seq<Byte>, height: nat, en: seq<Byte>) {
    && script != [] && 1 + script[0] + |en| == |script|
    && ScriptNum(script[1..1 + script[0]]) == height && script[1 + script[0]..] == en
  }

  /** Around any twelve bytes the halves read as one transaction that pays as it should. */
  ghost predicate Spells(coinbase1: seq<Byte>, coinbase2: seq<Byte>, p: Payment, poolScript: seq<Byte>) {
    forall en: seq<Byte> :: |en| == 12 ==>
      var r := ReadTx(coinbase1 + en + coinbase2);
      r.Some? && r.value.1 == [] && r.value.0.witnesses == [] && Pays(r.value.0, p, poolScript, en)
  }

  /** Fails exactly on a non-empty commitment that is not hexadecimal. */
  method CreateCoinbase(p: Payment, poolScript: seq<Byte>) returns (r: Option<(seq<Byte>, seq<Byte>)>)
    requires PaymentOk(p)
    ensures r.None? <==> p.commitmentHex.Some? && p.commitmentHex.value != "" && Hex.Decode(p.commitmentHex.value).None?
    ensures r.Some? ==> r.value == (Half1(p.height), Half2(p, poolScript))
    ensures r.Some? && ShortScripts(p, poolScript) ==> Spells(r.value.0, r.value.1, p, poolScript)
  {
    if ShortScripts(p, poolScript) && (HasWitness(p) ==> Commitment(p).Some?) { HalvesSpell(p, poolScript); }
    var coinbase1 := FirstHalf(p.height);
    var payout := PayoutScript(poolScript);
    var coinbase2 := [0xff, 0xff, 0xff, 0xff];
    var outputCount := if HasWitness(p) then 2 else 1;
    coinbase2 := coinbase2 + [outputCount];
    coinbase2 := coinbase2 + WriteShort(TxOut(p.value, payout));
    if HasWitness(p) {
      var commitment := Hex.Decode(p.commitmentHex.value);
      if commitment.None? { return None; }
      coinbase2 := coinbase2 + WriteShort(TxOut(0, commitment.value));
    } else {
      assert coinbase2 + [] == coinbase2;
    }
    coinbase2 := coinbase2 + Zeros(4);
    r := Some((coinbase1, coinbase2));
  }

  /** Both scripts are short enough for the four-byte length form. */
  predicate ShortScripts(p: Payment, poolScript: seq<Byte>) {
    |poolScript| < U32_LIMIT && (Commitment(p).Some? ==> |Commitment(p).value| < U32_LIMIT)
  }

  lemma PushLenSmall(height: nat)
    requires height < U64_LIMIT
    ensures PushLen(height) <= 9
  {
    Pow256Widths();
    ShiftBound(height, 8, 1);
    PushLenShift(height, 9);
  }

  /** The first half holds the version, the input count and the input up to the extranonce. */
  lemma Half1IsInput(height: nat, en: seq<Byte>)
    requires height < U64_LIMIT && |en| == 12
    ensures WriteInput(TxIn(Zeros(32), 0xffff_ffff, InputScript(height, en), 0xffff_ffff))
         == Half1Tail(height) + en + [0xff, 0xff, 0xff, 0xff]
  {
    PushLenSmall(height);
    LeAllOnes();
    var n := PushLen(height);
    assert Varint(|InputScript(height, en)|) == [13 + n];
    Splice(Zeros(32), [0xff, 0xff, 0xff, 0xff], [13 + n], [n], HeightBytes(height), en);
  }

  lemma Half1Split(height: nat)
    ensures Half1(height) == Le(1, 4) + [1] + Half1Tail(height)
  {
    var n := PushLen(height);
    Splice(Le(1, 4) + [1], Zeros(32), [0xff, 0xff, 0xff, 0xff], [(13 + n) % 256], [n % 256], HeightBytes(height));
  }

  function Half1Tail(height: nat): seq<Byte> {
    Zeros(32) + [0xff, 0xff, 0xff, 0xff] + [(13 + PushLen(height)) % 256] + [PushLen(height) % 256]
    + HeightBytes(height)
  }

  lemma Splice(a: seq<Byte>, b: seq<Byte>, c: seq<Byte>, d: seq<Byte>, e: seq<Byte>, g: seq<Byte>)
    ensures a + b + (c + (d + e + g)) + b == a + b + c + d + e + g + b
    ensures a + b + c + d + e + g == a + (b + c + d + e + g)
  {
  }

  lemma LeAllOnes()
    ensures Le(0xffff_ffff, 4) == [0xff, 0xff, 0xff, 0xff]
  {
    assert Le(0xffff, 2) == [0xff, 0xff];
    assert Le(0xff_ffff, 3) == [0xff] + Le(0xffff, 2);
  }

  lemma Half2IsOutputs(p: Payment, poolScript: seq<Byte>)
    requires ShortScripts(p, poolScript)
    requires HasWitness(p) ==> Commitment(p).Some?
    ensures var outs := Outputs(p, poolScript);
            Half2(p, poolScript) == [0xff, 0xff, 0xff, 0xff] + Varint(|outs|) + WriteMany(WriteOutput, outs) + Le(0, 4)
  {
    var outs := Outputs(p, poolScript);
    var pay := TxOut(p.value, PayoutScript(poolScript));
    ShortIsOutput(pay);
    assert Le(0, 4) == Zeros(4) by { LeOfLeValue(Zeros(4)); LeValueZeros(4); }
    if HasWitness(p) {
      var com := TxOut(0, Commitment(p).value);
      ShortIsOutput(com);
      WriteTwo(pay, com);
      assert outs == [pay, com];
      Regroup([0xff, 0xff, 0xff, 0xff] + [2], WriteOutput(pay), WriteOutput(com), Zeros(4), []);
    } else {
      WriteOne(pay);
      assert outs == [pay];
      Regroup([0xff, 0xff, 0xff, 0xff] + [1], WriteOutput(pay), [], Zeros(4), []);
    }
  }

  lemma WriteOne(a: TxOut)
    ensures WriteMany(WriteOutput, [a]) == WriteOutput(a)
  {
    assert [a][1..] == [];
    assert WriteMany(WriteOutput, [a]) == WriteOutput(a) + [];
  }

  lemma WriteTwo(a: TxOut, b: TxOut)
    ensures WriteMany(WriteOutput, [a, b]) == WriteOutput(a) + WriteOutput(b)
  {
    assert [a, b][1..] == [b];
    WriteOne(b);
  }

  lemma ShortIsOutput(o: TxOut)
    requires |o.script| < U32_LIMIT
    ensures WriteShort(o) == WriteOutput(o)
  {
    ScriptLenIsVarint(|o.script|);
  }

  /** The bytes hashed for the Merkle leaf are the stripped coinbase transaction. */
  lemma HalvesAreStripped(p: Payment, poolScript: seq<Byte>, en: seq<Byte>, witnesses: seq<seq<seq<Byte>>>)
    requires PaymentOk(p) && ShortScripts(p, poolScript) && |en| == 12
    requires HasWitness(p) ==> Commitment(p).Some?
    ensures Half1(p.height) + en + Half2(p, poolScript) == Stripped(CoinbaseTx(p, poolScript, en, witnesses))
  {
    var tx := CoinbaseTx(p, poolScript, en, witnesses);
    Half1IsInput(p.height, en);
    Half1Split(p.height);
    Half2IsOutputs(p, poolScript);
    assert tx.inputs[1..] == [];
    assert WriteMany(WriteInput, tx.inputs) == WriteInput(tx.inputs[0]) + [];
    Reorder(Le(1, 4), [1], Half1Tail(p.height), en, [0xff, 0xff, 0xff, 0xff],
            Varint(|tx.outputs|), WriteMany(WriteOutput, tx.outputs), Le(0, 4));
    assert Varint(|tx.inputs|) == [1];
  }

  lemma Reorder(v: seq<Byte>, n: seq<Byte>, h: seq<Byte>, en: seq<Byte>, f: seq<Byte>,
                no: seq<Byte>, o: seq<Byte>, l: seq<Byte>)
    ensures (v + n) + h + en + (f + no + o + l) == v + (n + (h + en + f + []) + no + o) + l
  {
  }

  /** `coinbase1 + extranonce + coinbase2` reads as exactly one transaction, and that one pays the
      reward to the pool. */
  lemma HalvesParse(p: Payment, poolScript: seq<Byte>, en: seq<Byte>)
    requires PaymentOk(p) && ShortScripts(p, poolScript) && |en| == 12
    requires HasWitness(p) ==> Commitment(p).Some?
    ensures ReadTx(Half1(p.height) + en + Half2(p, poolScript)) == Some((CoinbaseTx(p, poolScript, en, []), []))
    ensures Pays(CoinbaseTx(p, poolScript, en, []), p, poolScript, en)
  {
    CoinbasePays(p, poolScript, en, []);
    var tx := CoinbaseTx(p, poolScript, en, []);
    HalvesAreStripped(p, poolScript, en, []);
    CoinbaseOk(p, poolScript, en, []);
    TxRoundTrip(tx);
    assert WriteTx(tx) + [] == WriteTx(tx);
  }

  lemma HalvesSpell(p: Payment, poolScript: seq<Byte>)
    requires PaymentOk(p) && ShortScripts(p, poolScript) && (HasWitness(p) ==> Commitment(p).Some?)
    ensures Spells(Half1(p.height), Half2(p, poolScript), p, poolScript)
  {
    forall en: seq<Byte> | |en| == 12
      ensures ReadTx(Half1(p.height) + en + Half2(p, poolScript)) == Some((CoinbaseTx(p, poolScript, en, []), []))
      ensures Pays(CoinbaseTx(p, poolScript, en, []), p, poolScript, en)
    {
      HalvesParse(p, poolScript, en);
    }
  }

  /** With or without a witness, the coinbase pays as it should. */
  lemma CoinbasePays(p: Payment, poolScript: seq<Byte>, en: seq<Byte>, witnesses: seq<seq<seq<Byte>>>)
    requires PaymentOk(p) && |en| == 12 && (HasWitness(p) ==> Commitment(p).Some?)
    ensures Pays(CoinbaseTx(p, poolScript, en, witnesses), p, poolScript, en)
  {
    var tx := CoinbaseTx(p, poolScript, en, witnesses);
    ScriptLayout(p.height, en);
    assert tx.outputs[1..] == match Commitment(p) case Some(c) => [TxOut(0, c)] case None => [];
  }

  /** Where the fixed fields stand, byte by byte. */
  lemma HalvesLayout(p: Payment, poolScript: seq<Byte>)
    requires PaymentOk(p) && (HasWitness(p) ==> Commitment(p).Some?)
    ensures var first, second := Half1(p.height), Half2(p, poolScript);
            && first[..5] == [1, 0, 0, 0, 1] && first[5..37] == Zeros(32)
            && first[37..41] == [255, 255, 255, 255] == second[..4]
            && second[4] == (if p.commitmentHex in {None, Some("")} then 1 else 2)
            && LeValue(second[5..13]) == p.value && second[|second| - 4..] == [0, 0, 0, 0]
  {
    var pay := TxOut(p.value, PayoutScript(poolScript));
    Pow256Widths();
    LeValueOfLe(p.value, 8);
    VersionBytes();
    var head: seq<Byte> := [255, 255, 255, 255] + [if HasWitness(p) then 2 else 1];
    SecondLayout(head, Le(p.value, 8), ScriptLen(|pay.script|), pay.script,
                 match Commitment(p) case Some(c) => WriteShort(TxOut(0, c)) case None => []);
    FirstLayout(Le(1, 4), [(13 + PushLen(p.height)) % 256], [PushLen(p.height) % 256], HeightBytes(p.height));
  }

  lemma VersionBytes()
    ensures Le(1, 4) == [1, 0, 0, 0]
  {
    assert Le(0, 1) == [0];
    assert Le(0, 2) == [0] + Le(0, 1);
    assert Le(0, 3) == [0] + Le(0, 2);
  }

  lemma FirstLayout(version: seq<Byte>, a: seq<Byte>, b: seq<Byte>, c: seq<Byte>)
    requires version == [1, 0, 0, 0]
    ensures var h := version + [1] + Zeros(32) + [255, 255, 255, 255] + a + b + c;
            h[..5] == [1, 0, 0, 0, 1] && h[5..37] == Zeros(32) && h[37..41] == [255, 255, 255, 255]
  {
  }

  lemma SecondLayout(head: seq<Byte>, value: seq<Byte>, len: seq<Byte>, script: seq<Byte>, more: seq<Byte>)
    requires |head| == 5 && |value| == 8
    ensures var h := head + (value + len + script) + more + Zeros(4);
            && h[..4] == head[..4] && h[4] == head[4] && h[5..13] == value
            && |h| >= 17 && h[|h| - 4..] == [0, 0, 0, 0]
  {
    var h := head + (value + len + script) + more + Zeros(4);
    assert h[5..13] == value;
    assert h[|h| - 4..] == Zeros(4);
  }

  lemma CoinbaseOk(p: Payment, poolScript: seq<Byte>, en: seq<Byte>, witnesses: seq<seq<seq<Byte>>>)
    requires PaymentOk(p) && ShortScripts(p, poolScript) && |en| == 12
    requires witnesses == [] || (|witnesses| == 1 && StackOk(witnesses[0]))
    ensures TxOk(CoinbaseTx(p, poolScript, en, witnesses))
  {
    PushLenSmall(p.height);
  }

  /** The script begins with a push of the height; the rest is the twelve extranonce bytes. */
  lemma ScriptLayout(height: nat, en: seq<Byte>)
    requires height < U64_LIMIT && |en| == 12
    ensures var s := InputScript(height, en);
            && s[0] as nat + 1 + 12 == |s|
            && ScriptNum(s[1..1 + s[0]]) == height
            && s[1 + s[0]..] == en
            && Half1(height)[41] == |s|
  {
    PushLenSmall(height);
    HeightReadsBack(height);
    var s, n := InputScript(height, en), PushLen(height);
    assert s[1..1 + n] == HeightBytes(height) && s[1 + n..] == en;
    var pre: seq<Byte> := Le(1, 4) + [1] + Zeros(32) + [0xff, 0xff, 0xff, 0xff];
    ByteAfter(pre, 13 + n, [n], HeightBytes(height));
  }

  lemma ByteAfter(pre: seq<Byte>, b: Byte, c: seq<Byte>, d: seq<Byte>)
    ensures (pre + [b] + c + d)[|pre|] == b
  {
  }
}
