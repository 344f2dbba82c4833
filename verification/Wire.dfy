/** Bitcoin's wire format: compact sizes, transactions with and without the
    BIP 144 witness ("Serialization"), and blocks. Writers and readers are
    defined apart and proved inverse. */
module Wire {
  import opened Bytes

  datatype TxIn = TxIn(prevHash: Hash, prevIndex: nat, script: seq<Byte>, sequence: nat)
  datatype TxOut = TxOut(value: nat, script: seq<Byte>)

  /** `witnesses` is empty for a legacy transaction, otherwise one stack per input. */
  datatype Tx = Tx(version: nat, inputs: seq<TxIn>, outputs: seq<TxOut>,
                   witnesses: seq<seq<seq<Byte>>>, lockTime: nat)

  datatype Block = Block(header: seq<Byte>, txs: seq<Tx>)

  /** What a reader returns: a value and the bytes after it. */
  type Read<T> = Option<(T, seq<Byte>)>

  // ----- Writers

  function Varint(v: nat): (bs: seq<Byte>)
    ensures bs != []
  {
    if v < 0xfd then [v]
    else if v <= 0xffff then [0xfd] + Le(v, 2)
    else if v <= 0xffff_ffff then [0xfe] + Le(v, 4)
    else [0xff] + Le(v, 8)
  }

  function WriteMany<T>(write: T -> seq<Byte>, xs: seq<T>): seq<Byte> {
    if xs == [] then [] else write(xs[0]) + WriteMany(write, xs[1..])
  }

  function WriteScript(script: seq<Byte>): seq<Byte> {
    Varint(|script|) + script
  }

  function WriteInput(x: TxIn): seq<Byte> {
    var prev: seq<Byte> := x.prevHash;
    prev + Le(x.prevIndex, 4) + WriteScript(x.script) + Le(x.sequence, 4)
  }

  function WriteOutput(x: TxOut): seq<Byte> {
    Le(x.value, 8) + WriteScript(x.script)
  }

  function WriteStack(items: seq<seq<Byte>>): seq<Byte> {
    Varint(|items|) + WriteMany(WriteScript, items)
  }

  function WriteEnds(tx: Tx): seq<Byte> {
    Varint(|tx.inputs|) + WriteMany(WriteInput, tx.inputs)
    + Varint(|tx.outputs|) + WriteMany(WriteOutput, tx.outputs)
  }

  /** The form a transaction id hashes: no marker, no flag, no witness. */
  function Stripped(tx: Tx): seq<Byte> {
    Le(tx.version, 4) + WriteEnds(tx) + Le(tx.lockTime, 4)
  }

  function WriteTx(tx: Tx): seq<Byte> {
    if tx.witnesses == [] then Stripped(tx)
    else Le(tx.version, 4) + [0x00, 0x01] + WriteEnds(tx) + WriteMany(WriteStack, tx.witnesses) + Le(tx.lockTime, 4)
  }

  function WriteBlock(b: Block): seq<Byte> {
    b.header + Varint(|b.txs|) + WriteMany(WriteTx, b.txs)
  }

  function TxId(H: seq<Byte> -> Hash, tx: Tx): Hash {
    H(Stripped(tx))
  }

  // ----- Readers

  function ReadBytes(bs: seq<Byte>, n: nat): Read<seq<Byte>> {
    if n <= |bs| then Some((bs[..n], bs[n..])) else None
  }

  function ReadLe(bs: seq<Byte>, n: nat): Read<nat> {
    if n <= |bs| then Some((LeValue(bs[..n]), bs[n..])) else None
  }

  /** A compact size; a value written longer than needed is refused. */
  function ReadVarint(bs: seq<Byte>): (r: Read<nat>) {
    if bs == [] then None
    else if bs[0] < 0xfd then Some((bs[0], bs[1..]))
    else
      var n := if bs[0] == 0xfd then 2 else if bs[0] == 0xfe then 4 else 8;
      match ReadLe(bs[1..], n)
      case None => None
      case Some((v, rest)) =>
        if v >= (if n == 2 then 0xfd else if n == 4 then 0x1_0000 else 0x1_0000_0000) then Some((v, rest)) else None
  }

  function ReadMany<T>(read: seq<Byte> -> Read<T>, bs: seq<Byte>, n: nat): (r: Read<seq<T>>)
    ensures r.Some? ==> |r.value.0| == n
    decreases n
  {
    if n == 0 then Some(([], bs))
    else
      match read(bs)
      case None => None
      case Some((x, rest)) =>
        match ReadMany(read, rest, n - 1)
        case None => None
        case Some((xs, after)) => Some(([x] + xs, after))
  }

  function ReadScript(bs: seq<Byte>): Read<seq<Byte>> {
    match ReadVarint(bs)
    case None => None
    case Some((n, rest)) => ReadBytes(rest, n)
  }

  function ReadInput(bs: seq<Byte>): Read<TxIn> {
    match ReadBytes(bs, 32)
    case None => None
    case Some((prev, r1)) =>
      match ReadLe(r1, 4)
      case None => None
      case Some((index, r2)) =>
        match ReadScript(r2)
        case None => None
        case Some((script, r3)) =>
          match ReadLe(r3, 4)
          case None => None
          case Some((sequence, r4)) => Some((TxIn(prev, index, script, sequence), r4))
  }

  function ReadOutput(bs: seq<Byte>): Read<TxOut> {
    match ReadLe(bs, 8)
    case None => None
    case Some((value, r1)) =>
      match ReadScript(r1)
      case None => None
      case Some((script, r2)) => Some((TxOut(value, script), r2))
  }

  function ReadCounted<T>(read: seq<Byte> -> Read<T>, bs: seq<Byte>): Read<seq<T>> {
    match ReadVarint(bs)
    case None => None
    case Some((n, rest)) => ReadMany(read, rest, n)
  }

  function ReadStack(bs: seq<Byte>): Read<seq<seq<Byte>>> {
    ReadCounted(ReadScript, bs)
  }

  function ReadEnds(bs: seq<Byte>): Read<(seq<TxIn>, seq<TxOut>)> {
    match ReadCounted(ReadInput, bs)
    case None => None
    case Some((inputs, r1)) =>
      match ReadCounted(ReadOutput, r1)
      case None => None
      case Some((outputs, r2)) => Some(((inputs, outputs), r2))
  }

  /** A zero where the input count belongs is the BIP 144 marker; the flag after it must be one. */
  function ReadTx(bs: seq<Byte>): Read<Tx> {
    match ReadLe(bs, 4)
    case None => None
    case Some((version, r1)) =>
      var flagged := |r1| >= 2 && r1[0] == 0 && r1[1] == 1;
      match ReadEnds(if flagged then r1[2..] else r1)
      case None => None
      case Some((ends, r2)) =>
        match ReadMany(ReadStack, r2, if flagged then |ends.0| else 0)
        case None => None
        case Some((witnesses, r3)) =>
          match ReadLe(r3, 4)
          case None => None
          case Some((lockTime, r4)) => Some((Tx(version, ends.0, ends.1, witnesses, lockTime), r4))
  }

  function ReadBlock(bs: seq<Byte>): Read<Block> {
    match ReadBytes(bs, 80)
    case None => None
    case Some((header, r1)) =>
      match ReadCounted(ReadTx, r1)
      case None => None
      case Some((txs, r2)) => Some((Block(header, txs), r2))
  }

  // ----- Round trips

  predicate ScriptOk(script: seq<Byte>) { |script| < U64_LIMIT }

  predicate InputOk(x: TxIn) {
    x.prevIndex < U32_LIMIT && ScriptOk(x.script) && x.sequence < U32_LIMIT
  }

  predicate OutputOk(x: TxOut) { x.value < U64_LIMIT && ScriptOk(x.script) }

  predicate StackOk(items: seq<seq<Byte>>) {
    |items| < U64_LIMIT && forall i :: 0 <= i < |items| ==> ScriptOk(items[i])
  }

  predicate TxOk(tx: Tx) {
    && tx.version < U32_LIMIT && tx.lockTime < U32_LIMIT
    && 0 < |tx.inputs| < U64_LIMIT && |tx.outputs| < U64_LIMIT
    && (forall i :: 0 <= i < |tx.inputs| ==> InputOk(tx.inputs[i]))
    && (forall i :: 0 <= i < |tx.outputs| ==> OutputOk(tx.outputs[i]))
    && (|tx.witnesses| == 0 || |tx.witnesses| == |tx.inputs|)
    && (forall i :: 0 <= i < |tx.witnesses| ==> StackOk(tx.witnesses[i]))
  }

  predicate BlockOk(b: Block) {
    |b.header| == 80 && |b.txs| < U64_LIMIT && forall i :: 0 <= i < |b.txs| ==> TxOk(b.txs[i])
  }

  /** `read` undoes `write` on `x`, whatever follows. */
  ghost predicate Undoes<T(!new)>(read: seq<Byte> -> Read<T>, write: T -> seq<Byte>, x: T) {
    forall rest :: read(write(x) + rest) == Some((x, rest))
  }

  lemma Regroup(a: seq<Byte>, b: seq<Byte>, c: seq<Byte>, d: seq<Byte>, e: seq<Byte>)
    ensures a + b + c + d + e == a + (b + (c + (d + e)))
  {
  }

  lemma LeRoundTrip(v: nat, n: nat, rest: seq<Byte>)
    requires v < Pow256(n)
    ensures ReadLe(Le(v, n) + rest, n) == Some((v, rest))
  {
    LeValueOfLe(v, n);
    assert (Le(v, n) + rest)[..n] == Le(v, n) && (Le(v, n) + rest)[n..] == rest;
  }

  lemma BytesRoundTrip(bs: seq<Byte>, rest: seq<Byte>)
    ensures ReadBytes(bs + rest, |bs|) == Some((bs, rest))
  {
    assert (bs + rest)[..|bs|] == bs && (bs + rest)[|bs|..] == rest;
  }

  lemma LongVarint(tag: Byte, v: nat, n: nat, rest: seq<Byte>)
    requires (tag, n) in {(0xfd, 2), (0xfe, 4), (0xff, 8)}
    requires (if n == 2 then 0xfd else if n == 4 then 0x1_0000 else U32_LIMIT) <= v < Pow256(n)
    ensures ReadVarint([tag] + Le(v, n) + rest) == Some((v, rest))
  {
    var bs := [tag] + Le(v, n) + rest;
    assert bs[1..] == Le(v, n) + rest;
    LeRoundTrip(v, n, rest);
  }

  lemma VarintRoundTrip(v: nat, rest: seq<Byte>)
    requires v < U64_LIMIT
    ensures ReadVarint(Varint(v) + rest) == Some((v, rest))
  {
    Pow256Widths();
    if v < 0xfd {
      assert (Varint(v) + rest)[1..] == rest;
    } else if v <= 0xffff {
      LongVarint(0xfd, v, 2, rest);
    } else if v <= 0xffff_ffff {
      LongVarint(0xfe, v, 4, rest);
    } else {
      LongVarint(0xff, v, 8, rest);
    }
  }

  lemma {:induction false} ManyRoundTrip<T(!new)>(read: seq<Byte> -> Read<T>, write: T -> seq<Byte>,
                                                  xs: seq<T>, rest: seq<Byte>)
    requires forall i :: 0 <= i < |xs| ==> Undoes(read, write, xs[i])
    ensures ReadMany(read, WriteMany(write, xs) + rest, |xs|) == Some((xs, rest))
  {
    if xs != [] {
      var tail := WriteMany(write, xs[1..]) + rest;
      assert WriteMany(write, xs) + rest == write(xs[0]) + tail;
      assert Undoes(read, write, xs[0]);
      ManyRoundTrip(read, write, xs[1..], rest);
      assert xs == [xs[0]] + xs[1..];
    } else {
      assert WriteMany(write, xs) + rest == rest;
    }
  }

  lemma CountedRoundTrip<T(!new)>(read: seq<Byte> -> Read<T>, write: T -> seq<Byte>, xs: seq<T>, rest: seq<Byte>)
    requires |xs| < U64_LIMIT
    requires forall i :: 0 <= i < |xs| ==> Undoes(read, write, xs[i])
    ensures ReadCounted(read, Varint(|xs|) + WriteMany(write, xs) + rest) == Some((xs, rest))
  {
    var tail := WriteMany(write, xs) + rest;
    assert Varint(|xs|) + WriteMany(write, xs) + rest == Varint(|xs|) + tail;
    VarintRoundTrip(|xs|, tail);
    ManyRoundTrip(read, write, xs, rest);
  }

  lemma ScriptReads(script: seq<Byte>, rest: seq<Byte>)
    requires ScriptOk(script)
    ensures ReadScript(WriteScript(script) + rest) == Some((script, rest))
  {
    assert WriteScript(script) + rest == Varint(|script|) + (script + rest);
    VarintRoundTrip(|script|, script + rest);
    BytesRoundTrip(script, rest);
  }

  lemma InputReads(x: TxIn, rest: seq<Byte>)
    requires InputOk(x)
    ensures ReadInput(WriteInput(x) + rest) == Some((x, rest))
  {
    var r3 := Le(x.sequence, 4) + rest;
    var r2 := WriteScript(x.script) + r3;
    Regroup(x.prevHash, Le(x.prevIndex, 4), WriteScript(x.script), Le(x.sequence, 4), rest);
    Pow256Widths();
    BytesRoundTrip(x.prevHash, Le(x.prevIndex, 4) + r2);
    LeRoundTrip(x.prevIndex, 4, r2);
    ScriptReads(x.script, r3);
    LeRoundTrip(x.sequence, 4, rest);
  }

  lemma OutputReads(x: TxOut, rest: seq<Byte>)
    requires OutputOk(x)
    ensures ReadOutput(WriteOutput(x) + rest) == Some((x, rest))
  {
    assert WriteOutput(x) + rest == Le(x.value, 8) + (WriteScript(x.script) + rest);
    Pow256Widths();
    LeRoundTrip(x.value, 8, WriteScript(x.script) + rest);
    ScriptReads(x.script, rest);
  }

  lemma StackRoundTrip(items: seq<seq<Byte>>)
    requires StackOk(items)
    ensures Undoes(ReadStack, WriteStack, items)
  {
    forall i, rest | 0 <= i < |items| ensures ReadScript(WriteScript(items[i]) + rest) == Some((items[i], rest)) {
      ScriptReads(items[i], rest);
    }
    forall rest ensures ReadStack(WriteStack(items) + rest) == Some((items, rest)) {
      CountedRoundTrip(ReadScript, WriteScript, items, rest);
    }
  }

  lemma InputsRoundTrip(xs: seq<TxIn>, rest: seq<Byte>)
    requires |xs| < U64_LIMIT && forall i :: 0 <= i < |xs| ==> InputOk(xs[i])
    ensures ReadCounted(ReadInput, Varint(|xs|) + WriteMany(WriteInput, xs) + rest) == Some((xs, rest))
  {
    forall i, rest | 0 <= i < |xs| ensures ReadInput(WriteInput(xs[i]) + rest) == Some((xs[i], rest)) {
      InputReads(xs[i], rest);
    }
    CountedRoundTrip(ReadInput, WriteInput, xs, rest);
  }

  lemma OutputsRoundTrip(xs: seq<TxOut>, rest: seq<Byte>)
    requires |xs| < U64_LIMIT && forall i :: 0 <= i < |xs| ==> OutputOk(xs[i])
    ensures ReadCounted(ReadOutput, Varint(|xs|) + WriteMany(WriteOutput, xs) + rest) == Some((xs, rest))
  {
    forall i, rest | 0 <= i < |xs| ensures ReadOutput(WriteOutput(xs[i]) + rest) == Some((xs[i], rest)) {
      OutputReads(xs[i], rest);
    }
    CountedRoundTrip(ReadOutput, WriteOutput, xs, rest);
  }

  lemma EndsRoundTrip(tx: Tx, rest: seq<Byte>)
    requires TxOk(tx)
    ensures ReadEnds(WriteEnds(tx) + rest) == Some(((tx.inputs, tx.outputs), rest))
  {
    var (ni, ins) := (Varint(|tx.inputs|), WriteMany(WriteInput, tx.inputs));
    var (no, outs) := (Varint(|tx.outputs|), WriteMany(WriteOutput, tx.outputs));
    Regroup(ni, ins, no, outs, rest);
    Regroup([], ni, ins, no + outs, rest);
    assert WriteEnds(tx) + rest == ni + ins + (no + outs + rest);
    InputsRoundTrip(tx.inputs, no + outs + rest);
    OutputsRoundTrip(tx.outputs, rest);
  }

  /** An input count is never mistaken for the marker. */
  lemma EndsStartNonZero(tx: Tx, rest: seq<Byte>)
    requires TxOk(tx)
    ensures WriteEnds(tx) + rest != [] && (WriteEnds(tx) + rest)[0] != 0
  {
    assert (WriteEnds(tx) + rest)[0] == Varint(|tx.inputs|)[0];
  }

  lemma StacksRoundTrip(xs: seq<seq<seq<Byte>>>, rest: seq<Byte>)
    requires forall i :: 0 <= i < |xs| ==> StackOk(xs[i])
    ensures ReadMany(ReadStack, WriteMany(WriteStack, xs) + rest, |xs|) == Some((xs, rest))
  {
    forall i | 0 <= i < |xs| ensures Undoes(ReadStack, WriteStack, xs[i]) {
      StackRoundTrip(xs[i]);
    }
    ManyRoundTrip(ReadStack, WriteStack, xs, rest);
  }

  lemma TxShape(tx: Tx, rest: seq<Byte>)
    ensures var ends := WriteEnds(tx) + (WriteMany(WriteStack, tx.witnesses) + (Le(tx.lockTime, 4) + rest));
            WriteTx(tx) + rest == Le(tx.version, 4) + (if tx.witnesses == [] then ends else [0x00, 0x01] + ends)
  {
    var (v, e, l) := (Le(tx.version, 4), WriteEnds(tx), Le(tx.lockTime, 4));
    if tx.witnesses == [] {
      Regroup(v, e, [], l, rest);
      assert v + e + [] == v + e;
      assert WriteMany(WriteStack, tx.witnesses) == [];
    } else {
      var w := WriteMany(WriteStack, tx.witnesses);
      Regroup(v, [0x00, 0x01], e, w, l + rest);
      Regroup(v + [0x00, 0x01] + e + w, [], [], l, rest);
      assert v + [0x00, 0x01] + e + w + [] + [] == v + [0x00, 0x01] + e + w;
      assert [] + ([] + (l + rest)) == l + rest;
    }
  }

  lemma TxRoundTrip(tx: Tx)
    requires TxOk(tx)
    ensures Undoes(ReadTx, WriteTx, tx)
  {
    forall rest ensures ReadTx(WriteTx(tx) + rest) == Some((tx, rest)) {
      var r3 := Le(tx.lockTime, 4) + rest;
      var r2 := WriteMany(WriteStack, tx.witnesses) + r3;
      var ends := WriteEnds(tx) + r2;
      var r1 := if tx.witnesses == [] then ends else [0x00, 0x01] + ends;
      TxShape(tx, rest);
      Pow256Widths();
      LeRoundTrip(tx.version, 4, r1);
      EndsRoundTrip(tx, r2);
      EndsStartNonZero(tx, r2);
      assert tx.witnesses != [] ==> r1[2..] == ends;
      StacksRoundTrip(tx.witnesses, r3);
      LeRoundTrip(tx.lockTime, 4, rest);
    }
  }

  /** A compact size in bytes: itself below 253, else a tag byte and the value in two, four or
      eight bytes, least significant first. */
  lemma VarintForm(v: nat)
    requires v < U64_LIMIT
    ensures if v < 253 then Varint(v) == [v]
            else && Varint(v)[0] == (if v < 0x1_0000 then 253 else if v < 0x1_0000_0000 then 254 else 255)
                 && |Varint(v)| == (if v < 0x1_0000 then 3 else if v < 0x1_0000_0000 then 5 else 9)
                 && LeValue(Varint(v)[1..]) == v
  {
    Pow256Widths();
    if v >= 253 { LeValueOfLe(v, if v < 0x1_0000 then 2 else if v < U32_LIMIT then 4 else 8); }
  }

  /** With a witness, marker and flag stand where the input count stands without one; either way the
      version comes first and the lock time last. */
  lemma MarkerBytes(tx: Tx)
    requires TxOk(tx)
    ensures |WriteTx(tx)| > 6 && WriteTx(tx)[..4] == Le(tx.version, 4)
    ensures if tx.witnesses == [] then WriteTx(tx)[4] != 0 else WriteTx(tx)[4..6] == [0, 1]
    ensures WriteTx(tx)[|WriteTx(tx)| - 4..] == Le(tx.lockTime, 4)
  {
    assert WriteTx(tx) + [] == WriteTx(tx);
    TxShape(tx, []);
    EndsStartNonZero(tx, WriteMany(WriteStack, tx.witnesses) + (Le(tx.lockTime, 4) + []));
  }

  /** Reading a written block gives it back, with nothing left over. */
  lemma BlockRoundTrip(b: Block)
    requires BlockOk(b)
    ensures ReadBlock(WriteBlock(b)) == Some((b, []))
  {
    forall i | 0 <= i < |b.txs| ensures Undoes(ReadTx, WriteTx, b.txs[i]) {
      TxRoundTrip(b.txs[i]);
    }
    var body := Varint(|b.txs|) + WriteMany(WriteTx, b.txs) + [];
    assert WriteBlock(b) == b.header + body;
    BytesRoundTrip(b.header, body);
    CountedRoundTrip(ReadTx, WriteTx, b.txs, []);
  }
}
