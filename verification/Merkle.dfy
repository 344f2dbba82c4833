/** Merkle branches of a block template, against the full Bitcoin Merkle tree.
    `H` stands for double SHA-256 and is arbitrary throughout. */
module Merkle {
  import opened Arithmetic
  import opened Bytes
  import Hex

  /** The 64 bytes hashed for a parent node. */
  function Pair(a: Hash, b: Hash): (bytes: seq<Byte>)
    ensures |bytes| == 64 && bytes[..32] == a && bytes[32..] == b
  {
    var left: seq<Byte> := a;
    left + b
  }

  /** One level up: neighbours are hashed together, a lone last node with itself. */
  function NextLevel(H: seq<Byte> -> Hash, nodes: seq<Hash>): (up: seq<Hash>)
    ensures |up| == (|nodes| + 1) / 2
  {
    if nodes == [] then []
    else if |nodes| == 1 then [H(Pair(nodes[0], nodes[0]))]
    else [H(Pair(nodes[0], nodes[1]))] + NextLevel(H, nodes[2..])
  }

  /** Node by node: parent `i` hashes nodes `2i` and `2i + 1`, the last node standing in for a
      missing one. */
  lemma {:induction false} LevelAt(H: seq<Byte> -> Hash, nodes: seq<Hash>, i: nat)
    requires 2 * i < |nodes|
    ensures var left: seq<Byte> := nodes[2 * i];
            NextLevel(H, nodes)[i] == H(left + nodes[if 2 * i + 1 < |nodes| then 2 * i + 1 else 2 * i])
    decreases i
  {
    if i > 0 { LevelAt(H, nodes[2..], i - 1); }
  }

  /** The root of the whole tree. */
  function Root(H: seq<Byte> -> Hash, leaves: seq<Hash>): Hash
    requires leaves != []
    decreases |leaves|
  {
    if |leaves| == 1 then leaves[0] else Root(H, NextLevel(H, leaves))
  }

  /** The sibling path of a leaf that stands before `nodes`. */
  function Branches(H: seq<Byte> -> Hash, nodes: seq<Hash>): seq<Hash>
    decreases |nodes|
  {
    if nodes == [] then [] else [nodes[0]] + Branches(H, NextLevel(H, nodes[1..]))
  }

  function Fold(H: seq<Byte> -> Hash, leaf: Hash, branches: seq<Hash>): Hash
    decreases |branches|
  {
    if branches == [] then leaf else Fold(H, H(Pair(leaf, branches[0])), branches[1..])
  }

  /** Folding any first leaf through the branches gives the root of the full tree. */
  lemma {:induction false} FoldIsRoot(H: seq<Byte> -> Hash, leaf: Hash, nodes: seq<Hash>)
    ensures Fold(H, leaf, Branches(H, nodes)) == Root(H, [leaf] + nodes)
    decreases |nodes|
  {
    if nodes != [] {
      var leaves, up := [leaf] + nodes, NextLevel(H, nodes[1..]);
      assert leaves[2..] == nodes[1..];
      assert NextLevel(H, leaves) == [H(Pair(leaf, nodes[0]))] + up;
      assert Branches(H, nodes)[1..] == Branches(H, up);
      FoldIsRoot(H, H(Pair(leaf, nodes[0])), up);
    }
  }

  /** The number of branches is the least `b` with `n + 1 <= 2^b`. */
  lemma {:induction false} BranchCount(H: seq<Byte> -> Hash, nodes: seq<Hash>)
    ensures |nodes| + 1 <= Pow2(|Branches(H, nodes)|)
    ensures forall b: nat :: |nodes| + 1 <= Pow2(b) ==> |Branches(H, nodes)| <= b
    decreases |nodes|
  {
    if nodes != [] {
      var up := NextLevel(H, nodes[1..]);
      BranchCount(H, up);
      forall b: nat | |nodes| + 1 <= Pow2(b)
        ensures |Branches(H, nodes)| <= b
      {
        assert b > 0;
        assert |up| + 1 <= Pow2(b - 1);
      }
    }
  }

  lemma {:induction false} FoldStep(H: seq<Byte> -> Hash, leaf: Hash, branches: seq<Hash>, last: Hash)
    ensures Fold(H, leaf, branches + [last]) == H(Pair(Fold(H, leaf, branches), last))
    decreases |branches|
  {
    if branches != [] {
      FoldStep(H, H(Pair(leaf, branches[0])), branches[1..], last);
      assert (branches + [last])[1..] == branches[1..] + [last];
    } else {
      assert branches + [last] == [last];
    }
  }

  /** The 64-byte strings hashed on the way from a leaf to the root, in order. */
  function FoldTexts(H: seq<Byte> -> Hash, leaf: Hash, branches: seq<Hash>): (texts: seq<seq<Byte>>)
    ensures |texts| == |branches|
    decreases |branches|
  {
    if branches == [] then []
    else
      var text := Pair(leaf, branches[0]);
      [text] + FoldTexts(H, H(text), branches[1..])
  }

  /** Everything hashed on the way from a leaf's own bytes to the root. */
  function PathTexts(H: seq<Byte> -> Hash, p: seq<Byte>, branches: seq<Hash>): seq<seq<Byte>> {
    [p] + FoldTexts(H, H(p), branches)
  }

  /** No two different strings of this list have one hash. */
  predicate NoCollisionIn(H: seq<Byte> -> Hash, texts: seq<seq<Byte>>) {
    forall x, y :: x in texts && y in texts && H(x) == H(y) ==> x == y
  }

  /** No string of this list hashes to `leaf`. */
  predicate NoneHashesTo(H: seq<Byte> -> Hash, texts: seq<seq<Byte>>, leaf: Hash) {
    forall x :: x in texts ==> H(x) != leaf
  }

  lemma {:induction false} TextsStep(H: seq<Byte> -> Hash, leaf: Hash, branches: seq<Hash>)
    requires branches != []
    ensures var n := |branches| - 1;
            var text := Pair(Fold(H, leaf, branches[..n]), branches[n]);
            && FoldTexts(H, leaf, branches) == FoldTexts(H, leaf, branches[..n]) + [text]
            && text in FoldTexts(H, leaf, branches) && Fold(H, leaf, branches) == H(text)
    decreases |branches|
  {
    var n := |branches| - 1;
    FoldStep(H, leaf, branches[..n], branches[n]);
    assert branches == branches[..n] + [branches[n]];
    if n > 0 {
      TextsStep(H, H(Pair(leaf, branches[0])), branches[1..]);
      assert branches[1..][..n - 1] == branches[..n][1..];
    } else {
      assert branches[1..] == [];
    }
  }

  lemma FewerTexts(H: seq<Byte> -> Hash, texts: seq<seq<Byte>>, fewer: seq<seq<Byte>>)
    requires NoCollisionIn(H, texts) && forall x :: x in fewer ==> x in texts
    ensures NoCollisionIn(H, fewer)
  {
  }

  lemma SameLastStep(H: seq<Byte> -> Hash, leafA: Hash, a: seq<Hash>, leafB: Hash, b: seq<Hash>, i: nat, j: nat)
    requires |a| == i + 1 && |b| == j + 1 && Fold(H, leafA, a) == Fold(H, leafB, b)
    requires NoCollisionIn(H, FoldTexts(H, leafA, a) + FoldTexts(H, leafB, b))
    ensures a[i] == b[j] && Fold(H, leafA, a[..i]) == Fold(H, leafB, b[..j])
  {
    TextsStep(H, leafA, a);
    TextsStep(H, leafB, b);
    var x, y := Pair(Fold(H, leafA, a[..i]), a[i]), Pair(Fold(H, leafB, b[..j]), b[j]);
    var all := FoldTexts(H, leafA, a) + FoldTexts(H, leafB, b);
    assert x in all && y in all;
    assert x == y;
    assert x[..32] == y[..32] && x[32..] == y[32..];
  }

  lemma ShorterTexts(H: seq<Byte> -> Hash, leafA: Hash, a: seq<Hash>, leafB: Hash, b: seq<Hash>, i: nat, j: nat)
    requires |a| == i + 1 && |b| == j + 1
    requires NoCollisionIn(H, FoldTexts(H, leafA, a) + FoldTexts(H, leafB, b))
    ensures NoCollisionIn(H, FoldTexts(H, leafA, a[..i]) + FoldTexts(H, leafB, b[..j]))
  {
    TextsStep(H, leafA, a);
    TextsStep(H, leafB, b);
    FewerTexts(H, FoldTexts(H, leafA, a) + FoldTexts(H, leafB, b),
               FoldTexts(H, leafA, a[..i]) + FoldTexts(H, leafB, b[..j]));
  }

  lemma ShorterMisses(H: seq<Byte> -> Hash, leaf: Hash, a: seq<Hash>, other: Hash)
    requires a != [] && NoneHashesTo(H, FoldTexts(H, leaf, a), other)
    ensures NoneHashesTo(H, FoldTexts(H, leaf, a[..|a| - 1]), other) && Fold(H, leaf, a) != other
  {
    TextsStep(H, leaf, a);
  }

  /** Two paths that end in one root are one path, if the strings hashed on them do not collide
      and none of them hashes to a leaf. */
  lemma {:induction false} FoldSeparates(H: seq<Byte> -> Hash, leafA: Hash, a: seq<Hash>, leafB: Hash, b: seq<Hash>)
    requires Fold(H, leafA, a) == Fold(H, leafB, b)
    requires NoCollisionIn(H, FoldTexts(H, leafA, a) + FoldTexts(H, leafB, b))
    requires NoneHashesTo(H, FoldTexts(H, leafA, a), leafB) && NoneHashesTo(H, FoldTexts(H, leafB, b), leafA)
    ensures leafA == leafB && a == b
    decreases |a| + |b|
  {
    if a != [] { ShorterMisses(H, leafA, a, leafB); }
    if b != [] { ShorterMisses(H, leafB, b, leafA); }
    if a != [] && b != [] {
      var i, j := |a| - 1, |b| - 1;
      SameLastStep(H, leafA, a, leafB, b, i, j);
      ShorterTexts(H, leafA, a, leafB, b, i, j);
      FoldSeparates(H, leafA, a[..i], leafB, b[..j]);
      assert a == a[..i] + [a[i]] && b == b[..j] + [b[j]];
    }
  }

  /** Leaf texts that are not 64 bytes long and branch lists are determined by the root they lead
      to, if the strings hashed on the two paths do not collide. */
  lemma FoldInjective(H: seq<Byte> -> Hash, p: seq<Byte>, a: seq<Hash>, q: seq<Byte>, b: seq<Hash>)
    requires |p| != 64 && |q| != 64 && Fold(H, H(p), a) == Fold(H, H(q), b)
    requires NoCollisionIn(H, PathTexts(H, p, a) + PathTexts(H, q, b))
    ensures p == q && a == b
  {
    var left, right := FoldTexts(H, H(p), a), FoldTexts(H, H(q), b);
    var all := PathTexts(H, p, a) + PathTexts(H, q, b);
    assert p in all && q in all && forall x :: x in left + right ==> x in all;
    FewerTexts(H, all, left + right);
    NodesAreLong(H, H(p), a);
    NodesAreLong(H, H(q), b);
    FoldSeparates(H, H(p), a, H(q), b);
  }

  lemma {:induction false} NodesAreLong(H: seq<Byte> -> Hash, leaf: Hash, branches: seq<Hash>)
    ensures forall x :: x in FoldTexts(H, leaf, branches) ==> |x| == 64
    decreases |branches|
  {
    if branches != [] { NodesAreLong(H, H(Pair(leaf, branches[0])), branches[1..]); }
  }

  /** The wire order of a hash is the reverse of the order in which it is displayed. */
  function Reverse(h: seq<Byte>): (r: seq<Byte>)
    ensures |r| == |h|
    ensures forall i :: 0 <= i < |h| ==> r[i] == h[|h| - 1 - i]
  {
    seq(|h|, i requires 0 <= i < |h| => h[|h| - 1 - i])
  }

  /** A displayed hash: exactly 64 hex digits, most significant byte first. */
  function HashOfText(txid: string): Option<Hash> {
    match Hex.Decode(txid)
    case Some(h) => if |h| == 32 then Some(Reverse(h)) else None
    case None => None
  }

  function TextOfHash(h: Hash): string {
    Hex.Encode(Reverse(h))
  }

  lemma HashTextRoundTrip(h: Hash)
    ensures HashOfText(TextOfHash(h)) == Some(h)
  {
    Hex.DecodeEncode(Reverse(h));
    assert Reverse(Reverse(h)) == h;
  }

  /** Ids that do not decode are dropped without an error. */
  function ValidHashes(txids: seq<string>): (hs: seq<Hash>) {
    if txids == [] then []
    else
      var h := HashOfText(txids[0]);
      (if h.Some? then [h.value] else []) + ValidHashes(txids[1..])
  }

  /** Each id is kept or dropped by itself, and those kept stay in order. */
  lemma {:induction false} EachIdAlone(before: seq<string>, id: string, after: seq<string>)
    ensures ValidHashes([]) == []
    ensures ValidHashes(before + [id] + after)
         == ValidHashes(before) + (if HashOfText(id).Some? then [HashOfText(id).value] else []) + ValidHashes(after)
  {
    var all := before + [id] + after;
    if before == [] {
      assert all == [id] + after && all[1..] == after;
    } else {
      EachIdAlone(before[1..], id, after);
      IdsTail(before, id, after);
      var first, rest := if HashOfText(before[0]).Some? then [HashOfText(before[0]).value] else [],
                         ValidHashes(before[1..]);
      var kept := if HashOfText(id).Some? then [HashOfText(id).value] else [];
      assert first + rest + kept == first + (rest + kept);
      assert first + rest + kept + ValidHashes(after) == first + (rest + kept + ValidHashes(after));
    }
  }

  lemma IdsTail(before: seq<string>, id: string, after: seq<string>)
    requires before != []
    ensures (before + [id] + after)[0] == before[0] && (before + [id] + after)[1..] == before[1..] + [id] + after
  {
  }

  lemma {:induction false} DecodedValue(s: string)
    requires Hex.Decode(s).Some?
    ensures LeValue(Reverse(Hex.Decode(s).value)) == Hex.Value(s)
  {
    if s == "" {
      assert Reverse([]) == [];
    } else {
      var n, bs := |s| - 2, Hex.Decode(s).value;
      DecodeLast(s);
      DecodedValue(s[..n]);
      var front, b := Hex.Decode(s[..n]).value, bs[|bs| - 1];
      assert Reverse(bs) == [b] + Reverse(front);
      assert ([b] + Reverse(front))[1..] == Reverse(front);
      assert s[..n + 1][..n] == s[..n];
      assert Hex.Value(s) == 16 * Hex.Value(s[..n + 1]) + Hex.DigitValue(s[n + 1]);
    }
  }

  /** The last two digits give the last byte. */
  lemma {:induction false} DecodeLast(s: string)
    requires s != "" && Hex.Decode(s).Some?
    ensures var n := |s| - 2;
            n >= 0 && Hex.Decode(s[..n]).Some?
            && Hex.Decode(s).value == Hex.Decode(s[..n]).value + [16 * Hex.DigitValue(s[n]) + Hex.DigitValue(s[n + 1])]
  {
    var n := |s| - 2;
    if n > 0 {
      DecodeLast(s[2..]);
      assert s[2..][..n - 2] == s[..n][2..];
    } else {
      assert s[2..] == "" && s[..n] == "";
    }
  }

  /** A displayed hash is read as the number its digits write, most significant first: the
      little-endian value of the bytes is the hexadecimal value of the text. */
  lemma DisplayedValue(text: string)
    ensures HashOfText(text).Some? <==> |text| == 64 && Hex.AllDigits(text)
    ensures HashOfText(text).Some? ==> LeValue(HashOfText(text).value) == Hex.Value(text)
  {
    if HashOfText(text).Some? { DecodedValue(text); }
  }

  method DecodeTxids(txids: seq<string>) returns (hashes: seq<Hash>)
    ensures hashes == ValidHashes(txids)
  {
    hashes := [];
    for k := 0 to |txids|
      invariant hashes + ValidHashes(txids[k..]) == ValidHashes(txids)
    {
      ghost var before, after := hashes, ValidHashes(txids[k + 1..]);
      var h := HashOfText(txids[k]);
      assert txids[k..][1..] == txids[k + 1..];
      assert ValidHashes(txids[k..]) == (if h.Some? then [h.value] else []) + after;
      if h.Some? { hashes := hashes + [h.value]; }
      assert hashes + after == before + ValidHashes(txids[k..]);
    }
  }

  method CombineChunks(H: seq<Byte> -> Hash, hashes: seq<Hash>) returns (up: seq<Hash>)
    ensures up == NextLevel(H, hashes)
  {
    up := [];
    var i := 0;
    while i < |hashes|
      invariant i <= |hashes|
      invariant up + NextLevel(H, hashes[i..]) == NextLevel(H, hashes)
    {
      var chunk := hashes[i..if i + 2 <= |hashes| then i + 2 else |hashes|];
      var combined := Pair(chunk[0], if |chunk| > 1 then chunk[1] else chunk[0]);
      NextLevelStep(H, hashes, i);
      Assoc(up, [H(combined)], NextLevel(H, hashes[i + |chunk|..]));
      up := up + [H(combined)];
      i := i + |chunk|;
    }
    assert hashes[i..] == [];
  }

  lemma NextLevelStep(H: seq<Byte> -> Hash, nodes: seq<Hash>, i: nat)
    requires i < |nodes|
    ensures i + 1 < |nodes| ==>
              NextLevel(H, nodes[i..]) == [H(Pair(nodes[i], nodes[i + 1]))] + NextLevel(H, nodes[i + 2..])
    ensures i + 1 == |nodes| ==>
              NextLevel(H, nodes[i..]) == [H(Pair(nodes[i], nodes[i]))] + NextLevel(H, nodes[i + 1..])
  {
    if i + 1 < |nodes| { assert nodes[i..][2..] == nodes[i + 2..]; }
  }

  /** `calculate_merkle_branches`. */
  method CalculateBranches(H: seq<Byte> -> Hash, txids: seq<string>) returns (branches: seq<Hash>)
    ensures branches == Branches(H, ValidHashes(txids))
  {
    var hashes := DecodeTxids(txids);
    ghost var all := hashes;
    branches := [];
    while hashes != []
      invariant branches + Branches(H, hashes) == Branches(H, all)
      decreases |hashes|
    {
      ghost var above := Branches(H, NextLevel(H, hashes[1..]));
      assert branches + Branches(H, hashes) == branches + [hashes[0]] + above;
      branches := branches + [hashes[0]];
      hashes := hashes[1..];
      if hashes == [] {
        assert above == [];
        break;
      }
      hashes := CombineChunks(H, hashes);
    }
  }

  /** `calculate_merkle_root`. */
  method CalculateRoot(H: seq<Byte> -> Hash, coinbase1: seq<Byte>, coinbase2: seq<Byte>,
                       extranonce: seq<Byte>, branches: seq<Hash>) returns (root: Hash)
    ensures root == Fold(H, H(coinbase1 + extranonce + coinbase2), branches)
  {
    root := H(coinbase1 + extranonce + coinbase2);
    for k := 0 to |branches|
      invariant Fold(H, root, branches[k..]) == Fold(H, H(coinbase1 + extranonce + coinbase2), branches)
    {
      assert branches[k..][1..] == branches[k + 1..];
      root := H(Pair(root, branches[k]));
    }
  }
}
