/** Proportional payouts: floor division, the dust rule, and aggregation of a miner's records. */
module Payout {
  import opened Bytes
  import opened Arithmetic

  datatype Entry = Entry(miner: string, work: nat, shares: nat, netWork: nat)

  datatype Output = Output(value: nat, script: seq<Byte>)

  datatype Error = NoMiners | InputsTooSmall | NoNetWork

  datatype Built = Ok(outputs: seq<Output>) | Err(error: Error)

  const DUST: nat := 546

  function Sum(values: seq<nat>): nat { if values == [] then 0 else values[0] + Sum(values[1..]) }

  function NetWork(miners: seq<Entry>): nat { if miners == [] then 0 else miners[0].netWork + NetWork(miners[1..]) }

  /** One miner's part before the dust rule. */
  function Part(net: nat, total: nat, all: nat): nat
    requires all > 0
  {
    net * total / all
  }

  /** What a record is paid: its part, or nothing when that is dust. */
  function Pay(net: nat, total: nat, all: nat): nat
    requires all > 0
  {
    if Part(net, total, all) < DUST then 0 else Part(net, total, all)
  }

  /** The output of one record: none without work or below the dust limit. */
  function Piece(m: Entry, total: nat, all: nat, scriptOf: string -> seq<Byte>): seq<Output>
    requires all > 0
  {
    if m.netWork != 0 && Part(m.netWork, total, all) >= DUST
    then [Output(Part(m.netWork, total, all), scriptOf(m.miner))] else []
  }

  /** The outputs of all records, in order. */
  function Paid(miners: seq<Entry>, total: nat, all: nat, scriptOf: string -> seq<Byte>): seq<Output>
    requires all > 0
  {
    if miners == [] then []
    else Piece(miners[0], total, all, scriptOf) + Paid(miners[1..], total, all, scriptOf)
  }

  function Value(outputs: seq<Output>): nat { if outputs == [] then 0 else outputs[0].value + Value(outputs[1..]) }

  lemma {:induction false} ValueConcat(a: seq<Output>, b: seq<Output>)
    ensures Value(a + b) == Value(a) + Value(b)
  {
    if a == [] {
      assert a + b == b;
    } else {
      ValueConcat(a[1..], b);
      assert (a + b)[1..] == a[1..] + b;
    }
  }

  /** Change above the dust limit becomes one more output. */
  function WithChange(paid: seq<Output>, total: nat, changeScript: seq<Byte>): seq<Output>
    requires Value(paid) <= total
  {
    var change := total - Value(paid);
    if change > DUST then paid + [Output(change, changeScript)] else paid
  }

  // ----- Who gets what

  /** `ys` holds one result for each good element of `xs` and nothing else, in order; `picks` are
      their places. */
  ghost predicate Lists<A, B>(xs: seq<A>, good: A -> bool, result: A -> B, picks: seq<nat>, ys: seq<B>) {
    && |ys| == |picks|
    && (forall k :: 0 <= k < |picks| ==> picks[k] < |xs| && good(xs[picks[k]]) && ys[k] == result(xs[picks[k]]))
    && (forall k, l :: 0 <= k < l < |picks| ==> picks[k] < picks[l])
    && (forall i :: 0 <= i < |xs| && good(xs[i]) ==> i in picks)
  }

  function Moved(picks: seq<nat>): (moved: seq<nat>)
    ensures |moved| == |picks|
  {
    seq(|picks|, k requires 0 <= k < |picks| => picks[k] + 1)
  }

  lemma MovedHas(picks: seq<nat>, i: nat)
    ensures i + 1 in Moved(picks) <==> i in picks
  {
    if k :| 0 <= k < |picks| && picks[k] == i { assert Moved(picks)[k] == i + 1; }
  }

  lemma ListsSkip<A, B>(x: A, xs: seq<A>, good: A -> bool, result: A -> B, picks: seq<nat>, ys: seq<B>)
    requires Lists(xs, good, result, picks, ys) && !good(x)
    ensures Lists([x] + xs, good, result, Moved(picks), ys)
  {
    var all, moved := [x] + xs, Moved(picks);
    forall k | 0 <= k < |moved| ensures moved[k] < |all| && good(all[moved[k]]) && ys[k] == result(all[moved[k]]) {
      assert all[moved[k]] == xs[picks[k]];
    }
    forall i | 0 <= i < |all| && good(all[i]) ensures i in moved {
      assert all[i] == xs[i - 1];
      MovedHas(picks, i - 1);
    }
  }

  lemma ListsTake<A, B>(x: A, xs: seq<A>, good: A -> bool, result: A -> B, picks: seq<nat>, ys: seq<B>)
    requires Lists(xs, good, result, picks, ys) && good(x)
    ensures Lists([x] + xs, good, result, [0] + Moved(picks), [result(x)] + ys)
  {
    var all, more, res := [x] + xs, [0] + Moved(picks), [result(x)] + ys;
    forall k | 0 <= k < |more| ensures more[k] < |all| && good(all[more[k]]) && res[k] == result(all[more[k]]) {
      if k > 0 { assert more[k] == picks[k - 1] + 1 && all[more[k]] == xs[picks[k - 1]] && res[k] == ys[k - 1]; }
    }
    forall i | 0 <= i < |all| && good(all[i]) ensures i in more {
      TakenHas(picks, i);
      if i > 0 { assert all[i] == xs[i - 1]; }
    }
  }

  lemma TakenHas(picks: seq<nat>, i: nat)
    ensures i in [0] + Moved(picks) <==> i == 0 || i - 1 in picks
  {
    var more := [0] + Moved(picks);
    assert more[0] == 0;
    assert i in more <==> i == 0 || i in Moved(picks);
    if i > 0 { MovedHas(picks, i - 1); }
  }

  /** Records with work whose part is not dust. */
  function Earns(total: nat, all: nat): Entry -> bool
    requires all > 0
  {
    (m: Entry) => m.netWork > 0 && m.netWork * total / all >= 546
  }

  /** A record's part, to the script of its own miner. */
  function Due(total: nat, all: nat, scriptOf: string -> seq<Byte>): Entry -> Output
    requires all > 0
  {
    (m: Entry) => Output(m.netWork * total / all, scriptOf(m.miner))
  }

  ghost predicate PaysEach(miners: seq<Entry>, total: nat, all: nat, scriptOf: string -> seq<Byte>,
                           outputs: seq<Output>)
    requires all > 0
  {
    exists picks: seq<nat> :: Lists(miners, Earns(total, all), Due(total, all, scriptOf), picks, outputs)
  }

  lemma PieceIs(m: Entry, total: nat, all: nat, scriptOf: string -> seq<Byte>)
    requires all > 0
    ensures Piece(m, total, all, scriptOf)
         == if Earns(total, all)(m) then [Due(total, all, scriptOf)(m)] else []
  {
  }

  lemma PaysCons(m: Entry, rest: seq<Entry>, good: Entry -> bool, due: Entry -> Output, picks: seq<nat>,
                 outputs: seq<Output>) returns (more: seq<nat>)
    requires Lists(rest, good, due, picks, outputs)
    ensures Lists([m] + rest, good, due, more, (if good(m) then [due(m)] else []) + outputs)
  {
    if good(m) {
      more := [0] + Moved(picks);
      ListsTake(m, rest, good, due, picks, outputs);
    } else {
      more := Moved(picks);
      ListsSkip(m, rest, good, due, picks, outputs);
      assert [] + outputs == outputs;
    }
  }

  /** The outputs before change stand, in order, for exactly the records with work whose part is not
      dust, each with that part and its own miner's script. */
  lemma {:induction false} PaidPaysEach(miners: seq<Entry>, total: nat, all: nat, scriptOf: string -> seq<Byte>)
    requires all > 0
    ensures PaysEach(miners, total, all, scriptOf, Paid(miners, total, all, scriptOf))
  {
    if miners == [] {
      assert Lists(miners, Earns(total, all), Due(total, all, scriptOf), [], []);
    } else {
      var good, due, later := Earns(total, all), Due(total, all, scriptOf), Paid(miners[1..], total, all, scriptOf);
      PaidPaysEach(miners[1..], total, all, scriptOf);
      var picks: seq<nat> :| Lists(miners[1..], good, due, picks, later);
      var more := PaysCons(miners[0], miners[1..], good, due, picks, later);
      PieceIs(miners[0], total, all, scriptOf);
      assert miners == [miners[0]] + miners[1..];
    }
  }

  /** The value of the outputs with one script. */
  function ToScript(outputs: seq<Output>, script: seq<Byte>): nat {
    if outputs == [] then 0
    else (if outputs[0].script == script then outputs[0].value else 0) + ToScript(outputs[1..], script)
  }

  // ----- What is left over

  /** Records with work whose part was dust. */
  function Skipped(miners: seq<Entry>, total: nat, all: nat): nat
    requires all > 0
  {
    if miners == [] then 0
    else (if miners[0].netWork != 0 && Part(miners[0].netWork, total, all) < DUST then 1 else 0)
         + Skipped(miners[1..], total, all)
  }

  lemma PartBounds(net: nat, total: nat, all: nat)
    requires all > 0
    ensures all * Part(net, total, all) <= net * total < all * Part(net, total, all) + all
  {
    var x := net * total;
    assert x == all * (x / all) + x % all;
  }

  /** What the records are owed, what they get, and how far apart the two may be, each scaled by all work. */
  function Owed(miners: seq<Entry>, total: nat): nat {
    if miners == [] then 0 else miners[0].netWork * total + Owed(miners[1..], total)
  }

  function Got(miners: seq<Entry>, total: nat, all: nat): nat
    requires all > 0
  {
    if miners == [] then 0 else all * Pay(miners[0].netWork, total, all) + Got(miners[1..], total, all)
  }

  function Slack(miners: seq<Entry>, total: nat, all: nat): nat
    requires all > 0
  {
    if miners == [] then 0
    else
      (if miners[0].netWork == 0 then 0 else if Part(miners[0].netWork, total, all) < DUST then DUST * all else all)
      + Slack(miners[1..], total, all)
  }

  lemma OneRecord(net: nat, total: nat, all: nat)
    requires all > 0
    ensures all * Pay(net, total, all) <= net * total
    ensures net > 0 ==> net * total < all * Pay(net, total, all)
                                      + (if Part(net, total, all) < DUST then DUST * all else all)
    ensures net == 0 ==> net * total == 0 && Part(net, total, all) == 0
  {
    PartBounds(net, total, all);
    var part := Part(net, total, all);
    if part < DUST { Scale(part + 1, DUST, all); }
  }

  lemma {:induction false} Residue(miners: seq<Entry>, total: nat, all: nat)
    requires all > 0
    ensures Got(miners, total, all) <= Owed(miners, total) <= Got(miners, total, all) + Slack(miners, total, all)
    ensures NetWork(miners) > 0 ==> Owed(miners, total) < Got(miners, total, all) + Slack(miners, total, all)
  {
    if miners != [] {
      Residue(miners[1..], total, all);
      OneRecord(miners[0].netWork, total, all);
    }
  }

  lemma Distribute(a: nat, b: nat, k: nat)
    ensures (a + b) * k == a * k + b * k
  {
  }

  lemma {:induction false} OwedIs(miners: seq<Entry>, total: nat)
    ensures Owed(miners, total) == NetWork(miners) * total
  {
    if miners != [] {
      OwedIs(miners[1..], total);
      Distribute(miners[0].netWork, NetWork(miners[1..]), total);
    }
  }

  lemma {:induction false} GotIs(miners: seq<Entry>, total: nat, all: nat, scriptOf: string -> seq<Byte>)
    requires all > 0
    ensures Got(miners, total, all) == Value(Paid(miners, total, all, scriptOf)) * all
  {
    if miners != [] {
      var m, rest := miners[0], Paid(miners[1..], total, all, scriptOf);
      GotIs(miners[1..], total, all, scriptOf);
      OneRecord(m.netWork, total, all);
      Distribute(Pay(m.netWork, total, all), Value(rest), all);
      assert Paid(miners, total, all, scriptOf)
          == (if Pay(m.netWork, total, all) > 0
              then [Output(Pay(m.netWork, total, all), scriptOf(m.miner))] else []) + rest;
      PaidValue(Pay(m.netWork, total, all), scriptOf(m.miner), rest);
    }
  }

  lemma PaidValue(pay: nat, script: seq<Byte>, rest: seq<Output>)
    ensures Value((if pay > 0 then [Output(pay, script)] else []) + rest) == pay + Value(rest)
  {
    if pay > 0 {
      assert ([Output(pay, script)] + rest)[1..] == rest;
    } else {
      assert [] + rest == rest;
    }
  }

  lemma {:induction false} SlackIs(miners: seq<Entry>, total: nat, all: nat, scriptOf: string -> seq<Byte>)
    requires all > 0
    ensures Slack(miners, total, all)
         == (|Paid(miners, total, all, scriptOf)| + DUST * Skipped(miners, total, all)) * all
  {
    if miners != [] {
      var m, rest := miners[0], miners[1..];
      SlackIs(rest, total, all, scriptOf);
      var k := |Paid(rest, total, all, scriptOf)| + DUST * Skipped(rest, total, all);
      OneRecord(m.netWork, total, all);
      Distribute(1, k, all);
      Distribute(DUST, k, all);
    }
  }

  /** Payouts never exceed the total, and what they leave is below one satoshi per paid record
      plus the dust limit per skipped one. */
  lemma PayoutBounds(miners: seq<Entry>, total: nat, scriptOf: string -> seq<Byte>)
    requires NetWork(miners) > 0
    ensures var all := NetWork(miners);
            var paid := Paid(miners, total, all, scriptOf);
            Value(paid) <= total < Value(paid) + |paid| + DUST * Skipped(miners, total, all)
  {
    var all := NetWork(miners);
    var value := Value(Paid(miners, total, all, scriptOf));
    var spare := |Paid(miners, total, all, scriptOf)| + DUST * Skipped(miners, total, all);
    Residue(miners, total, all);
    OwedIs(miners, total);
    GotIs(miners, total, all, scriptOf);
    SlackIs(miners, total, all, scriptOf);
    Between(value, total, spare, all);
  }

  lemma Between(value: nat, total: nat, spare: nat, all: nat)
    requires all > 0 && value * all <= all * total < value * all + spare * all
    ensures value <= total < value + spare
  {
    if value > total { Scale(total + 1, value, all); Distribute(total, 1, all); }
    if total >= value + spare { Scale(value + spare, total, all); Distribute(value, spare, all); }
  }

  /** The outputs sum to at most the total; exactly to it when the change is zero or above dust. */
  lemma OutputsSum(paid: seq<Output>, total: nat, changeScript: seq<Byte>)
    requires Value(paid) <= total
    ensures var change, sum := total - Value(paid), Value(WithChange(paid, total, changeScript));
            sum <= total && (sum == total <==> change == 0 || change > DUST)
  {
    ValueConcat(paid, [Output(total - Value(paid), changeScript)]);
    assert Value([Output(total - Value(paid), changeScript)]) == total - Value(paid) + Value([]);
  }

  /** More net work never pays less. */
  lemma PayMonotone(a: nat, b: nat, total: nat, all: nat)
    requires all > 0 && a <= b
    ensures Pay(a, total, all) <= Pay(b, total, all)
  {
    Scale(a, b, total);
    var q := Part(a, total, all);
    Quotient(a * total, all, q);
    Quotient(b * total, all, q);
  }

  /** Machine widths the transaction builder relies on: every product fits 128 bits. */
  predicate Fits(total: nat, utxos: seq<nat>, miners: seq<Entry>) {
    && total < U64_LIMIT && Sum(utxos) < U64_LIMIT && NetWork(miners) < U128_LIMIT
    && forall i :: 0 <= i < |miners| ==> miners[i].netWork * total < U128_LIMIT
  }

  /** The outputs of a payout: those of the records paid, then one for the rest if it is more than
      dust; never more than the total. */
  ghost predicate IsPayout(miners: seq<Entry>, total: nat, all: nat, scriptOf: string -> seq<Byte>,
                           changeScript: seq<Byte>, outputs: seq<Output>)
    requires all > 0
  {
    var paid := Paid(miners, total, all, scriptOf);
    && PaysEach(miners, total, all, scriptOf, paid) && Value(paid) <= total && Value(outputs) <= total
    && outputs == paid + (if total - Value(paid) > 546 then [Output(total - Value(paid), changeScript)] else [])
  }

  lemma PaidIsPayout(miners: seq<Entry>, total: nat, scriptOf: string -> seq<Byte>, changeScript: seq<Byte>)
    requires NetWork(miners) > 0
    ensures var paid := Paid(miners, total, NetWork(miners), scriptOf);
            && Value(paid) <= total
            && IsPayout(miners, total, NetWork(miners), scriptOf, changeScript, WithChange(paid, total, changeScript))
  {
    var paid := Paid(miners, total, NetWork(miners), scriptOf);
    PayoutBounds(miners, total, scriptOf);
    PaidPaysEach(miners, total, NetWork(miners), scriptOf);
    OutputsSum(paid, total, changeScript);
    assert paid + [] == paid;
  }

  /** `build_payout_tx`, as far as values and scripts go. */
  method BuildPayout(total: nat, utxos: seq<nat>, miners: seq<Entry>, changeScript: seq<Byte>,
                     scriptOf: string -> seq<Byte>) returns (r: Built)
    requires Fits(total, utxos, miners)
    ensures r.Err? <==> miners == [] || Sum(utxos) < total || NetWork(miners) == 0
    ensures r.Err? ==>
              r.error == if miners == [] then NoMiners else if Sum(utxos) < total then InputsTooSmall else NoNetWork
    ensures r.Ok? ==>
              NetWork(miners) > 0 && total <= Sum(utxos)
              && IsPayout(miners, total, NetWork(miners), scriptOf, changeScript, r.outputs)
  {
    if miners == [] { return Err(NoMiners); }
    if Sum(utxos) < total { return Err(InputsTooSmall); }
    var all := NetWork(miners);
    if all == 0 { return Err(NoNetWork); }
    PaidIsPayout(miners, total, scriptOf, changeScript);
    var outputs, distributed := PayMiners(miners, total, all, scriptOf);
    var change := if total < distributed then 0 else total - distributed;
    if change > DUST {
      outputs := outputs + [Output(change, changeScript)];
    }
    r := Ok(outputs);
  }

  lemma OneMore(outputs: seq<Output>, o: Output, rest: seq<Output>)
    ensures Value(outputs + [o]) == Value(outputs) + o.value && outputs + ([o] + rest) == outputs + [o] + rest
  {
    ValueConcat(outputs, [o]);
    assert Value([o]) == o.value + Value([]);
  }

  /** The loop over the miners: one output per payout that is not dust. */
  method PayMiners(miners: seq<Entry>, total: nat, all: nat, scriptOf: string -> seq<Byte>)
      returns (outputs: seq<Output>, distributed: nat)
    requires all > 0 && forall i :: 0 <= i < |miners| ==> miners[i].netWork * total < U128_LIMIT
    ensures outputs == Paid(miners, total, all, scriptOf) && distributed == Value(outputs)
  {
    ghost var paid := Paid(miners, total, all, scriptOf);
    outputs := [];
    distributed := 0;
    for i := 0 to |miners|
      invariant outputs + Paid(miners[i..], total, all, scriptOf) == paid
      invariant distributed == Value(outputs)
    {
      assert miners[i..][1..] == miners[i + 1..];
      var effective := miners[i].netWork;
      if effective != 0 {
        assert effective * total < U128_LIMIT;
        var payout := effective * total / all;
        if payout >= DUST {
          var output := Output(payout, scriptOf(miners[i].miner));
          OneMore(outputs, output, Paid(miners[i + 1..], total, all, scriptOf));
          outputs := outputs + [output];
          distributed := distributed + payout;
        }
      }
      assert Piece(miners[i], total, all, scriptOf) == [] ==>
               [] + Paid(miners[i + 1..], total, all, scriptOf) == Paid(miners[i + 1..], total, all, scriptOf);
    }
    assert miners[|miners|..] == [] && outputs + [] == outputs;
  }

  // ----- Aggregation

  function NetOf(entries: seq<Entry>, miner: string): nat {
    if entries == [] then 0
    else (if entries[0].miner == miner then entries[0].netWork else 0) + NetOf(entries[1..], miner)
  }

  function WorkOf(entries: seq<Entry>, miner: string): nat {
    if entries == [] then 0
    else (if entries[0].miner == miner then entries[0].work else 0) + WorkOf(entries[1..], miner)
  }

  function SharesOf(entries: seq<Entry>, miner: string): nat {
    if entries == [] then 0
    else (if entries[0].miner == miner then entries[0].shares else 0) + SharesOf(entries[1..], miner)
  }

  predicate Has(entries: seq<Entry>, miner: string) {
    exists i :: 0 <= i < |entries| && entries[i].miner == miner
  }

  /** A miner's records added up. */
  function Total(entries: seq<Entry>, miner: string): Entry {
    Entry(miner, WorkOf(entries, miner), SharesOf(entries, miner), NetOf(entries, miner))
  }

  /** One entry per miner, each the sum of that miner's records; in no particular order. */
  ghost predicate IsAggregate(entries: seq<Entry>, r: seq<Entry>) {
    && (forall i, j :: 0 <= i < j < |r| ==> r[i].miner != r[j].miner)
    && (forall i :: 0 <= i < |r| ==> Has(entries, r[i].miner) && r[i] == Total(entries, r[i].miner))
    && (forall m :: Has(entries, m) ==> Has(r, m))
  }

  lemma {:induction false} TotalStep(entries: seq<Entry>, k: nat, miner: string)
    requires k < |entries|
    ensures var before, after, e := Total(entries[..k], miner), Total(entries[..k + 1], miner), entries[k];
            after == if e.miner == miner
                     then Entry(miner, before.work + e.work, before.shares + e.shares, before.netWork + e.netWork)
                     else before
  {
    var tail := entries[1..];
    if k == 0 {
      assert entries[..1][1..] == [] && entries[..0] == [];
    } else {
      TotalStep(tail, k - 1, miner);
      assert entries[..k][1..] == tail[..k - 1] && entries[..k + 1][1..] == tail[..k];
    }
  }

  ghost predicate Accumulates(entries: seq<Entry>, acc: map<string, Entry>) {
    && (forall m :: m in acc <==> Has(entries, m))
    && (forall m :: m in acc ==> acc[m] == Total(entries, m))
  }

  lemma HasStep(entries: seq<Entry>, k: nat, miner: string)
    requires k < |entries|
    ensures Has(entries[..k + 1], miner) <==> Has(entries[..k], miner) || entries[k].miner == miner
  {
    if Has(entries[..k], miner) {
      var i :| 0 <= i < k && entries[..k][i].miner == miner;
      assert entries[..k + 1][i].miner == miner;
    }
    assert entries[..k + 1][k] == entries[k];
    if Has(entries[..k + 1], miner) && entries[k].miner != miner {
      var i :| 0 <= i < k + 1 && entries[..k + 1][i].miner == miner;
      assert entries[..k][i].miner == miner;
    }
  }

  lemma {:induction false} AbsentIsZero(entries: seq<Entry>, miner: string)
    requires !Has(entries, miner)
    ensures Total(entries, miner) == Entry(miner, 0, 0, 0)
  {
    if entries != [] {
      HasCons(entries[0], entries[1..], miner);
      assert entries == [entries[0]] + entries[1..];
      AbsentIsZero(entries[1..], miner);
    }
  }

  lemma AccumulateStep(entries: seq<Entry>, k: nat, acc: map<string, Entry>, next: map<string, Entry>)
    requires k < |entries| && Accumulates(entries[..k], acc)
    requires var e := entries[k];
             next == acc[e.miner := if e.miner in acc
                                    then Entry(acc[e.miner].miner, acc[e.miner].work + e.work,
                                               acc[e.miner].shares + e.shares, acc[e.miner].netWork + e.netWork)
                                    else e]
    ensures Accumulates(entries[..k + 1], next)
  {
    forall m ensures m in next <==> Has(entries[..k + 1], m) {
      HasStep(entries, k, m);
    }
    forall m | m in next ensures next[m] == Total(entries[..k + 1], m) {
      TotalStep(entries, k, m);
      if m !in acc { AbsentIsZero(entries[..k], m); }
    }
  }

  /** `aggregate_by_miner`; the values leave the map in any order. */
  method AggregateByMiner(entries: seq<Entry>) returns (r: seq<Entry>)
    ensures IsAggregate(entries, r)
  {
    var acc: map<string, Entry> := map[];
    for k := 0 to |entries|
      invariant Accumulates(entries[..k], acc)
    {
      var e := entries[k];
      ghost var before := acc;
      if e.miner in acc {
        var a := acc[e.miner];
        acc := acc[e.miner := Entry(a.miner, a.work + e.work, a.shares + e.shares, a.netWork + e.netWork)];
      } else {
        acc := acc[e.miner := e];
      }
      AccumulateStep(entries, k, before, acc);
    }
    assert entries[..|entries|] == entries;
    r := ValuesInAnyOrder(entries, acc);
  }

  method ValuesInAnyOrder(ghost entries: seq<Entry>, acc: map<string, Entry>) returns (r: seq<Entry>)
    requires Accumulates(entries, acc)
    ensures IsAggregate(entries, r)
  {
    r := [];
    var todo := acc.Keys;
    while todo != {}
      invariant todo <= acc.Keys
      invariant forall i :: 0 <= i < |r| ==> r[i].miner in acc && r[i].miner !in todo && r[i] == acc[r[i].miner]
      invariant forall i, j :: 0 <= i < j < |r| ==> r[i].miner != r[j].miner
      invariant forall m :: m in acc && m !in todo ==> Has(r, m)
      decreases todo
    {
      var m :| m in todo;
      ghost var before := r;
      r := r + [acc[m]];
      todo := todo - {m};
      forall n | Has(before, n) ensures Has(r, n) {
        var i :| 0 <= i < |before| && before[i].miner == n;
        assert r[i].miner == n;
      }
      assert r[|before|].miner == m;
    }
  }

  // ----- Aggregation conserves, and never pays less

  function Without(entries: seq<Entry>, miner: string): seq<Entry> {
    if entries == [] then []
    else (if entries[0].miner == miner then [] else [entries[0]]) + Without(entries[1..], miner)
  }

  /** All work of a list, and all its shares. */
  function AllWork(entries: seq<Entry>): nat { if entries == [] then 0 else entries[0].work + AllWork(entries[1..]) }

  function AllShares(entries: seq<Entry>): nat {
    if entries == [] then 0 else entries[0].shares + AllShares(entries[1..])
  }

  lemma {:induction false} SplitOff(entries: seq<Entry>, miner: string, other: string)
    ensures var t, rest := Total(entries, miner), Without(entries, miner);
            && NetWork(entries) == t.netWork + NetWork(rest) && AllWork(entries) == t.work + AllWork(rest)
            && AllShares(entries) == t.shares + AllShares(rest)
    ensures other != miner ==> Total(Without(entries, miner), other) == Total(entries, other)
    ensures Has(Without(entries, miner), other) <==> Has(entries, other) && other != miner
  {
    if entries != [] {
      var e, rest := entries[0], Without(entries[1..], miner);
      SplitOff(entries[1..], miner, other);
      HasCons(e, entries[1..], other);
      HasCons(e, rest, other);
      assert entries == [e] + entries[1..];
      if e.miner == miner {
        assert Without(entries, miner) == rest;
      } else {
        assert Without(entries, miner) == [e] + rest;
        assert ([e] + rest)[1..] == rest;
      }
    }
  }

  lemma HasCons(e: Entry, rest: seq<Entry>, miner: string)
    ensures Has([e] + rest, miner) <==> e.miner == miner || Has(rest, miner)
  {
    assert ([e] + rest)[0] == e;
    if Has(rest, miner) {
      var i :| 0 <= i < |rest| && rest[i].miner == miner;
      assert ([e] + rest)[i + 1].miner == miner;
    }
    if Has([e] + rest, miner) && e.miner != miner {
      var i :| 0 <= i < |[e] + rest| && ([e] + rest)[i].miner == miner;
      assert rest[i - 1].miner == miner;
    }
  }

  /** The aggregated list has the same work, the same shares and the same net work, so it divides by
      the same denominator. */
  lemma {:induction false} AggregateConserves(entries: seq<Entry>, r: seq<Entry>)
    requires IsAggregate(entries, r)
    ensures NetWork(r) == NetWork(entries) && AllWork(r) == AllWork(entries) && AllShares(r) == AllShares(entries)
    decreases |r|
  {
    if r == [] {
      if entries != [] { assert Has(entries, entries[0].miner); }
    } else {
      var m, rest := r[0].miner, r[1..];
      var others := Without(entries, m);
      SplitOff(entries, m, m);
      forall i | 0 <= i < |rest| ensures Has(others, rest[i].miner) && rest[i] == Total(others, rest[i].miner) {
        assert rest[i] == r[i + 1];
        SplitOff(entries, m, rest[i].miner);
      }
      forall n | Has(others, n) ensures Has(rest, n) {
        SplitOff(entries, m, n);
        HasCons(r[0], rest, n);
        assert r == [r[0]] + rest;
      }
      AggregateConserves(others, rest);
    }
  }

  /** Everything one miner is paid from a list. */
  function PaidTo(entries: seq<Entry>, miner: string, total: nat, all: nat): nat
    requires all > 0
  {
    if entries == [] then 0
    else (if entries[0].miner == miner then Pay(entries[0].netWork, total, all) else 0)
         + PaidTo(entries[1..], miner, total, all)
  }

  /** That is exactly what the outputs before change hold for the miner's script, when no two
      addresses share one. */
  lemma {:induction false} PaidToIsToScript(entries: seq<Entry>, miner: string, total: nat, all: nat,
                                            scriptOf: string -> seq<Byte>)
    requires all > 0 && forall m, n :: scriptOf(m) == scriptOf(n) ==> m == n
    ensures ToScript(Paid(entries, total, all, scriptOf), scriptOf(miner)) == PaidTo(entries, miner, total, all)
  {
    if entries != [] {
      var piece, rest := Piece(entries[0], total, all, scriptOf), Paid(entries[1..], total, all, scriptOf);
      PaidToIsToScript(entries[1..], miner, total, all, scriptOf);
      OneRecord(entries[0].netWork, total, all);
      if piece == [] {
        assert piece + rest == rest;
      } else {
        assert (piece + rest)[1..] == rest;
      }
    }
  }

  lemma PaySuperadditive(a: nat, b: nat, total: nat, all: nat)
    requires all > 0
    ensures Pay(a, total, all) + Pay(b, total, all) <= Pay(a + b, total, all)
  {
    var p, q := Part(a, total, all), Part(b, total, all);
    PartBounds(a, total, all);
    PartBounds(b, total, all);
    Distribute(a, b, total);
    Distribute(p, q, all);
    Quotient((a + b) * total, all, p + q);
  }

  lemma {:induction false} SeparateAtMostTogether(entries: seq<Entry>, miner: string, total: nat, all: nat)
    requires all > 0
    ensures PaidTo(entries, miner, total, all) <= Pay(NetOf(entries, miner), total, all)
  {
    if entries != [] {
      SeparateAtMostTogether(entries[1..], miner, total, all);
      if entries[0].miner == miner {
        PaySuperadditive(entries[0].netWork, NetOf(entries[1..], miner), total, all);
      }
    }
  }

  lemma {:induction false} PaidToListed(r: seq<Entry>, k: nat, total: nat, all: nat)
    requires all > 0 && k < |r|
    ensures PaidTo(r, r[k].miner, total, all) >= Pay(r[k].netWork, total, all)
  {
    if k > 0 { PaidToListed(r[1..], k - 1, total, all); }
  }

  /** Paying the aggregated list gives each miner at least what its separate records would get. */
  lemma AggregatePaysNoLess(entries: seq<Entry>, r: seq<Entry>, miner: string, total: nat)
    requires IsAggregate(entries, r) && NetWork(entries) > 0
    ensures NetWork(r) == NetWork(entries)
    ensures PaidTo(r, miner, total, NetWork(r)) >= PaidTo(entries, miner, total, NetWork(entries))
  {
    AggregateConserves(entries, r);
    SeparateAtMostTogether(entries, miner, total, NetWork(entries));
    if Has(entries, miner) {
      PaidTotal(entries, r, miner, total, NetWork(entries));
    } else {
      AbsentIsZero(entries, miner);
      OneRecord(0, total, NetWork(entries));
    }
  }

  lemma PaidTotal(entries: seq<Entry>, r: seq<Entry>, miner: string, total: nat, all: nat)
    requires IsAggregate(entries, r) && Has(entries, miner) && all > 0
    ensures PaidTo(r, miner, total, all) >= Pay(NetOf(entries, miner), total, all)
  {
    assert Has(r, miner);
    var k :| 0 <= k < |r| && r[k].miner == miner;
    assert r[k] == Total(entries, miner);
    PaidToListed(r, k, total, all);
  }
}
