/** The two batch flushers. Both collect shares and hand them to a submitter that may fail; the
    sidecar's puts a batch back after a transient failure (`retries`), the solo server's does not. */
module Flusher {
  import opened Bytes

  datatype Outcome = Confirmed | Transient | Permanent

  /** What wakes the loop. `FlushAndWait` carries the number of the signal it asks for. */
  datatype Event<T> = Share(item: T) | Tick | Flush | FlushAndWait(signal: nat) | Close

  datatype Attempt<T> = Attempt(items: seq<T>, outcome: Outcome)

  /** `settled` are the batches the submitter is done with, `handed` every call to it. */
  datatype State<T> = State(batch: seq<T>, settled: seq<Attempt<T>>, handed: seq<Attempt<T>>,
                            signals: seq<nat>, closed: bool)

  datatype Config = Config(size: nat, retries: bool)

  function Start<T>(): State<T> { State([], [], [], [], false) }

  /** Whether the batch of a call is kept for another try. */
  predicate PutBack<T>(c: Config, call: Attempt<T>) { call.outcome.Transient? && c.retries }

  function Flushed<T>(c: Config, s: State<T>, outcome: Outcome): State<T> {
    if s.batch == [] then s
    else
      var call := Attempt(s.batch, outcome);
      if PutBack(c, call) then s.(handed := s.handed + [call])
      else s.(batch := [], settled := s.settled + [call], handed := s.handed + [call])
  }

  /** One turn of the loop; `outcome` is the submitter's answer if this turn submits. */
  function Step<T>(c: Config, s: State<T>, e: Event<T>, outcome: Outcome): State<T> {
    if s.closed then s
    else
      match e
      case Share(x) =>
        var s1 := s.(batch := s.batch + [x]);
        if |s1.batch| >= c.size then Flushed(c, s1, outcome) else s1
      case Tick => Flushed(c, s, outcome)
      case Flush => Flushed(c, s, outcome)
      case FlushAndWait(n) => Flushed(c, s, outcome).(signals := s.signals + [n])
      case Close => Flushed(c, s, outcome).(closed := true)
  }

  function Run<T>(c: Config, turns: seq<(Event<T>, Outcome)>): State<T> {
    if turns == [] then Start()
    else
      var last := turns[|turns| - 1];
      Step(c, Run(c, turns[..|turns| - 1]), last.0, last.1)
  }

  /** The shares the loop has taken from its channel: none after it closed. */
  function Received<T>(turns: seq<(Event<T>, Outcome)>): seq<T> {
    if turns == [] then []
    else
      var before, last := turns[..|turns| - 1], turns[|turns| - 1].0;
      Received(before) + (if last.Share? && !Closed(before) then [last.item] else [])
  }

  predicate Closed<T>(turns: seq<(Event<T>, Outcome)>) {
    exists i :: 0 <= i < |turns| && turns[i].0.Close?
  }

  function Items<T>(settled: seq<Attempt<T>>): seq<T> {
    if settled == [] then [] else Items(settled[..|settled| - 1]) + settled[|settled| - 1].items
  }

  lemma ItemsAppend<T>(settled: seq<Attempt<T>>, a: Attempt<T>)
    ensures Items(settled + [a]) == Items(settled) + a.items
  {
    assert (settled + [a])[..|settled|] == settled;
  }

  lemma FlushedKeepsOrder<T>(c: Config, s: State<T>, outcome: Outcome)
    ensures Items(Flushed(c, s, outcome).settled) + Flushed(c, s, outcome).batch == Items(s.settled) + s.batch
  {
    ItemsAppend(s.settled, Attempt(s.batch, outcome));
  }

  lemma StepKeepsOrder<T>(c: Config, s: State<T>, e: Event<T>, outcome: Outcome)
    ensures var t := Step(c, s, e, outcome);
            Items(t.settled) + t.batch
            == Items(s.settled) + s.batch + (if e.Share? && !s.closed then [e.item] else [])
  {
    var all := Items(s.settled) + s.batch;
    assert all + [] == all;
    if e.Share? && !s.closed {
      FlushedKeepsOrder(c, s.(batch := s.batch + [e.item]), outcome);
      Assoc(Items(s.settled), s.batch, [e.item]);
    } else {
      FlushedKeepsOrder(c, s, outcome);
    }
  }

  lemma {:induction false} ClosedState<T>(c: Config, turns: seq<(Event<T>, Outcome)>)
    ensures Run(c, turns).closed <==> Closed(turns)
  {
    if turns != [] {
      var before, last := turns[..|turns| - 1], turns[|turns| - 1];
      ClosedState(c, before);
      if Closed(before) {
        var i :| 0 <= i < |before| && before[i].0.Close?;
        assert turns[i].0.Close?;
      }
      assert last.0.Close? ==> turns[|turns| - 1].0.Close?;
      assert forall i :: 0 <= i < |turns| && turns[i].0.Close? && i < |before| ==> before[i].0.Close?;
    }
  }

  /** Nothing is lost, repeated or reordered: what was received is the settled batches in order
      followed by the current batch, for every sequence of events and outcomes. */
  lemma {:induction false} ReceivedIsSettledThenBatch<T>(c: Config, turns: seq<(Event<T>, Outcome)>)
    ensures Received(turns) == Items(Run(c, turns).settled) + Run(c, turns).batch
  {
    if turns != [] {
      var before, last := turns[..|turns| - 1], turns[|turns| - 1];
      var s := Run(c, before);
      ReceivedIsSettledThenBatch(c, before);
      ClosedState(c, before);
      StepKeepsOrder(c, s, last.0, last.1);
    }
  }

  /** A batch is dropped only after a permanent failure when transient ones are retried; otherwise
      after any failure. */
  lemma {:induction false} DropsOnlyPermanent<T>(c: Config, turns: seq<(Event<T>, Outcome)>, k: nat)
    requires c.retries && k < |Run(c, turns).settled|
    ensures !Run(c, turns).settled[k].outcome.Transient?
  {
    var before, last := turns[..|turns| - 1], turns[|turns| - 1];
    var s := Run(c, before);
    if k < |s.settled| { DropsOnlyPermanent(c, before, k); }
  }

  // ----- When a call is made

  /** What has been received and not settled. */
  function Unsettled<T>(c: Config, turns: seq<(Event<T>, Outcome)>): seq<T> {
    var done := |Items(Run(c, turns).settled)|;
    if done <= |Received(turns)| then Received(turns)[done..] else []
  }

  lemma UnsettledIsBatch<T>(c: Config, turns: seq<(Event<T>, Outcome)>)
    ensures Unsettled(c, turns) == Run(c, turns).batch
    ensures |Items(Run(c, turns).settled)| <= |Received(turns)|
  {
    ReceivedIsSettledThenBatch(c, turns);
  }

  lemma RunTurn<T>(c: Config, before: seq<(Event<T>, Outcome)>, e: Event<T>, outcome: Outcome)
    ensures Run(c, before + [(e, outcome)]) == Step(c, Run(c, before), e, outcome)
  {
    assert (before + [(e, outcome)])[..|before|] == before;
  }

  /** A tick, a flush of either kind and the close hand over everything received and not settled, in
      one call if there is anything. After it nothing waits, unless the call failed transiently and
      is to be retried; then exactly its shares do. Only a flush that is waited for is answered. */
  lemma FlushTurn<T>(c: Config, before: seq<(Event<T>, Outcome)>, e: Event<T>, outcome: Outcome)
    requires !Closed(before) && !e.Share?
    ensures var s, t, rest := Run(c, before), Run(c, before + [(e, outcome)]), Unsettled(c, before);
            && t.handed == s.handed + (if rest == [] then [] else [Attempt(rest, outcome)])
            && Unsettled(c, before + [(e, outcome)]) == (if c.retries && outcome.Transient? then rest else [])
            && t.signals == s.signals + (if e.FlushAndWait? then [e.signal] else [])
  {
    ClosedState(c, before);
    UnsettledIsBatch(c, before);
    UnsettledIsBatch(c, before + [(e, outcome)]);
    RunTurn(c, before, e, outcome);
  }

  /** A share is handed over at once, with all that waits, exactly when it fills the batch. */
  lemma ShareTurn<T>(c: Config, before: seq<(Event<T>, Outcome)>, item: T, outcome: Outcome)
    requires !Closed(before)
    ensures var s, t, rest := Run(c, before), Run(c, before + [(Share(item), outcome)]), Unsettled(c, before) + [item];
            && t.handed == s.handed + (if |rest| >= c.size then [Attempt(rest, outcome)] else [])
            && t.signals == s.signals
            && Unsettled(c, before + [(Share(item), outcome)])
            == (if |rest| < c.size || (c.retries && outcome.Transient?) then rest else [])
  {
    ClosedState(c, before);
    UnsettledIsBatch(c, before);
    UnsettledIsBatch(c, before + [(Share(item), outcome)]);
    RunTurn(c, before, Share(item), outcome);
  }

  // ----- Calls to the submitter

  /** The calls after which the submitter is done with the batch. */
  function Final<T>(c: Config, calls: seq<Attempt<T>>): seq<Attempt<T>> {
    if calls == [] then []
    else
      var last := calls[|calls| - 1];
      Final(c, calls[..|calls| - 1]) + (if PutBack(c, last) then [] else [last])
  }

  lemma FinalAppend<T>(c: Config, calls: seq<Attempt<T>>, call: Attempt<T>)
    ensures Final(c, calls + [call]) == Final(c, calls) + (if PutBack(c, call) then [] else [call])
  {
    assert (calls + [call])[..|calls|] == calls;
  }

  /** Each call carries what was received from where the settled batches ended. */
  ghost predicate CallsFollow<T>(c: Config, handed: seq<Attempt<T>>, received: seq<T>) {
    forall k :: 0 <= k < |handed| ==> Items(Final(c, handed[..k])) + handed[k].items <= received
  }

  lemma CallsFollowLonger<T>(c: Config, handed: seq<Attempt<T>>, received: seq<T>, more: seq<T>)
    requires CallsFollow(c, handed, received)
    ensures CallsFollow(c, handed, received + more)
  {
  }

  lemma CallFollows<T>(c: Config, handed: seq<Attempt<T>>, call: Attempt<T>, received: seq<T>)
    requires CallsFollow(c, handed, received) && Items(Final(c, handed)) + call.items <= received
    ensures CallsFollow(c, handed + [call], received)
  {
    var all := handed + [call];
    forall k | 0 <= k < |all| ensures Items(Final(c, all[..k])) + all[k].items <= received {
      assert all[..k] == if k < |handed| then handed[..k] else handed;
    }
  }

  lemma FlushedFollows<T>(c: Config, s: State<T>, outcome: Outcome)
    requires s.settled == Final(c, s.handed) && CallsFollow(c, s.handed, Items(s.settled) + s.batch)
    ensures var t := Flushed(c, s, outcome);
            t.settled == Final(c, t.handed) && CallsFollow(c, t.handed, Items(s.settled) + s.batch)
  {
    if s.batch != [] {
      FinalAppend(c, s.handed, Attempt(s.batch, outcome));
      CallFollows(c, s.handed, Attempt(s.batch, outcome), Items(s.settled) + s.batch);
      assert s.settled + [] == s.settled;
    }
  }

  ghost predicate Follows<T>(c: Config, s: State<T>) {
    s.settled == Final(c, s.handed) && CallsFollow(c, s.handed, Items(s.settled) + s.batch)
  }

  lemma FlushKeepsFollowing<T>(c: Config, s: State<T>, outcome: Outcome)
    requires Follows(c, s)
    ensures Follows(c, Flushed(c, s, outcome))
  {
    FlushedFollows(c, s, outcome);
    FlushedKeepsOrder(c, s, outcome);
  }

  lemma ShareKeepsFollowing<T>(c: Config, s: State<T>, item: T)
    requires Follows(c, s)
    ensures Follows(c, s.(batch := s.batch + [item]))
  {
    CallsFollowLonger(c, s.handed, Items(s.settled) + s.batch, [item]);
    Assoc(Items(s.settled), s.batch, [item]);
  }

  lemma StepFollows<T>(c: Config, s: State<T>, e: Event<T>, outcome: Outcome)
    requires Follows(c, s)
    ensures Follows(c, Step(c, s, e, outcome))
  {
    if e.Share? {
      ShareKeepsFollowing(c, s, e.item);
      FlushKeepsFollowing(c, s.(batch := s.batch + [e.item]), outcome);
    } else {
      FlushKeepsFollowing(c, s, outcome);
    }
  }

  /** In every run each call hands over exactly the received shares from where the settled batches
      ended, skipping and repeating none, and the settled batches are the calls not put back. */
  lemma {:induction false} CallsFollowSettled<T>(c: Config, turns: seq<(Event<T>, Outcome)>)
    ensures var s := Run(c, turns);
            s.settled == Final(c, s.handed) && CallsFollow(c, s.handed, Received(turns))
  {
    if turns != [] {
      var before, last := turns[..|turns| - 1], turns[|turns| - 1];
      CallsFollowSettled(c, before);
      ReceivedIsSettledThenBatch(c, before);
      StepFollows(c, Run(c, before), last.0, last.1);
    }
    ReceivedIsSettledThenBatch(c, turns);
  }

  lemma PrefixTail<T>(a: seq<T>, x: seq<T>, y: seq<T>, all: seq<T>)
    requires a + x <= all && a + y <= all && |x| <= |y|
    ensures x <= y
  {
    assert forall i :: 0 <= i < |x| ==> x[i] == (a + x)[|a| + i] == all[|a| + i] == (a + y)[|a| + i] == y[i];
  }

  lemma FinalSkips<T>(c: Config, calls: seq<Attempt<T>>, k: nat)
    requires k < |calls| && PutBack(c, calls[k])
    ensures Final(c, calls[..k + 1]) == Final(c, calls[..k])
  {
    assert calls[..k + 1][..k] == calls[..k];
  }

  lemma FollowAgain<T>(c: Config, handed: seq<Attempt<T>>, received: seq<T>, k: nat)
    requires CallsFollow(c, handed, received) && k + 1 < |handed| && PutBack(c, handed[k])
    requires |handed[k].items| <= |handed[k + 1].items|
    ensures handed[k].items <= handed[k + 1].items
  {
    FinalSkips(c, handed, k);
    var (done, x, y) := (Items(Final(c, handed[..k])), handed[k].items, handed[k + 1].items);
    assert done + x <= received && done + y <= received;
    PrefixTail(done, x, y, received);
  }

  lemma FollowBatch<T>(c: Config, handed: seq<Attempt<T>>, batch: seq<T>)
    requires handed != [] && PutBack(c, handed[|handed| - 1]) && |handed[|handed| - 1].items| <= |batch|
    requires CallsFollow(c, handed, Items(Final(c, handed)) + batch)
    ensures handed[|handed| - 1].items <= batch
  {
    var k := |handed| - 1;
    FinalSkips(c, handed, k);
    assert handed[..k + 1] == handed;
    var done := Items(Final(c, handed));
    assert done + handed[k].items <= done + batch;
    PrefixTail(done, handed[k].items, batch, done + batch);
  }

  /** With retries a batch that failed transiently comes back whole and in front: the next call,
      or the batch still waiting, starts with it. */
  lemma TransientComesBack<T>(c: Config, turns: seq<(Event<T>, Outcome)>, k: nat)
    requires c.retries && k < |Run(c, turns).handed| && Run(c, turns).handed[k].outcome.Transient?
    ensures var s := Run(c, turns);
            s.handed[k].items <= if k + 1 < |s.handed| then s.handed[k + 1].items else s.batch
  {
    var s := Run(c, turns);
    CallsFollowSettled(c, turns);
    CallsGrow(c, turns);
    ReceivedIsSettledThenBatch(c, turns);
    PutBackFollows(c, s.handed, s.batch, k);
  }

  lemma PutBackFollows<T>(c: Config, handed: seq<Attempt<T>>, batch: seq<T>, k: nat)
    requires k < |handed| && PutBack(c, handed[k]) && Growing(c, handed, |batch|)
    requires CallsFollow(c, handed, Items(Final(c, handed)) + batch)
    ensures handed[k].items <= if k + 1 < |handed| then handed[k + 1].items else batch
  {
    assert |handed[k].items| <= NextSize(handed, k, |batch|);
    if k + 1 < |handed| {
      FollowAgain(c, handed, Items(Final(c, handed)) + batch, k);
    } else {
      FollowBatch(c, handed, batch);
    }
  }

  /** Without retries every call settles its batch whatever the outcome, so no share is handed
      over twice. */
  lemma EveryCallSettles<T>(c: Config, turns: seq<(Event<T>, Outcome)>)
    requires !c.retries
    ensures Run(c, turns).settled == Run(c, turns).handed
  {
    CallsFollowSettled(c, turns);
    AllFinal(c, Run(c, turns).handed);
  }

  lemma {:induction false} AllFinal<T>(c: Config, calls: seq<Attempt<T>>)
    requires !c.retries
    ensures Final(c, calls) == calls
  {
    if calls != [] {
      AllFinal(c, calls[..|calls| - 1]);
      assert calls == calls[..|calls| - 1] + [calls[|calls| - 1]];
    }
  }

  /** A batch put back never shrinks before its next call; `waiting` is the size of the current one. */
  ghost predicate Growing<T>(c: Config, handed: seq<Attempt<T>>, waiting: nat) {
    forall k :: 0 <= k < |handed| && PutBack(c, handed[k]) ==> |handed[k].items| <= NextSize(handed, k, waiting)
  }

  function NextSize<T>(handed: seq<Attempt<T>>, k: nat, waiting: nat): nat {
    if k + 1 < |handed| then |handed[k + 1].items| else waiting
  }

  lemma WaitingLonger<T>(c: Config, handed: seq<Attempt<T>>, waiting: nat, more: nat)
    requires Growing(c, handed, waiting) && waiting <= more
    ensures Growing(c, handed, more)
  {
    forall k | 0 <= k < |handed| && PutBack(c, handed[k]) ensures |handed[k].items| <= NextSize(handed, k, more) {
      assert |handed[k].items| <= NextSize(handed, k, waiting);
    }
  }

  lemma CallGrows<T>(c: Config, handed: seq<Attempt<T>>, call: Attempt<T>)
    requires Growing(c, handed, |call.items|)
    ensures Growing(c, handed + [call], if PutBack(c, call) then |call.items| else 0)
  {
    var all, waiting := handed + [call], if PutBack(c, call) then |call.items| else 0;
    forall k | 0 <= k < |all| && PutBack(c, all[k]) ensures |all[k].items| <= NextSize(all, k, waiting) {
      if k < |handed| {
        assert all[k] == handed[k];
        assert |handed[k].items| <= NextSize(handed, k, |call.items|);
      }
    }
  }

  lemma StepGrows<T>(c: Config, s: State<T>, e: Event<T>, outcome: Outcome)
    requires Growing(c, s.handed, |s.batch|)
    ensures var t := Step(c, s, e, outcome); Growing(c, t.handed, |t.batch|)
  {
    var batch := if e.Share? then s.batch + [e.item] else s.batch;
    WaitingLonger(c, s.handed, |s.batch|, |batch|);
    CallGrows(c, s.handed, Attempt(batch, outcome));
  }

  lemma {:induction false} CallsGrow<T>(c: Config, turns: seq<(Event<T>, Outcome)>)
    ensures Growing(c, Run(c, turns).handed, |Run(c, turns).batch|)
  {
    if turns != [] {
      var last := turns[|turns| - 1];
      CallsGrow(c, turns[..|turns| - 1]);
      StepGrows(c, Run(c, turns[..|turns| - 1]), last.0, last.1);
    }
  }

  /** When the solo flusher answers a `FlushAndWait`, every share queued before it has been handed
      to the submitter and settled. */
  lemma SignalMeansHandedOver<T>(c: Config, turns: seq<(Event<T>, Outcome)>, n: nat)
    requires !c.retries && turns != [] && turns[|turns| - 1].0 == FlushAndWait(n)
    requires !Closed(turns[..|turns| - 1])
    ensures var s := Run(c, turns);
            && s.signals == Run(c, turns[..|turns| - 1]).signals + [n]
            && s.batch == [] && Items(s.settled) == Received(turns) == Received(turns[..|turns| - 1])
  {
    ClosedState(c, turns[..|turns| - 1]);
    ReceivedIsSettledThenBatch(c, turns);
  }

  lemma CloseStep<T>(c: Config, before: seq<(Event<T>, Outcome)>, outcome: Outcome)
    requires !Closed(before)
    ensures var turns := before + [(Close, outcome)];
            && Run(c, turns) == Flushed(c, Run(c, before), outcome).(closed := true)
            && Received(turns) == Received(before) && Closed(turns)
  {
    var turns := before + [(Close, outcome)];
    assert turns[..|before|] == before && turns[|before|].0.Close?;
    ClosedState(c, before);
  }

  lemma StaysClosed<T>(turns: seq<(Event<T>, Outcome)>, after: seq<(Event<T>, Outcome)>)
    requires Closed(turns)
    ensures Closed(turns + after)
  {
    var i :| 0 <= i < |turns| && turns[i].0.Close?;
    assert (turns + after)[i].0.Close?;
  }

  lemma IgnoredTurn<T>(c: Config, turns: seq<(Event<T>, Outcome)>, last: (Event<T>, Outcome))
    requires Closed(turns)
    ensures Run(c, turns + [last]) == Run(c, turns) && Received(turns + [last]) == Received(turns)
  {
    assert (turns + [last])[..|turns|] == turns;
    ClosedState(c, turns);
    assert Received(turns) + [] == Received(turns);
  }

  lemma {:induction false} NothingAfterClose<T>(c: Config, turns: seq<(Event<T>, Outcome)>,
                                                after: seq<(Event<T>, Outcome)>)
    requires Closed(turns)
    ensures Run(c, turns + after) == Run(c, turns) && Received(turns + after) == Received(turns)
  {
    if after == [] {
      assert turns + after == turns;
    } else {
      var front, last := after[..|after| - 1], after[|after| - 1];
      NothingAfterClose(c, turns, front);
      StaysClosed(turns, front);
      IgnoredTurn(c, turns + front, last);
      assert turns + after == turns + front + [last];
    }
  }

  /** Whatever comes after the channel closes, the shares received are settled for good except those
      still unsettled at that moment, and these exactly when the last submission failed transiently
      and is to be retried. */
  lemma LeftAtClose<T>(c: Config, before: seq<(Event<T>, Outcome)>, outcome: Outcome,
                       after: seq<(Event<T>, Outcome)>)
    requires !Closed(before)
    ensures var s, done := Run(c, before + [(Close, outcome)] + after), |Items(Run(c, before).settled)|;
            && done <= |Received(before)|
            && s.batch == (if c.retries && outcome.Transient? then Received(before)[done..] else [])
            && Items(s.settled) + s.batch == Received(before) == Received(before + [(Close, outcome)] + after)
  {
    var closed := before + [(Close, outcome)];
    CloseStep(c, before, outcome);
    NothingAfterClose(c, closed, after);
    ReceivedIsSettledThenBatch(c, before);
    ReceivedIsSettledThenBatch(c, closed);
    BatchIsTail(Items(Run(c, before).settled), Run(c, before).batch);
  }

  lemma BatchIsTail<T>(done: seq<T>, batch: seq<T>)
    ensures (done + batch)[|done|..] == batch
  {
  }

  /** Without retries a batch never outgrows its size, so no call to the submitter does. */
  lemma {:induction false} BatchBounded<T>(c: Config, turns: seq<(Event<T>, Outcome)>)
    requires !c.retries
    ensures var limit := if c.size == 0 then 1 else c.size;
            && |Run(c, turns).batch| < limit
            && forall k :: 0 <= k < |Run(c, turns).handed| ==> 1 <= |Run(c, turns).handed[k].items| <= limit
  {
    if turns != [] { BatchBounded(c, turns[..|turns| - 1]); }
  }

  // ----- The loops

  class BatchFlusher<T> {
    const config: Config
    var batch: seq<T>
    var settled: seq<Attempt<T>>
    var handed: seq<Attempt<T>>
    var signals: seq<nat>
    var closed: bool

    ghost function View(): State<T>
      reads this
    {
      State(batch, settled, handed, signals, closed)
    }

    constructor (config: Config)
      ensures View() == Start() && this.config == config
    {
      this.config := config;
      batch, settled, handed, signals, closed := [], [], [], [], false;
    }

    /** `flush`: drain the batch, submit it, and put it back or settle it. */
    method FlushBatch(outcome: Outcome)
      modifies this
      ensures View() == Flushed(config, old(View()), outcome)
    {
      if batch == [] { return; }
      var items := batch;
      batch := [];
      handed := handed + [Attempt(items, outcome)];
      if outcome.Transient? && config.retries {
        batch := batch + items;
      } else {
        settled := settled + [Attempt(items, outcome)];
      }
    }

    /** `batch_flusher` and `miner_batch_flusher`: turns until the channel closes. */
    method Loop(turns: seq<(Event<T>, Outcome)>)
      requires View() == Start()
      modifies this
      ensures View() == Run(config, turns)
    {
      for i := 0 to |turns|
        invariant View() == Run(config, turns[..i])
      {
        assert turns[..i + 1][..i] == turns[..i];
        if !closed {
          var (event, outcome) := turns[i];
          match event
          case Share(x) =>
            batch := batch + [x];
            if |batch| >= config.size { FlushBatch(outcome); }
          case Tick => FlushBatch(outcome);
          case Flush => FlushBatch(outcome);
          case FlushAndWait(n) =>
            FlushBatch(outcome);
            signals := signals + [n];
          case Close =>
            FlushBatch(outcome);
            closed := true;
        }
      }
      assert turns[..|turns|] == turns;
    }
  }
}
