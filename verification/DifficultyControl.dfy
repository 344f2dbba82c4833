/** Two controllers, the connections and the share path all move difficulties. Each step below is
    what happens under one lock; runs are arbitrary interleavings of steps. */
module DifficultyControl {
  import opened Arithmetic
  import opened Bytes

  type Addr = nat

  /** Where the global tuner stands: its read, its write and its push are separate steps. */
  datatype Tuner = Resting | HasRead(current: nat) | WillWrite(next: nat) | WillPush(pushed: nat)

  /** Where a connection stands. `Weighing` holds the difficulty a share was read against. */
  datatype Conn = Connecting(seen: nat) | Ready | Weighing(required: nat) | Accepting | Finishing(floor: nat)

  datatype Accept = Accept(addr: Addr, achieved: nat, required: nat)

  datatype State = State(initial: nat, global: nat, lastPoolMin: nat, miners: map<Addr, nat>,
                         conns: map<Addr, Conn>, syncPush: Option<nat>, tuner: Tuner, accepted: seq<Accept>)

  datatype Event =
    | PoolSync(poolMin: nat) | SyncPush
    | TunerRead | Drought | Retarget(adjusted: nat) | DeadZone | TunerWrite | TunerPush
    | Arrive(addr: Addr) | Join(addr: Addr) | Leave(addr: Addr) | Break(addr: Addr)
    | ReadMiner(addr: Addr) | Weigh(addr: Addr, achieved: nat) | ReadGlobal(addr: Addr) | WriteMiner(addr: Addr)

  function Max(a: nat, b: nat): nat { if a < b then b else a }

  function Init(initial: nat): State {
    State(initial, initial, initial, map[], map[], None, Resting, [])
  }

  /** `set_difficulty_all_miners`: raises to the floor, never lowers. */
  function Raised(miners: map<Addr, nat>, floor: nat): map<Addr, nat> {
    map a | a in miners :: Max(miners[a], Max(floor, 1))
  }

  function Synced(s: State, poolMin: nat): State {
    if poolMin == s.lastPoolMin then s
    else
      var g := if s.global < poolMin then poolMin
               else if poolMin < s.lastPoolMin then Max(s.global * poolMin / s.lastPoolMin, s.initial)
               else s.global;
      s.(global := g, lastPoolMin := poolMin, syncPush := Some(g))
  }

  /** A step that is not enabled leaves the state as it is. `Break` is a connection that ends on a
      write error: its miner stays listed. */
  function Step(s: State, e: Event): State {
    match e
    case PoolSync(p) => if s.syncPush.None? then Synced(s, p) else s
    case SyncPush =>
      if s.syncPush.Some? then s.(miners := Raised(s.miners, s.syncPush.value), syncPush := None) else s
    case TunerRead => if s.tuner.Resting? then s.(tuner := HasRead(s.global)) else s
    case Drought =>
      if s.tuner.HasRead? then
        var next := Max(s.tuner.current / 2, s.initial);
        s.(tuner := if next < s.tuner.current then WillWrite(next) else Resting)
      else s
    case Retarget(adjusted) =>
      if s.tuner.HasRead? then
        var next := Max(adjusted, s.initial);
        s.(tuner := if next != s.tuner.current then WillWrite(next) else Resting)
      else s
    case DeadZone => if s.tuner.HasRead? then s.(tuner := Resting) else s
    case TunerWrite =>
      if s.tuner.WillWrite? then s.(global := s.tuner.next, tuner := WillPush(s.tuner.next)) else s
    case TunerPush =>
      if s.tuner.WillPush? then s.(miners := Raised(s.miners, s.tuner.pushed), tuner := Resting) else s
    case Arrive(a) => if a !in s.conns then s.(conns := s.conns[a := Connecting(s.global)]) else s
    case Join(a) =>
      if a in s.conns && s.conns[a].Connecting?
      then s.(miners := s.miners[a := s.conns[a].seen], conns := s.conns[a := Ready]) else s
    case Leave(a) =>
      if a in s.conns && s.conns[a].Ready? then s.(miners := s.miners - {a}, conns := s.conns - {a}) else s
    case Break(a) => if a in s.conns && s.conns[a].Ready? then s.(conns := s.conns - {a}) else s
    case ReadMiner(a) =>
      if a in s.conns && s.conns[a].Ready? && a in s.miners then s.(conns := s.conns[a := Weighing(s.miners[a])]) else s
    case Weigh(a, achieved) =>
      if a in s.conns && s.conns[a].Weighing? then
        if achieved < s.conns[a].required then s.(conns := s.conns[a := Ready])
        else s.(conns := s.conns[a := Accepting],
                accepted := s.accepted + [Accept(a, achieved, s.conns[a].required)])
      else s
    case ReadGlobal(a) =>
      if a in s.conns && s.conns[a].Accepting? then s.(conns := s.conns[a := Finishing(s.global)]) else s
    case WriteMiner(a) =>
      if a in s.conns && s.conns[a].Finishing? then
        s.(miners := if a in s.miners then s.miners[a := s.conns[a].floor] else s.miners,
           conns := s.conns[a := Ready])
      else s
  }

  function Continue(s: State, events: seq<Event>): State {
    if events == [] then s else Step(Continue(s, events[..|events| - 1]), events[|events| - 1])
  }

  function Run(initial: nat, events: seq<Event>): State {
    Continue(Init(initial), events)
  }

  // ----- The floor

  /** Every difficulty in the state, stored or held between two locks, is at least the initial one. */
  ghost predicate Floored(s: State) {
    && s.initial <= s.global
    && (s.syncPush.Some? ==> s.initial <= s.syncPush.value)
    && TunerFloored(s.tuner, s.initial)
    && (forall a :: a in s.miners ==> s.initial <= s.miners[a])
    && (forall a :: a in s.conns ==> ConnFloored(s.conns[a], s.initial))
    && (forall i :: 0 <= i < |s.accepted| ==> AcceptFloored(s.accepted[i], s.initial))
  }

  predicate TunerFloored(t: Tuner, initial: nat) {
    match t
    case WillWrite(n) => initial <= n
    case WillPush(n) => initial <= n
    case _ => true
  }

  predicate ConnFloored(c: Conn, initial: nat) {
    match c
    case Connecting(n) => initial <= n
    case Weighing(n) => initial <= n
    case Finishing(n) => initial <= n
    case _ => true
  }

  predicate AcceptFloored(a: Accept, initial: nat) {
    initial <= a.required <= a.achieved
  }

  lemma WeighKeepsFloor(s: State, a: Addr, achieved: nat)
    requires Floored(s)
    ensures Floored(Step(s, Weigh(a, achieved)))
  {
    var t := Step(s, Weigh(a, achieved));
    if a in s.conns && s.conns[a].Weighing? { assert ConnFloored(s.conns[a], s.initial); }
    assert forall i :: 0 <= i < |s.accepted| ==> t.accepted[i] == s.accepted[i];
  }

  lemma ShareKeepsFloor(s: State, e: Event)
    requires Floored(s) && (e.ReadMiner? || e.ReadGlobal? || e.WriteMiner?)
    ensures Floored(Step(s, e)) && Step(s, e).initial == s.initial
  {
    if e.addr in s.conns { assert ConnFloored(s.conns[e.addr], s.initial); }
  }

  lemma StepKeepsFloor(s: State, e: Event)
    requires Floored(s)
    ensures Floored(Step(s, e)) && Step(s, e).initial == s.initial
  {
    match e
    case Weigh(a, achieved) => WeighKeepsFloor(s, a, achieved);
    case Join(a) => if a in s.conns { assert ConnFloored(s.conns[a], s.initial); }
    case ReadMiner(_) => ShareKeepsFloor(s, e);
    case ReadGlobal(_) => ShareKeepsFloor(s, e);
    case WriteMiner(_) => ShareKeepsFloor(s, e);
    case _ =>
  }

  /** In every interleaving no difficulty falls below the initial one, so every accepted share meets it. */
  lemma {:induction false} NeverBelowInitial(initial: nat, events: seq<Event>)
    ensures Floored(Run(initial, events)) && Run(initial, events).initial == initial
  {
    if events != [] {
      NeverBelowInitial(initial, events[..|events| - 1]);
      StepKeepsFloor(Run(initial, events[..|events| - 1]), events[|events| - 1]);
    }
  }

  /** A connection past the comparison has an accepted share on record. */
  ghost predicate Linked(s: State) {
    forall a :: a in s.conns && (s.conns[a].Accepting? || s.conns[a].Finishing?) ==> HasAccept(s.accepted, a)
  }

  ghost predicate HasAccept(log: seq<Accept>, a: Addr) {
    exists i :: 0 <= i < |log| && log[i].addr == a
  }

  lemma StepKeepsLinks(s: State, e: Event)
    requires Linked(s)
    ensures Linked(Step(s, e))
  {
    var t := Step(s, e);
    assert s.accepted <= t.accepted;
    forall a | HasAccept(s.accepted, a) ensures HasAccept(t.accepted, a) {
      var i :| 0 <= i < |s.accepted| && s.accepted[i].addr == a;
      assert t.accepted[i].addr == a;
    }
    if e.Weigh? && t.accepted != s.accepted {
      assert t.accepted[|s.accepted|].addr == e.addr;
    }
  }

  lemma {:induction false} AlwaysLinked(initial: nat, events: seq<Event>)
    ensures Linked(Run(initial, events))
  {
    if events != [] {
      AlwaysLinked(initial, events[..|events| - 1]);
      StepKeepsLinks(Run(initial, events[..|events| - 1]), events[|events| - 1]);
    }
  }

  /** After any run, a connected miner's difficulty falls only in the last step of its own accepted
      share, and then to the global value read just before. */
  lemma FallsOnlyOnOwnShare(initial: nat, events: seq<Event>, e: Event, a: Addr)
    requires var s := Run(initial, events);
             && a in s.conns && !s.conns[a].Connecting? && a in s.miners && a in Step(s, e).miners
             && Step(s, e).miners[a] < s.miners[a]
    ensures var s := Run(initial, events);
            && e == WriteMiner(a) && HasAccept(s.accepted, a)
            && s.conns[a] == Finishing(Step(s, e).miners[a])
  {
    AlwaysLinked(initial, events);
  }

  // ----- What each controller brings about

  /** A push leaves every listed miner at the value pushed or above (never below one), leaves alone
      whoever is there already, and lists nobody new. */
  predicate PushedTo(before: map<Addr, nat>, floor: nat, after: map<Addr, nat>) {
    && after.Keys == before.Keys
    && forall a :: a in after ==>
         && after[a] >= floor && after[a] >= 1
         && (if before[a] >= floor && before[a] >= 1 then after[a] == before[a] else after[a] == Max(floor, 1))
  }

  lemma RaisedPushes(before: map<Addr, nat>, floor: nat)
    ensures PushedTo(before, floor, Raised(before, floor))
  {
  }

  /** Both pushes reach every listed miner, and change nothing else of what miners and pool see. */
  lemma PushesReachAll(s: State, e: Event)
    requires (e.SyncPush? && s.syncPush.Some?) || (e.TunerPush? && s.tuner.WillPush?)
    ensures PushedTo(s.miners, if e.SyncPush? then s.syncPush.value else s.tuner.pushed, Step(s, e).miners)
    ensures Step(s, e).global == s.global && Step(s, e).conns == s.conns
  {
    RaisedPushes(s.miners, if e.SyncPush? then s.syncPush.value else s.tuner.pushed);
  }

  /** A new minimum above the global difficulty becomes it; one that came down scales it in
      proportion, rounded down but not below the initial one; else it stays. The value is pushed. */
  lemma SyncScales(s: State, poolMin: nat)
    requires s.syncPush.None? && poolMin != s.lastPoolMin
    ensures var t := Step(s, PoolSync(poolMin));
            && t.lastPoolMin == poolMin && t.syncPush == Some(t.global) && t.miners == s.miners
            && (s.global < poolMin ==> t.global == poolMin)
            && (s.global >= poolMin > s.lastPoolMin ==> t.global == s.global)
            && (s.global >= poolMin && poolMin < s.lastPoolMin ==>
                  t.global >= s.initial
                  && (forall g: nat :: g > s.initial ==> (t.global >= g <==> s.lastPoolMin * g <= s.global * poolMin)))
  {
    if s.global >= poolMin && poolMin < s.lastPoolMin {
      forall g: nat ensures s.global * poolMin / s.lastPoolMin >= g <==> s.lastPoolMin * g <= s.global * poolMin {
        Quotient(s.global * poolMin, s.lastPoolMin, g);
      }
    }
  }

  /** The value a tuner decision asks for. */
  function Wanted(s: State, decision: Event): nat {
    match decision
    case Drought => Max(s.global / 2, s.initial)
    case Retarget(adjusted) => Max(adjusted, s.initial)
    case _ => s.global
  }

  /** An undisturbed pass of the tuner leaves the global difficulty at the value it asked for, a
      drought's half or a retarget's product, kept at the initial one; if that is a change, every
      miner is brought up to it, and else no miner is touched. */
  lemma TunerPassSets(s: State, decision: Event)
    requires s.tuner.Resting? && s.initial <= s.global
    requires decision.Drought? || decision.Retarget? || decision.DeadZone?
    ensures var t := Step(Step(Step(Step(s, TunerRead), decision), TunerWrite), TunerPush);
            && t.tuner.Resting? && t.global == Wanted(s, decision)
            && (if t.global == s.global then t.miners == s.miners else PushedTo(s.miners, t.global, t.miners))
  {
    RaisedPushes(s.miners, Wanted(s, decision));
  }

  predicate Concerns(e: Event, a: Addr) {
    match e
    case Arrive(b) => b == a
    case Join(b) => b == a
    case Leave(b) => b == a
    case Break(b) => b == a
    case ReadMiner(b) => b == a
    case Weigh(b, _) => b == a
    case ReadGlobal(b) => b == a
    case WriteMiner(b) => b == a
    case _ => false
  }

  lemma {:induction false} ConnWaits(s: State, events: seq<Event>, a: Addr)
    requires forall i :: 0 <= i < |events| ==> !Concerns(events[i], a)
    ensures var t := Continue(s, events);
            (a in t.conns <==> a in s.conns) && (a in s.conns ==> t.conns[a] == s.conns[a])
  {
    if events != [] { ConnWaits(s, events[..|events| - 1], a); }
  }

  /** A miner starts at the global difficulty read when it arrived, whatever happens to that
      difficulty before it is listed. */
  lemma JoinsAtGlobal(s: State, events: seq<Event>, a: Addr)
    requires a !in s.conns && forall i :: 0 <= i < |events| ==> !Concerns(events[i], a)
    ensures var t := Step(Continue(Step(s, Arrive(a)), events), Join(a));
            a in t.miners && t.miners[a] == s.global && a in t.conns && t.conns[a].Ready?
  {
    ConnWaits(Step(s, Arrive(a)), events, a);
  }

  /** A share is weighed against the difficulty its miner had when it was read, whatever happens in
      between, and is accepted and recorded iff it reaches that one. */
  lemma ShareIsWeighed(s: State, events: seq<Event>, achieved: nat, a: Addr)
    requires a in s.conns && s.conns[a].Ready? && a in s.miners
    requires forall i :: 0 <= i < |events| ==> !Concerns(events[i], a)
    ensures var before := Continue(Step(s, ReadMiner(a)), events);
            var after := Step(before, Weigh(a, achieved));
            && a in after.conns && after.miners == before.miners
            && (if achieved >= s.miners[a]
                then after.conns[a] == Accepting
                   && after.accepted == before.accepted + [Accept(a, achieved, s.miners[a])]
                else after.conns[a] == Ready && after.accepted == before.accepted)
  {
    ConnWaits(Step(s, ReadMiner(a)), events, a);
  }

  /** An accepted share leaves its miner, if still listed, at the global difficulty of the moment
      that one is read, whatever happens before it is written. */
  lemma AcceptedTakesGlobal(s: State, events: seq<Event>, a: Addr)
    requires a in s.conns && s.conns[a].Accepting?
    requires forall i :: 0 <= i < |events| ==> !Concerns(events[i], a)
    ensures var before := Continue(Step(s, ReadGlobal(a)), events);
            var after := Step(before, WriteMiner(a));
            && a in after.conns && after.conns[a] == Ready && after.miners.Keys == before.miners.Keys
            && (a in after.miners ==> after.miners[a] == s.global)
            && forall b :: b in after.miners && b != a ==> after.miners[b] == before.miners[b]
  {
    ConnWaits(Step(s, ReadGlobal(a)), events, a);
    WritesFloor(Continue(Step(s, ReadGlobal(a)), events), a, s.global);
  }

  lemma WritesFloor(s: State, a: Addr, floor: nat)
    requires a in s.conns && s.conns[a] == Finishing(floor)
    ensures var after := Step(s, WriteMiner(a));
            && a in after.conns && after.conns[a] == Ready && after.miners.Keys == s.miners.Keys
            && (a in after.miners ==> after.miners[a] == floor)
            && forall b :: b in after.miners && b != a ==> after.miners[b] == s.miners[b]
  {
  }

  /** A miner past its arrival is listed, and one without a connection only if that one broke. */
  ghost predicate ListedRightly(s: State, broken: set<Addr>) {
    && (forall a :: a in s.conns && !s.conns[a].Connecting? ==> a in s.miners)
    && (forall a :: a in s.miners && a !in s.conns ==> a in broken)
  }

  function Broken(events: seq<Event>): set<Addr> {
    if events == [] then {}
    else Broken(events[..|events| - 1]) + (if events[|events| - 1].Break? then {events[|events| - 1].addr} else {})
  }

  lemma StepLists(s: State, e: Event, broken: set<Addr>)
    requires ListedRightly(s, broken)
    ensures ListedRightly(Step(s, e), broken + (if e.Break? then {e.addr} else {}))
  {
  }

  /** In every interleaving whoever is connected past the arrival is listed, so every push and every
      accepted share reaches it, and whoever is listed is connected unless its connection broke. */
  lemma {:induction false} ConnectedAreListed(initial: nat, events: seq<Event>)
    ensures ListedRightly(Run(initial, events), Broken(events))
  {
    if events != [] {
      var n := |events| - 1;
      ConnectedAreListed(initial, events[..n]);
      StepLists(Run(initial, events[..n]), events[n], Broken(events[..n]));
    }
  }

  // ----- Droughts

  function Halved(g: nat, n: nat): nat { if n == 0 then g else Halved(g / 2, n - 1) }

  /** No retarget, and no sync that reads a new minimum: what a drought looks like from the tuner.
      Connections, shares, pushes and syncs that find nothing new may come in between. */
  predicate Quiet(s: State, e: Event) {
    !e.Retarget? && (e.PoolSync? && s.syncPush.None? ==> e.poolMin == s.lastPoolMin)
  }

  predicate AllQuiet(s: State, events: seq<Event>) {
    events == [] ||
    (AllQuiet(s, events[..|events| - 1]) && Quiet(Continue(s, events[..|events| - 1]), events[|events| - 1]))
  }

  /** How often the tuner decides on a drought. */
  function Cuts(s: State, events: seq<Event>): nat {
    if events == [] then 0
    else
      var before := events[..|events| - 1];
      Cuts(s, before) + (if events[|events| - 1].Drought? && Continue(s, before).tuner.HasRead? then 1 else 0)
  }

  /** The value the tuner aims at: what it is about to write, else the global difficulty. */
  function Aim(s: State): nat { if s.tuner.WillWrite? then s.tuner.next else s.global }

  /** What the tuner has read is still the global value. */
  predicate ReadsCurrent(s: State) { s.tuner.HasRead? ==> s.tuner.current == s.global }

  lemma QuietStep(s: State, e: Event)
    requires Quiet(s, e) && ReadsCurrent(s) && s.initial <= Aim(s)
    ensures var t := Step(s, e);
            && ReadsCurrent(t) && t.initial == s.initial
            && Aim(t) == if e.Drought? && s.tuner.HasRead? then Max(Aim(s) / 2, s.initial) else Aim(s)
  {
  }

  /** In every quiet interleaving, however the tuner's steps are spread among the others, each
      drought decision halves the value aimed at, and the initial difficulty stops it. */
  lemma {:induction false} DroughtsHalve(s: State, events: seq<Event>)
    requires AllQuiet(s, events) && ReadsCurrent(s) && s.initial <= Aim(s)
    ensures Drying(Continue(s, events), s.initial, Halved(Aim(s), Cuts(s, events)))
  {
    if events != [] {
      var n := |events| - 1;
      DroughtsHalve(s, events[..n]);
      DryingStep(Continue(s, events[..n]), events[n], s.initial, Aim(s), Cuts(s, events[..n]));
    }
  }

  /** The tuner aims at `value`, or at the initial difficulty if that is more. */
  predicate Drying(s: State, initial: nat, value: nat) {
    ReadsCurrent(s) && s.initial == initial && Aim(s) == Max(value, initial)
  }

  lemma DryingStep(s: State, e: Event, initial: nat, start: nat, cuts: nat)
    requires Quiet(s, e) && Drying(s, initial, Halved(start, cuts))
    ensures Drying(Step(s, e), initial, Halved(start, if e.Drought? && s.tuner.HasRead? then cuts + 1 else cuts))
  {
    QuietStep(s, e);
    HalvedOnce(start, initial, cuts);
  }

  lemma {:induction false} HalvedOnce(g: nat, floor: nat, n: nat)
    ensures Halved(g, n + 1) == Halved(g, n) / 2
    ensures Max(Max(Halved(g, n), floor) / 2, floor) == Max(Halved(g, n + 1), floor)
  {
    if n > 0 { HalvedOnce(g / 2, floor, n - 1); }
  }

  lemma {:induction false} HalvedToZero(g: nat, n: nat)
    requires g < Pow2(n)
    ensures Halved(g, n) == 0
  {
    if n > 0 { HalvedToZero(g / 2, n - 1); }
  }

  /** As many drought decisions as the value has bits bring it to the initial difficulty; since
      the run may be any longer one, it stays there. The global value follows with the write. */
  lemma DroughtsReachInitial(s: State, events: seq<Event>, n: nat)
    requires AllQuiet(s, events) && ReadsCurrent(s) && s.initial <= Aim(s) < Pow2(n)
    requires Cuts(s, events) >= n
    ensures Aim(Continue(s, events)) == s.initial
    ensures !Continue(s, events).tuner.WillWrite? ==> Continue(s, events).global == s.initial
  {
    DroughtsHalve(s, events);
    HalvedEnough(Aim(s), n, Cuts(s, events));
  }

  lemma HalvedEnough(g: nat, n: nat, cuts: nat)
    requires g < Pow2(n) && n <= cuts
    ensures Halved(g, cuts) == 0
  {
    Pow2Grows(n, cuts - n);
    HalvedToZero(g, cuts);
  }

  predicate Touches(e: Event, a: Addr) {
    e == Join(a) || e == Leave(a) || e == WriteMiner(a)
  }

  /** No push that is under way exceeds the miner's difficulty. */
  predicate AbovePushes(s: State, a: Addr) {
    && a in s.miners && Max(s.global, 1) <= s.miners[a]
    && (s.syncPush.Some? ==> s.syncPush.value <= s.miners[a])
    && (s.tuner.WillWrite? ==> s.tuner.next <= s.miners[a])
    && (s.tuner.WillPush? ==> s.tuner.pushed <= s.miners[a])
  }

  /** Cuts pass connected miners by: through a whole drought, a miner at or above the global value
      keeps exactly its difficulty until its own accepted share or its end. */
  lemma {:induction false} CutsSkipConnected(s: State, events: seq<Event>, a: Addr)
    requires AllQuiet(s, events) && ReadsCurrent(s) && s.initial <= Aim(s) && AbovePushes(s, a)
    requires forall i :: 0 <= i < |events| ==> !Touches(events[i], a)
    ensures AbovePushes(Continue(s, events), a) && Continue(s, events).miners[a] == s.miners[a]
  {
    if events != [] {
      var n := |events| - 1;
      CutsSkipConnected(s, events[..n], a);
      DroughtsHalve(s, events[..n]);
      QuietStepSkips(Continue(s, events[..n]), events[n], a);
    }
  }

  lemma QuietStepSkips(s: State, e: Event, a: Addr)
    requires Quiet(s, e) && ReadsCurrent(s) && s.initial <= Aim(s) && AbovePushes(s, a) && !Touches(e, a)
    ensures AbovePushes(Step(s, e), a) && Step(s, e).miners[a] == s.miners[a]
  {
  }

  // ----- The pool's minimum

  /** A sync leaves the global difficulty below the minimum it has just read exactly when that
      minimum came down, the global value stood between the new and the old one, and the
      initial difficulty does not lift it. */
  lemma SyncRespectsPoolMin(s: State, poolMin: nat)
    requires poolMin != s.lastPoolMin
    ensures Synced(s, poolMin).global < poolMin <==>
              poolMin < s.lastPoolMin && poolMin <= s.global < s.lastPoolMin && s.initial < poolMin
  {
    if s.global >= poolMin && poolMin < s.lastPoolMin {
      ScaledBelow(s.global, poolMin, s.lastPoolMin);
    }
  }

  lemma ScaledBelow(g: nat, p: nat, last: nat)
    requires last > 0
    ensures g * p / last < p <==> p > 0 && g < last
  {
    Quotient(g * p, last, p);
    if g >= last {
      Scale(last, g, p);
    } else if p > 0 {
      Scale(g + 1, last, p);
      assert (g + 1) * p == g * p + p;
    }
  }

  /** A write of the tuner below the minimum the last sync has read. */
  predicate LowWrite(s: State, e: Event) {
    e.TunerWrite? && s.tuner.WillWrite? && s.tuner.next < s.lastPoolMin
  }

  /** From at or above the last minimum, exactly such a write leads below it. */
  lemma OnlyLowWrites(s: State, e: Event)
    requires s.lastPoolMin <= s.global
    ensures Step(s, e).global < Step(s, e).lastPoolMin <==> LowWrite(s, e)
  {
    if e.PoolSync? && e.poolMin != s.lastPoolMin { SyncRespectsPoolMin(s, e.poolMin); }
  }

  predicate BelowMin(s: State) { s.global < s.lastPoolMin }

  /** A run is at some point below the last minimum read exactly when it contains a low write. */
  lemma {:induction false} BelowMinIffLowWrite(initial: nat, events: seq<Event>)
    ensures (exists i :: 0 <= i <= |events| && BelowMin(Run(initial, events[..i]))) <==>
            (exists i :: 0 <= i < |events| && LowWrite(Run(initial, events[..i]), events[i]))
  {
    if i :| 0 <= i < |events| && LowWrite(Run(initial, events[..i]), events[i]) {
      assert events[..i + 1][..i] == events[..i];
      assert BelowMin(Run(initial, events[..i + 1]));
    } else {
      forall i | 0 <= i <= |events| ensures !BelowMin(Run(initial, events[..i])) {
        StaysAtMin(initial, events, i);
      }
    }
  }

  lemma {:induction false} StaysAtMin(initial: nat, events: seq<Event>, n: nat)
    requires n <= |events|
    requires forall i :: 0 <= i < |events| ==> !LowWrite(Run(initial, events[..i]), events[i])
    ensures !BelowMin(Run(initial, events[..n]))
  {
    if n > 0 {
      StaysAtMin(initial, events, n - 1);
      assert events[..n][..n - 1] == events[..n - 1];
      OnlyLowWrites(Run(initial, events[..n - 1]), events[n - 1]);
    }
  }

  lemma RunStep(initial: nat, before: seq<Event>, e: Event)
    ensures Run(initial, before + [e]) == Step(Run(initial, before), e)
  {
    assert (before + [e])[..|before|] == before;
  }

  /** Such a run: the tuner reads, a sync raises the minimum, and the tuner writes what it had
      worked out before. */
  lemma StaleWriteUndoesSync()
    ensures var s := Run(4096, [TunerRead] + [Retarget(5000)] + [PoolSync(9000)] + [TunerWrite]);
            s.lastPoolMin == 9000 && s.global == 5000
  {
    var e1 := [TunerRead];
    RunStep(4096, [], TunerRead);
    assert [] + e1 == e1;
    RunStep(4096, e1, Retarget(5000));
    RunStep(4096, e1 + [Retarget(5000)], PoolSync(9000));
    RunStep(4096, e1 + [Retarget(5000)] + [PoolSync(9000)], TunerWrite);
  }

  lemma RaisedThenCut() returns (events: seq<Event>)
    ensures events == [PoolSync(9000)] + [SyncPush] + [TunerRead] + [Drought] + [TunerWrite]
    ensures var s := Run(4096, events);
            s.initial == 4096 && s.global == 4500 && s.lastPoolMin == 9000 && s.syncPush.None?
  {
    var e1 := [PoolSync(9000)];
    RunStep(4096, [], PoolSync(9000));
    assert [] + e1 == e1;
    RunStep(4096, e1, SyncPush);
    var e3 := e1 + [SyncPush] + [TunerRead];
    RunStep(4096, e1 + [SyncPush], TunerRead);
    assert Run(4096, e3).tuner == HasRead(9000);
    RunStep(4096, e3, Drought);
    RunStep(4096, e3 + [Drought], TunerWrite);
    events := e3 + [Drought] + [TunerWrite];
  }

  /** After a cut below the minimum, the next sync lowers in proportion and ends below the minimum
      it has just read. */
  lemma SyncEndsBelowMin() returns (events: seq<Event>)
    ensures events == [PoolSync(9000)] + [SyncPush] + [TunerRead] + [Drought] + [TunerWrite] + [PoolSync(4400)]
    ensures Run(4096, events).lastPoolMin == 4400 && Run(4096, events).global == 4096
  {
    var before := RaisedThenCut();
    RunStep(4096, before, PoolSync(4400));
    events := before + [PoolSync(4400)];
  }

  // ----- The shared state, updated lock by lock

  class ServerDifficulty {
    const initial: nat
    var global: nat
    var lastPoolMin: nat
    var miners: map<Addr, nat>
    var conns: map<Addr, Conn>
    var syncPush: Option<nat>
    var tuner: Tuner
    var accepted: seq<Accept>

    ghost function View(): State
      reads this
    {
      State(initial, global, lastPoolMin, miners, conns, syncPush, tuner, accepted)
    }

    constructor (initial: nat)
      ensures View() == Init(initial)
    {
      this.initial := initial;
      global, lastPoolMin, miners, conns := initial, initial, map[], map[];
      syncPush, tuner, accepted := None, Resting, [];
    }

    /** `difficulty_sync_loop`, under both write locks. */
    method Sync(poolMin: nat)
      requires syncPush.None?
      modifies this
      ensures View() == Step(old(View()), PoolSync(poolMin))
    {
      if poolMin != lastPoolMin {
        if global < poolMin {
          global := poolMin;
        } else if poolMin < lastPoolMin {
          var scaled := global * poolMin / lastPoolMin;
          global := if scaled < initial then initial else scaled;
        }
        lastPoolMin := poolMin;
        syncPush := Some(global);
      }
    }

    /** `set_difficulty_all_miners`, under the write lock on the miners. */
    method SetAll(newFloor: nat)
      modifies this`miners
      ensures miners == Raised(old(miners), newFloor) && PushedTo(old(miners), newFloor, miners)
    {
      RaisedPushes(miners, newFloor);
      var safeFloor := if newFloor < 1 then 1 else newFloor;
      var todo := miners.Keys;
      while todo != {}
        invariant todo <= miners.Keys == old(miners).Keys
        invariant forall a :: a in miners ==>
                    miners[a] == if a in todo then old(miners)[a] else Max(old(miners)[a], Max(newFloor, 1))
        decreases todo
      {
        var a :| a in todo;
        if miners[a] < safeFloor {
          miners := miners[a := safeFloor];
        }
        todo := todo - {a};
      }
    }

    method PushSync()
      requires syncPush.Some?
      modifies this
      ensures View() == Step(old(View()), SyncPush)
    {
      SetAll(syncPush.value);
      syncPush := None;
    }

    /** One pass of `difficulty_sync_loop`: the push follows a change. */
    method SyncPass(poolMin: nat)
      requires syncPush.None?
      modifies this
      ensures View() == Step(Step(old(View()), PoolSync(poolMin)), SyncPush)
    {
      Sync(poolMin);
      if syncPush.Some? { PushSync(); }
    }

    /** One pass of `global_vardiff_loop` with nothing in between, for a drought, a retarget or a
        rate inside the dead zone. */
    method TunerPass(decision: Event)
      requires tuner.Resting? && (decision.Drought? || decision.Retarget? || decision.DeadZone?)
      modifies this
      ensures View() == Step(Step(Step(Step(old(View()), TunerRead), decision), TunerWrite), TunerPush)
    {
      tuner := HasRead(global);
      if decision.Drought? {
        CutOnDrought();
      } else if decision.Retarget? {
        RetargetTo(decision.adjusted);
      } else {
        tuner := Resting;
      }
      if tuner.WillWrite? {
        WriteGlobal();
        PushTuner();
      }
    }

    /** The drought branch of `global_vardiff_loop`, after its read. */
    method CutOnDrought()
      requires tuner.HasRead?
      modifies this
      ensures View() == Step(old(View()), Drought)
    {
      var current := tuner.current;
      var next := if current / 2 < initial then initial else current / 2;
      tuner := if next < current then WillWrite(next) else Resting;
    }

    /** The retarget branch; `adjusted` is the clamped floating-point product, any 64-bit value. */
    method RetargetTo(adjusted: nat)
      requires tuner.HasRead?
      modifies this
      ensures View() == Step(old(View()), Retarget(adjusted))
    {
      var next := if adjusted < initial then initial else adjusted;
      tuner := if next != tuner.current then WillWrite(next) else Resting;
    }

    method WriteGlobal()
      requires tuner.WillWrite?
      modifies this
      ensures View() == Step(old(View()), TunerWrite)
    {
      global := tuner.next;
      tuner := WillPush(global);
    }

    method PushTuner()
      requires tuner.WillPush?
      modifies this
      ensures View() == Step(old(View()), TunerPush)
    {
      SetAll(tuner.pushed);
      tuner := Resting;
    }

    /** The comparison in `validate_and_submit_share`. */
    method WeighShare(a: Addr, achieved: nat) returns (ok: bool)
      requires a in conns && conns[a].Weighing?
      modifies this
      ensures View() == Step(old(View()), Weigh(a, achieved))
      ensures ok <==> achieved >= old(conns[a].required)
    {
      var required := conns[a].required;
      ok := achieved >= required;
      if ok { accepted := accepted + [Accept(a, achieved, required)]; }
      conns := conns[a := if ok then Accepting else Ready];
    }

    /** The last lock of an accepted share: the miner is set to the global floor read before. */
    method FinishShare(a: Addr) returns (changed: Option<nat>)
      requires a in conns && conns[a].Finishing?
      modifies this
      ensures View() == Step(old(View()), WriteMiner(a))
      ensures changed == if a in old(miners) && old(miners)[a] != old(conns[a].floor)
                         then Some(old(conns[a].floor)) else None
    {
      var floor := conns[a].floor;
      changed := None;
      if a in miners && miners[a] != floor {
        miners := miners[a := floor];
        changed := Some(floor);
      }
      assert a in miners ==> miners == miners[a := floor];
      conns := conns[a := Ready];
    }
  }
}
