/** The client's cache of object versions against a chain whose versions only grow. */
module VersionCache {
  import opened Bytes
  import opened ObjectIds

  datatype Cache = Cache(objects: map<Id, nat>, gas: Option<(Id, nat)>)

  /** What a response reports of an object; only the first kind is recorded. */
  datatype Change = Written(id: Id, version: nat) | Gone(id: Id, version: nat)

  datatype World = World(chain: map<Id, nat>, cache: Cache)

  datatype Event =
    | Read(id: Id, seen: nat) | ReadGas(id: Id, seen: nat)
    | Confirmed(changes: seq<Change>) | Aborted(changes: seq<Change>) | Others(changes: seq<Change>)
    | Rejected(msg: string) | NotSent(msg: string) | Forget(id: Id)

  // ----- Cache operations

  predicate Contains(s: string, needle: string) {
    needle <= s || (s != "" && Contains(s[1..], needle))
  }

  /** The errors `exec` takes as a sign of stale versions. */
  predicate VersionError(msg: string) {
    Contains(msg, "unavailable for consumption") || Contains(msg, "version")
  }

  function SetOf(ids: seq<Id>): set<Id> { set i | 0 <= i < |ids| :: ids[i] }

  /** The gas coin is dropped whenever a sent transaction fails; of the rest, what a version error
      names, or all if it names nothing. */
  function AfterError(c: Cache, sent: bool, msg: string): Cache {
    var objects := if !VersionError(msg) then c.objects
                   else if Scan(msg) == [] then map[]
                   else c.objects - SetOf(Scan(msg));
    Cache(objects, if sent then None else c.gas)
  }

  function Recorded(objects: map<Id, nat>, changes: seq<Change>): map<Id, nat> {
    if changes == [] then objects
    else
      var before, last := Recorded(objects, changes[..|changes| - 1]), changes[|changes| - 1];
      match last
      case Written(id, v) => before[id := v]
      case Gone(_, _) => before
  }

  /** `update_from_resp`: record, then take the gas coin's version from what is recorded. */
  function AfterResponse(c: Cache, changes: seq<Change>): Cache {
    var objects := Recorded(c.objects, changes);
    Cache(objects,
          if c.gas.Some? && c.gas.value.0 in objects then Some((c.gas.value.0, objects[c.gas.value.0])) else None)
  }

  // ----- The world

  function Grown(chain: map<Id, nat>, changes: seq<Change>): map<Id, nat> {
    if changes == [] then chain
    else
      var before, last := Grown(chain, changes[..|changes| - 1]), changes[|changes| - 1];
      before[last.id := if last.id in before && before[last.id] > last.version then before[last.id] else last.version]
  }

  /** A read may be behind the chain, never ahead; an event that cannot happen changes nothing. */
  function Step(w: World, e: Event): World {
    match e
    case Read(id, seen) =>
      if id !in w.cache.objects && id in w.chain && seen <= w.chain[id]
      then w.(cache := w.cache.(objects := w.cache.objects[id := seen])) else w
    case ReadGas(id, seen) =>
      if w.cache.gas.None? && id in w.chain && seen <= w.chain[id]
      then w.(cache := w.cache.(gas := Some((id, seen)))) else w
    case Confirmed(changes) => World(Grown(w.chain, changes), AfterResponse(w.cache, changes))
    case Aborted(changes) => w.(chain := Grown(w.chain, changes))
    case Others(changes) => w.(chain := Grown(w.chain, changes))
    case Rejected(msg) => w.(cache := AfterError(w.cache, true, msg))
    case NotSent(msg) => w.(cache := AfterError(w.cache, false, msg))
    case Forget(id) => w.(cache := w.cache.(objects := w.cache.objects - {id}))
  }

  function Run(w: World, events: seq<Event>): World {
    if events == [] then w else Step(Run(w, events[..|events| - 1]), events[|events| - 1])
  }

  // ----- Never ahead

  ghost predicate Behind(objects: map<Id, nat>, chain: map<Id, nat>) {
    forall id :: id in objects ==> id in chain && objects[id] <= chain[id]
  }

  ghost predicate NeverAhead(w: World) {
    Behind(w.cache.objects, w.chain)
    && (w.cache.gas.Some? ==> w.cache.gas.value.0 in w.chain && w.cache.gas.value.1 <= w.chain[w.cache.gas.value.0])
  }

  lemma {:induction false} ChainGrows(chain: map<Id, nat>, changes: seq<Change>)
    ensures Behind(chain, Grown(chain, changes))
  {
    if changes != [] { ChainGrows(chain, changes[..|changes| - 1]); }
  }

  lemma {:induction false} RecordedBehind(objects: map<Id, nat>, chain: map<Id, nat>, changes: seq<Change>)
    requires Behind(objects, chain)
    ensures Behind(Recorded(objects, changes), Grown(chain, changes))
  {
    if changes != [] { RecordedBehind(objects, chain, changes[..|changes| - 1]); }
  }

  lemma StepNeverAhead(w: World, e: Event)
    requires NeverAhead(w)
    ensures NeverAhead(Step(w, e))
  {
    match e
    case Confirmed(changes) => RecordedBehind(w.cache.objects, w.chain, changes);
    case Aborted(changes) => ChainGrows(w.chain, changes);
    case Others(changes) => ChainGrows(w.chain, changes);
    case _ =>
  }

  /** After any run of reads, confirmed and aborted transactions, other writers and rejections, no
      cached version is ahead of the chain. */
  lemma {:induction false} CacheIsNeverAhead(w: World, events: seq<Event>)
    requires NeverAhead(w)
    ensures NeverAhead(Run(w, events))
  {
    if events != [] {
      CacheIsNeverAhead(w, events[..|events| - 1]);
      StepNeverAhead(Run(w, events[..|events| - 1]), events[|events| - 1]);
    }
  }

  // ----- What a response and an error do to the cache

  /** Change `k` is the last one that writes `id`. */
  predicate LastWrite(changes: seq<Change>, id: Id, k: nat) {
    && k < |changes| && changes[k].Written? && changes[k].id == id
    && forall j :: k < j < |changes| ==> !(changes[j].Written? && changes[j].id == id)
  }

  predicate Writes(changes: seq<Change>, id: Id) {
    exists k :: 0 <= k < |changes| && changes[k].Written? && changes[k].id == id
  }

  /** Every object written is cached at the version last reported, every other entry is kept as it
      was, and nothing is added. */
  ghost predicate Refreshed(before: map<Id, nat>, changes: seq<Change>, after: map<Id, nat>) {
    && (forall id, k: nat :: LastWrite(changes, id, k) ==> id in after && after[id] == changes[k].version)
    && (forall id :: id in before && !Writes(changes, id) ==> id in after && after[id] == before[id])
    && (forall id :: id in after ==> id in before || Writes(changes, id))
  }

  lemma WritesLonger(changes: seq<Change>, id: Id)
    requires changes != []
    ensures var n := |changes| - 1;
            Writes(changes, id) <==> Writes(changes[..n], id) || (changes[n].Written? && changes[n].id == id)
  {
    var n := |changes| - 1;
    assert forall k :: 0 <= k < n ==> changes[..n][k] == changes[k];
  }

  lemma LastWriteLonger(changes: seq<Change>, id: Id, k: nat)
    requires changes != []
    ensures var n := |changes| - 1;
            LastWrite(changes, id, k) <==>
              if changes[n].Written? && changes[n].id == id then k == n else LastWrite(changes[..n], id, k)
  {
    var n := |changes| - 1;
    assert forall j :: 0 <= j < n ==> changes[..n][j] == changes[j];
  }

  lemma {:induction false} RecordedRefreshes(objects: map<Id, nat>, changes: seq<Change>)
    ensures Refreshed(objects, changes, Recorded(objects, changes))
  {
    if changes != [] {
      var n := |changes| - 1;
      RecordedRefreshes(objects, changes[..n]);
      forall id, k: nat | LastWrite(changes, id, k)
        ensures id in Recorded(objects, changes) && Recorded(objects, changes)[id] == changes[k].version
      {
        LastWriteLonger(changes, id, k);
        if k < n { assert LastWrite(changes[..n], id, k) && changes[..n][k] == changes[k]; }
      }
      forall id
        ensures Writes(changes, id) <==> Writes(changes[..n], id) || (changes[n].Written? && changes[n].id == id)
      {
        WritesLonger(changes, id);
      }
    }
  }

  lemma {:induction false} HasLastWrite(changes: seq<Change>, id: Id) returns (k: nat)
    requires Writes(changes, id)
    ensures LastWrite(changes, id, k)
  {
    var n := |changes| - 1;
    if changes[n].Written? && changes[n].id == id {
      k := n;
    } else {
      WritesLonger(changes, id);
      k := HasLastWrite(changes[..n], id);
      LastWriteLonger(changes, id, k);
    }
  }

  /** That leaves one cache only. */
  lemma OneRefresh(before: map<Id, nat>, changes: seq<Change>, a: map<Id, nat>, b: map<Id, nat>)
    requires Refreshed(before, changes, a) && Refreshed(before, changes, b)
    ensures a == b
  {
    forall id ensures (id in a <==> id in b) && (id in a ==> a[id] == b[id]) {
      if Writes(changes, id) { var k := HasLastWrite(changes, id); }
    }
  }

  /** The gas coin a response leaves: at the version cached for it, or forgotten if none is. */
  predicate GasFollows(gas: Option<(Id, nat)>, objects: map<Id, nat>, after: Option<(Id, nat)>) {
    match gas
    case None => after == None
    case Some((id, _)) => after == (if id in objects then Some((id, objects[id])) else None)
  }

  /** A confirmed transaction refreshes the cache: what it wrote is cached at the version it reports
      last, the gas coin with it, and every other entry stays. */
  lemma ConfirmedRefreshes(w: World, changes: seq<Change>)
    ensures var u := Step(w, Confirmed(changes));
            && Refreshed(w.cache.objects, changes, u.cache.objects)
            && GasFollows(w.cache.gas, u.cache.objects, u.cache.gas)
  {
    RecordedRefreshes(w.cache.objects, changes);
  }

  /** So an object written at the version the chain then has is not stale, however stale it was
      before, and neither is a gas coin written so. */
  lemma WrittenIsCurrent(w: World, changes: seq<Change>, id: Id, k: nat)
    requires LastWrite(changes, id, k) && id in Step(w, Confirmed(changes)).chain
    requires changes[k].version == Step(w, Confirmed(changes)).chain[id]
    ensures var u := Step(w, Confirmed(changes));
            && id in u.cache.objects && u.cache.objects[id] == u.chain[id] && id !in Stale(u)
            && (w.cache.gas.Some? && w.cache.gas.value.0 == id ==>
                  u.cache.gas == Some((id, u.chain[id])) && !GasStale(u))
  {
    ConfirmedRefreshes(w, changes);
  }

  /** An error drops exactly the entries its text makes the client drop, whatever they are worth, and
      the gas coin exactly if the transaction had been sent. */
  ghost predicate Invalidated(before: Cache, sent: bool, msg: string, after: Cache) {
    && after.gas == (if sent then None else before.gas)
    && (forall id :: id in after.objects <==> id in before.objects && !Drops(msg, id))
    && (forall id :: id in after.objects ==> after.objects[id] == before.objects[id])
  }

  lemma ErrorInvalidates(c: Cache, sent: bool, msg: string)
    ensures Invalidated(c, sent, msg, AfterError(c, sent, msg))
  {
    forall id ensures id in SetOf(Scan(msg)) <==> id in Scan(msg) { }
  }

  predicate OccursAt(s: string, needle: string, i: nat) { i + |needle| <= |s| && s[i..i + |needle|] == needle }

  /** `needle` stands somewhere in `s`. */
  predicate Occurs(s: string, needle: string) { exists i :: 0 <= i <= |s| && OccursAt(s, needle, i) }

  lemma OccursLater(s: string, needle: string, i: nat)
    requires s != ""
    ensures OccursAt(s, needle, i + 1) <==> OccursAt(s[1..], needle, i)
  {
    if i + 1 + |needle| <= |s| { assert s[i + 1..i + 1 + |needle|] == s[1..][i..i + |needle|]; }
  }

  lemma {:induction false} ContainsIs(s: string, needle: string)
    ensures Contains(s, needle) <==> Occurs(s, needle)
  {
    if needle <= s {
      assert OccursAt(s, needle, 0);
    } else if s != "" {
      ContainsIs(s[1..], needle);
      if i :| 0 <= i <= |s| && OccursAt(s, needle, i) {
        assert i > 0;
        OccursLater(s, needle, i - 1);
      }
      if i :| 0 <= i <= |s[1..]| && OccursAt(s[1..], needle, i) {
        OccursLater(s, needle, i);
      }
    }
  }

  /** An error makes the client drop an entry exactly when its text holds one of the two wordings, and
      names either no object at all or this one. */
  lemma DropsWhenWorded(msg: string, id: Id)
    ensures Drops(msg, id) <==>
              && (Occurs(msg, "unavailable for consumption") || Occurs(msg, "version"))
              && (Scan(msg) == [] || id in Scan(msg))
  {
    ContainsIs(msg, "unavailable for consumption");
    ContainsIs(msg, "version");
  }

  // ----- Recovery

  function Stale(w: World): set<Id> {
    set id | id in w.cache.objects && id in w.chain && w.cache.objects[id] < w.chain[id]
  }

  predicate GasStale(w: World) {
    w.cache.gas.Some? && w.cache.gas.value.0 in w.chain && w.cache.gas.value.1 < w.chain[w.cache.gas.value.0]
  }

  /** How many references, the gas coin included, are out of date. */
  function StaleCount(w: World): nat { |Stale(w)| + (if GasStale(w) then 1 else 0) }

  /** A rejection for stale versions that names a stale reference, or names nothing. */
  ghost predicate Justified(w: World, msg: string) {
    && VersionError(msg) && StaleCount(w) > 0
    && (Scan(msg) == []
        || exists id :: id in Scan(msg) && (id in Stale(w) || (GasStale(w) && id == w.cache.gas.value.0)))
  }

  /** Whether a rejection makes the client drop object `id`. */
  predicate Drops(msg: string, id: Id) {
    VersionError(msg) && (Scan(msg) == [] || id in Scan(msg))
  }

  lemma StaleAfterRejection(w: World, msg: string)
    ensures Stale(Step(w, Rejected(msg))) == set id | id in Stale(w) && !Drops(msg, id)
    ensures !GasStale(Step(w, Rejected(msg)))
  {
    forall id ensures id in SetOf(Scan(msg)) <==> id in Scan(msg) { }
  }

  /** A rejection lowers the number of stale references exactly when the gas coin is stale or the
      message makes the client drop a stale object; it never raises it. */
  lemma RejectionProgress(w: World, msg: string)
    ensures StaleCount(Step(w, Rejected(msg))) <= StaleCount(w)
    ensures StaleCount(Step(w, Rejected(msg))) < StaleCount(w) <==>
              GasStale(w) || exists id :: id in Stale(w) && Drops(msg, id)
  {
    var before, after := Stale(w), Stale(Step(w, Rejected(msg)));
    StaleAfterRejection(w, msg);
    SubsetSize(after, before);
    if id :| id in before && Drops(msg, id) {
      SubsetSize(after, before - {id});
    } else {
      assert after == before;
    }
  }

  /** Every justified rejection does. */
  lemma RejectionMakesProgress(w: World, msg: string)
    requires Justified(w, msg)
    ensures StaleCount(Step(w, Rejected(msg))) < StaleCount(w)
  {
    RejectionProgress(w, msg);
    if !GasStale(w) {
      var id :| id in Stale(w) && (Scan(msg) == [] || id in Scan(msg));
      assert Drops(msg, id);
    }
  }

  lemma {:induction false} SubsetSize<T>(a: set<T>, b: set<T>)
    requires a <= b
    ensures |a| <= |b|
    decreases |a|
  {
    if a != {} {
      var x :| x in a;
      SubsetSize(a - {x}, b - {x});
    }
  }

  /** Reading what is missing, from a current replica. */
  function Fetched(w: World, inputs: seq<Id>): World {
    if inputs == [] then w
    else
      var before, id := Fetched(w, inputs[..|inputs| - 1]), inputs[|inputs| - 1];
      if id in before.chain then Step(before, Read(id, before.chain[id])) else before
  }

  /** A submission attempt: read the inputs and the gas coin, send, be rejected. */
  datatype Try = Try(inputs: seq<Id>, coin: Id, msg: string)

  function Prepared(w: World, t: Try): World {
    var f := Fetched(w, t.inputs);
    if t.coin in f.chain then Step(f, ReadGas(t.coin, f.chain[t.coin])) else f
  }

  function Retried(w: World, tries: seq<Try>): World {
    if tries == [] then w
    else Step(Prepared(Retried(w, tries[..|tries| - 1]), tries[|tries| - 1]), Rejected(tries[|tries| - 1].msg))
  }

  lemma {:induction false} FetchAddsNoStale(w: World, inputs: seq<Id>)
    ensures var f := Fetched(w, inputs);
            f.chain == w.chain && f.cache.gas == w.cache.gas && Stale(f) == Stale(w)
  {
    if inputs != [] { FetchAddsNoStale(w, inputs[..|inputs| - 1]); }
  }

  lemma PrepareAddsNoStale(w: World, t: Try)
    ensures Prepared(w, t).chain == w.chain && StaleCount(Prepared(w, t)) == StaleCount(w)
  {
    FetchAddsNoStale(w, t.inputs);
    SameStale(w, t);
  }

  /** With current reads and no other writer, justified rejections cannot outnumber the references
      that were stale at the start: submission recovers within that many tries. */
  lemma {:induction false} RecoversInTime(w: World, tries: seq<Try>)
    requires forall k :: 0 <= k < |tries| ==> Justified(Prepared(Retried(w, tries[..k]), tries[k]), tries[k].msg)
    ensures |tries| + StaleCount(Retried(w, tries)) <= StaleCount(w)
  {
    if tries != [] {
      var n := |tries| - 1;
      var before := tries[..n];
      forall k | 0 <= k < n ensures Justified(Prepared(Retried(w, before[..k]), before[k]), before[k].msg) {
        assert before[..k] == tries[..k];
      }
      RecoversInTime(w, before);
      PrepareAddsNoStale(Retried(w, before), tries[n]);
      RejectionMakesProgress(Prepared(Retried(w, before), tries[n]), tries[n].msg);
    }
  }

  lemma {:induction false} FetchNeverAhead(w: World, inputs: seq<Id>)
    requires NeverAhead(w)
    ensures NeverAhead(Fetched(w, inputs))
  {
    if inputs != [] { FetchNeverAhead(w, inputs[..|inputs| - 1]); }
  }

  /** Once nothing is stale, every reference an attempt holds, the gas coin included, is exactly the chain's. */
  lemma NothingStaleMeansCurrent(w: World, t: Try)
    requires NeverAhead(w) && StaleCount(w) == 0
    ensures var p := Prepared(w, t);
            && (forall id :: id in p.cache.objects ==> id in p.chain && p.cache.objects[id] == p.chain[id])
            && (p.cache.gas.Some? ==>
                  p.cache.gas.value.0 in p.chain && p.cache.gas.value.1 == p.chain[p.cache.gas.value.0])
  {
    FetchNeverAhead(w, t.inputs);
    PrepareAddsNoStale(w, t);
    var p := Prepared(w, t);
    assert Stale(p) == {};
    forall id | id in p.cache.objects ensures id in p.chain && p.cache.objects[id] == p.chain[id] {
      assert id !in Stale(p);
    }
  }

  lemma {:induction false} RetriesNeverAhead(w: World, tries: seq<Try>)
    requires NeverAhead(w)
    ensures NeverAhead(Retried(w, tries))
  {
    if tries != [] {
      var before, t := Retried(w, tries[..|tries| - 1]), tries[|tries| - 1];
      RetriesNeverAhead(w, tries[..|tries| - 1]);
      FetchNeverAhead(before, t.inputs);
      StepNeverAhead(Prepared(before, t), Rejected(t.msg));
    }
  }

  /** From any run on: after as many justified rejections as references were stale, every reference
      the next attempt holds is exactly the chain's. */
  lemma RecoveredAttemptIsCurrent(start: World, events: seq<Event>, tries: seq<Try>, next: Try)
    requires NeverAhead(start)
    requires var w := Run(start, events);
             |tries| == StaleCount(w)
             && forall k :: 0 <= k < |tries| ==> Justified(Prepared(Retried(w, tries[..k]), tries[k]), tries[k].msg)
    ensures var p := Prepared(Retried(Run(start, events), tries), next);
            && (forall id :: id in p.cache.objects ==> id in p.chain && p.cache.objects[id] == p.chain[id])
            && (p.cache.gas.Some? ==>
                  p.cache.gas.value.0 in p.chain && p.cache.gas.value.1 == p.chain[p.cache.gas.value.0])
  {
    var w := Run(start, events);
    CacheIsNeverAhead(start, events);
    RecoversInTime(w, tries);
    RetriesNeverAhead(w, tries);
    NothingStaleMeansCurrent(Retried(w, tries), next);
  }

  /** With current reads and no other writer, an object stays stale through any number of tries
      exactly when none of their messages drops it: messages without the version wording, and
      messages that name only other objects. */
  lemma {:induction false} StaysStale(w: World, tries: seq<Try>, id: Id)
    ensures id in Stale(Retried(w, tries)) <==>
              id in Stale(w) && forall k :: 0 <= k < |tries| ==> !Drops(tries[k].msg, id)
  {
    if tries != [] {
      var n := |tries| - 1;
      var before := tries[..n];
      StaysStale(w, before, id);
      StaleAfterRejection(Prepared(Retried(w, before), tries[n]), tries[n].msg);
      SameStale(Retried(w, before), tries[n]);
      assert forall k :: 0 <= k < n ==> before[k] == tries[k];
    }
  }

  lemma SameStale(w: World, t: Try)
    ensures Stale(Prepared(w, t)) == Stale(w)
  {
    FetchAddsNoStale(w, t.inputs);
    var f := Fetched(w, t.inputs);
    if t.coin in f.chain {
      assert Stale(Step(f, ReadGas(t.coin, f.chain[t.coin]))) == Stale(f);
    }
  }

  // ----- The client

  class VersionedClient {
    var objVers: map<Id, nat>
    var gasCoin: Option<(Id, nat)>

    ghost function View(): Cache
      reads this
    {
      Cache(objVers, gasCoin)
    }

    constructor ()
      ensures View() == Cache(map[], None)
    {
      objVers, gasCoin := map[], None;
    }

    /** `get_ver`; `answer` is the node's reply, asked for only on a miss. */
    method GetVer(id: Id, answer: Option<nat>) returns (v: Option<nat>)
      modifies this`objVers
      ensures id in old(objVers) ==> v == Some(old(objVers)[id]) && objVers == old(objVers)
      ensures id !in old(objVers) ==> v == answer
      ensures id !in old(objVers) ==> objVers == if answer.Some? then old(objVers)[id := answer.value] else old(objVers)
    {
      if id in objVers { return Some(objVers[id]); }
      if answer.None? { return None; }
      objVers := objVers[id := answer.value];
      v := answer;
    }

    method UpdateFromResp(changes: seq<Change>)
      modifies this
      ensures View() == AfterResponse(old(View()), changes)
      ensures Refreshed(old(objVers), changes, objVers) && GasFollows(old(gasCoin), objVers, gasCoin)
    {
      RecordedRefreshes(objVers, changes);
      for i := 0 to |changes|
        invariant objVers == Recorded(old(objVers), changes[..i]) && gasCoin == old(gasCoin)
      {
        assert changes[..i + 1][..i] == changes[..i];
        match changes[i]
        case Written(id, v) => objVers := objVers[id := v];
        case Gone(_, _) =>
      }
      assert changes[..|changes|] == changes;
      if gasCoin.Some? {
        var gid := gasCoin.value.0;
        gasCoin := if gid in objVers then Some((gid, objVers[gid])) else None;
      }
    }

    /** The error paths of `execute_ptb` and `exec`; an error before sending leaves the gas coin. */
    method OnError(sent: bool, msg: string)
      modifies this
      ensures View() == AfterError(old(View()), sent, msg) && Invalidated(old(View()), sent, msg, View())
    {
      if sent { gasCoin := None; }
      if VersionError(msg) {
        var stale := ParseObjectIds(msg);
        if stale == [] {
          objVers := map[];
        } else {
          for i := 0 to |stale|
            invariant gasCoin == (if sent then None else old(gasCoin)) && objVers == old(objVers) - SetOf(stale[..i])
          {
            assert SetOf(stale[..i + 1]) == SetOf(stale[..i]) + {stale[i]};
            objVers := objVers - {stale[i]};
          }
          assert stale[..|stale|] == stale;
        }
      }
      ErrorInvalidates(old(View()), sent, msg);
    }
  }
}
