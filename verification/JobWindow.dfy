/** The server's map of recent jobs, keyed by printed numbers and trimmed by text order.
    `T` is what a job holds besides its id. */
module JobWindow {
  import opened Bytes
  import Hex

  const KEPT: nat := 10

  datatype Window<T> = Window(counter: nat, jobs: map<string, T>, current: Option<(string, T)>)

  /** Each attempt takes a number; a failed one (bad template, refused registration) publishes nothing. */
  datatype Attempt<T> = Publish(job: T) | Fail

  function IdOf(n: nat): string { Hex.Format08(n) }

  // ----- Trimming

  predicate IsOldest(keys: set<string>, k: string) {
    k in keys && forall j :: j in keys && j != k ==> Hex.TextLess(k, j)
  }

  lemma {:induction false} OldestExists(keys: set<string>)
    requires keys != {}
    ensures exists k :: IsOldest(keys, k)
    decreases |keys|
  {
    var x :| x in keys;
    var rest := keys - {x};
    if rest == {} {
      assert keys == {x};
      assert IsOldest(keys, x);
    } else {
      OldestExists(rest);
      var k :| IsOldest(rest, k);
      Hex.TextLessTotal(x, k);
      if Hex.TextLess(k, x) {
        assert IsOldest(keys, k);
      } else {
        forall j | j in keys && j != x ensures Hex.TextLess(x, j) {
          if j != k { Hex.TextLessTransitive(x, k, j); }
        }
        assert IsOldest(keys, x);
      }
    }
  }

  lemma OldestIsUnique(keys: set<string>, a: string, b: string)
    requires IsOldest(keys, a) && IsOldest(keys, b)
    ensures a == b
  {
    Hex.TextLessTotal(a, b);
  }

  ghost function Oldest(keys: set<string>): (k: string)
    requires keys != {}
    ensures IsOldest(keys, k)
  {
    OldestExists(keys);
    var k :| IsOldest(keys, k);
    k
  }

  lemma DropOne<T>(jobs: map<string, T>, k: string)
    requires k in jobs
    ensures |jobs - {k}| == |jobs| - 1
  {
    assert (jobs - {k}).Keys == jobs.Keys - {k};
    assert |jobs.Keys - {k}| == |jobs.Keys| - 1;
  }

  /** Remove the least key until ten are left. */
  ghost function Trimmed<T>(jobs: map<string, T>): map<string, T>
    decreases |jobs|
  {
    if |jobs| <= KEPT then jobs
    else
      var k := Oldest(jobs.Keys);
      DropOne(jobs, k);
      Trimmed(jobs - {k})
  }

  lemma TrimOldest<T>(jobs: map<string, T>, k: string)
    requires |jobs| == KEPT + 1 && IsOldest(jobs.Keys, k)
    ensures Trimmed(jobs) == jobs - {k}
  {
    OldestIsUnique(jobs.Keys, k, Oldest(jobs.Keys));
    DropOne(jobs, k);
  }

  // ----- Runs

  ghost function Step<T>(w: Window<T>, a: Attempt<T>): Window<T> {
    var n := w.counter + 1;
    match a
    case Fail => w.(counter := n)
    case Publish(job) => Window(n, Trimmed(w.jobs[IdOf(n) := job]), Some((IdOf(n), job)))
  }

  ghost function Run<T>(attempts: seq<Attempt<T>>): (w: Window<T>)
    ensures w.counter == |attempts|
  {
    if attempts == [] then Window(0, map[], None)
    else Step(Run(attempts[..|attempts| - 1]), attempts[|attempts| - 1])
  }

  /** What was published, with its number, in order; the gaps are the failures. */
  function Published<T>(attempts: seq<Attempt<T>>): seq<(nat, T)> {
    if attempts == [] then []
    else
      var n := |attempts|;
      var earlier := Published(attempts[..n - 1]);
      match attempts[n - 1]
      case Publish(job) => earlier + [(n, job)]
      case Fail => earlier
  }

  function LastTen<T>(es: seq<(nat, T)>): seq<(nat, T)> {
    if |es| <= KEPT then es else es[|es| - KEPT..]
  }

  function MapOf<T>(es: seq<(nat, T)>): map<string, T> {
    if es == [] then map[]
    else
      var last := es[|es| - 1];
      MapOf(es[..|es| - 1])[IdOf(last.0) := last.1]
  }

  predicate Increasing<T>(es: seq<(nat, T)>, limit: nat) {
    && (forall i, j :: 0 <= i < j < |es| ==> es[i].0 < es[j].0)
    && (forall i :: 0 <= i < |es| ==> es[i].0 <= limit)
  }

  lemma {:induction false} PublishedIncreasing<T>(attempts: seq<Attempt<T>>)
    ensures Increasing(Published(attempts), |attempts|)
  {
    if attempts != [] { PublishedIncreasing(attempts[..|attempts| - 1]); }
  }

  lemma {:induction false} MapKeys<T>(es: seq<(nat, T)>, k: string)
    ensures k in MapOf(es) <==> exists i :: 0 <= i < |es| && k == IdOf(es[i].0)
  {
    if es != [] {
      var n := |es| - 1;
      MapKeys(es[..n], k);
      assert forall i :: 0 <= i < n ==> es[..n][i] == es[i];
    }
  }

  lemma NewKey<T>(es: seq<(nat, T)>, n: nat)
    requires 0 < n < U32_LIMIT && Increasing(es, n - 1)
    ensures IdOf(n) !in MapOf(es)
  {
    MapKeys(es, IdOf(n));
    forall i | 0 <= i < |es| ensures IdOf(n) != IdOf(es[i].0) {
      Hex.Format08Order(es[i].0, n);
    }
  }

  lemma PrefixIncreasing<T>(es: seq<(nat, T)>, limit: nat)
    requires es != [] && Increasing(es, limit)
    ensures var n := |es| - 1;
            && Increasing(es[..n], limit) && es[n].0 <= limit
            && (n > 0 ==> es[n].0 > 0 && Increasing(es[..n], es[n].0 - 1))
  {
    if |es| > 1 { assert es[0].0 < es[|es| - 1].0; }
  }

  lemma {:induction false} MapSize<T>(es: seq<(nat, T)>, limit: nat)
    requires Increasing(es, limit) && limit < U32_LIMIT
    ensures |MapOf(es)| == |es|
  {
    if es != [] {
      var n := |es| - 1;
      PrefixIncreasing(es, limit);
      MapSize(es[..n], limit);
      if n > 0 { NewKey(es[..n], es[n].0); } else { assert MapOf(es[..n]) == map[]; }
      InsertGrows(MapOf(es[..n]), IdOf(es[n].0), es[n].1);
    }
  }

  lemma DropOther<T>(jobs: map<string, T>, k: string, id: string, job: T)
    requires k != id
    ensures jobs[id := job] - {k} == (jobs - {k})[id := job]
  {
  }

  lemma {:induction false} DropFirst<T>(es: seq<(nat, T)>, limit: nat)
    requires es != [] && Increasing(es, limit) && limit < U32_LIMIT
    ensures MapOf(es) - {IdOf(es[0].0)} == MapOf(es[1..])
  {
    var n := |es| - 1;
    if n == 0 {
      assert es[..0] == [] && es[1..] == [];
    } else {
      var front, last := es[..n], es[n];
      DropFirst(front, limit);
      assert IdOf(es[0].0) != IdOf(last.0) by { Hex.Format08Order(es[0].0, last.0); }
      assert es[1..][..n - 1] == front[1..] && es[1..][n - 1] == last;
      DropOther(MapOf(front), IdOf(es[0].0), IdOf(last.0), last.1);
    }
  }

  lemma FirstIsOldest<T>(es: seq<(nat, T)>, limit: nat)
    requires es != [] && Increasing(es, limit) && limit < U32_LIMIT
    ensures IsOldest(MapOf(es).Keys, IdOf(es[0].0))
  {
    var k0 := IdOf(es[0].0);
    MapKeys(es, k0);
    forall k | k in MapOf(es).Keys && k != k0 ensures Hex.TextLess(k0, k) {
      MapKeys(es, k);
      var i :| 0 <= i < |es| && k == IdOf(es[i].0);
      Hex.Format08Order(es[0].0, es[i].0);
    }
  }

  lemma TrimFull<T>(full: seq<(nat, T)>, n: nat)
    requires |full| == KEPT + 1 && n < U32_LIMIT && Increasing(full, n)
    ensures Trimmed(MapOf(full)) == MapOf(full[1..])
  {
    MapSize(full, n);
    FirstIsOldest(full, n);
    TrimOldest(MapOf(full), IdOf(full[0].0));
    DropFirst(full, n);
  }

  lemma MapAppend<T>(es: seq<(nat, T)>, e: (nat, T))
    ensures MapOf(es + [e]) == MapOf(es)[IdOf(e.0) := e.1]
  {
    assert (es + [e])[..|es|] == es;
  }

  lemma AppendIncreasing<T>(es: seq<(nat, T)>, n: nat, job: T)
    requires n > 0 && Increasing(es, n - 1)
    ensures Increasing(LastTen(es) + [(n, job)], n)
  {
  }

  lemma PublishKeepsLastTen<T>(es: seq<(nat, T)>, n: nat, job: T)
    requires 0 < n < U32_LIMIT && Increasing(es, n - 1)
    ensures Trimmed(MapOf(LastTen(es))[IdOf(n) := job]) == MapOf(LastTen(es + [(n, job)]))
  {
    var full := LastTen(es) + [(n, job)];
    MapAppend(LastTen(es), (n, job));
    AppendIncreasing(es, n, job);
    LastTenGrows(es, (n, job));
    if |es| < KEPT {
      MapSize(full, n);
    } else {
      TrimFull(full, n);
    }
  }

  lemma LastTenGrows<T>(es: seq<(nat, T)>, e: (nat, T))
    ensures LastTen(es + [e]) == if |es| < KEPT then LastTen(es) + [e] else (LastTen(es) + [e])[1..]
  {
  }

  /** After every run of fewer than 2^32 attempts the map is exactly the last ten published jobs,
      or all of them if fewer, and the current job is the newest. */
  lemma {:induction false} WindowIsLastTen<T>(attempts: seq<Attempt<T>>)
    requires |attempts| < U32_LIMIT
    ensures Run(attempts).jobs == MapOf(LastTen(Published(attempts)))
    ensures var es := Published(attempts);
            Run(attempts).current == if es == [] then None else Some((IdOf(es[|es| - 1].0), es[|es| - 1].1))
  {
    if attempts != [] {
      var n := |attempts|;
      var before := attempts[..n - 1];
      WindowIsLastTen(before);
      if attempts[n - 1].Publish? {
        PublishedIncreasing(before);
        PublishKeepsLastTen(Published(before), n, attempts[n - 1].job);
      }
    }
  }

  /** No later number below 2^32 prints the current job's id. */
  lemma CurrentIdIsOld<T>(attempts: seq<Attempt<T>>, n: nat)
    requires Run(attempts).current.Some? && |attempts| < n < U32_LIMIT
    ensures Run(attempts).current.value.0 != IdOf(n)
  {
    var es := Published(attempts);
    WindowIsLastTen(attempts);
    PublishedIncreasing(attempts);
    Hex.Format08Order(es[|es| - 1].0, n);
  }

  /** So a miner told of the current job can always submit against it. */
  lemma CurrentIsKnown<T>(attempts: seq<Attempt<T>>, w: Window<T>)
    requires |attempts| < U32_LIMIT && w == Run(attempts) && w.current.Some?
    ensures w.current.value.0 in w.jobs && w.jobs[w.current.value.0] == w.current.value.1
  {
    WindowIsLastTen(attempts);
    LastIsKept(Published(attempts));
  }

  lemma LastIsKept<T>(es: seq<(nat, T)>)
    requires es != []
    ensures var last, kept := es[|es| - 1], MapOf(LastTen(es));
            IdOf(last.0) in kept && kept[IdOf(last.0)] == last.1
  {
    assert LastTen(es)[|LastTen(es)| - 1] == es[|es| - 1];
    MapHasLast(LastTen(es));
  }

  lemma MapHasLast<T>(es: seq<(nat, T)>)
    requires es != []
    ensures var last := es[|es| - 1];
            IdOf(last.0) in MapOf(es) && MapOf(es)[IdOf(last.0)] == last.1
  {
  }

  lemma {:induction false} TrimmingAddsNothing<T>(jobs: map<string, T>)
    ensures forall k :: k in Trimmed(jobs) ==> k in jobs && Trimmed(jobs)[k] == jobs[k]
    decreases |jobs|
  {
    if |jobs| > KEPT {
      var k := Oldest(jobs.Keys);
      DropOne(jobs, k);
      TrimmingAddsNothing(jobs - {k});
    }
  }

  /** In every run, of any length, every id in the map is a printed number. */
  lemma {:induction false} IdsAreDigits<T>(attempts: seq<Attempt<T>>, id: string)
    requires id in Run(attempts).jobs
    ensures Hex.AllDigits(id)
  {
    var n := |attempts|;
    var before := Run(attempts[..n - 1]);
    if attempts[n - 1].Publish? {
      TrimmingAddsNothing(before.jobs[IdOf(n) := attempts[n - 1].job]);
      if id == IdOf(n) { return; }
    }
    IdsAreDigits(attempts[..n - 1], id);
  }

  /** The window holds ten jobs as soon as ten were published, and all of them before. */
  lemma KeepsTen<T>(attempts: seq<Attempt<T>>)
    requires |attempts| < U32_LIMIT
    ensures var n := |Published(attempts)|;
            |Run(attempts).jobs| == if n < 10 then n else 10
  {
    WindowIsLastTen(attempts);
    PublishedIncreasing(attempts);
    LastTenIncreasing(Published(attempts), |attempts|);
    MapSize(LastTen(Published(attempts)), |attempts|);
  }

  lemma HeldShape<T>(es: seq<(nat, T)>, n: nat)
    requires 0 < n < U32_LIMIT && Increasing(es, n - 1) && |es| <= KEPT
    ensures |MapOf(es)| <= KEPT && IdOf(n) !in MapOf(es)
  {
    MapSize(es, n - 1);
    NewKey(es, n);
  }

  lemma HeldBefore<T>(es: seq<(nat, T)>, n: nat)
    requires 0 < n < U32_LIMIT && Increasing(es, n - 1)
    ensures forall k :: k in MapOf(es) ==> Hex.TextLess(k, IdOf(n))
  {
    forall k | k in MapOf(es) ensures Hex.TextLess(k, IdOf(n)) {
      MapKeys(es, k);
      var i :| 0 <= i < |es| && k == IdOf(es[i].0);
      Hex.Format08Order(es[i].0, n);
    }
  }

  lemma LastTenIncreasing<T>(es: seq<(nat, T)>, limit: nat)
    requires Increasing(es, limit)
    ensures Increasing(LastTen(es), limit) && |LastTen(es)| <= KEPT
  {
  }

  lemma NextIdIsNew<T>(attempts: seq<Attempt<T>>)
    requires |attempts| + 1 < U32_LIMIT
    ensures |Run(attempts).jobs| <= KEPT && IdOf(|attempts| + 1) !in Run(attempts).jobs
    ensures forall k :: k in Run(attempts).jobs ==> Hex.TextLess(k, IdOf(|attempts| + 1))
  {
    var es := Published(attempts);
    assert Run(attempts).jobs == MapOf(LastTen(es)) by { WindowIsLastTen(attempts); }
    PublishedIncreasing(attempts);
    LastTenIncreasing(es, |attempts|);
    HeldShape(LastTen(es), |attempts| + 1);
    HeldBefore(LastTen(es), |attempts| + 1);
  }

  /** Whether publishing into this window drops `id`: it is full and `id` is its oldest. */
  predicate DropsNext<T>(jobs: map<string, T>, id: string) { |jobs| == KEPT && IsOldest(jobs.Keys, id) }

  /** A job leaves the window exactly when another is published into it while it is full and the
      job is its oldest; until then it stays as it was. */
  lemma OldJobSurvives<T>(attempts: seq<Attempt<T>>, a: Attempt<T>, id: string)
    requires |attempts| + 1 < U32_LIMIT && id in Run(attempts).jobs
    ensures var jobs, after := Run(attempts).jobs, Step(Run(attempts), a).jobs;
            && (id in after <==> !(a.Publish? && DropsNext(jobs, id)))
            && (id in after ==> after[id] == jobs[id])
  {
    NextIdIsNew(attempts);
    if a.Publish? { SurvivesInsert(Run(attempts).jobs, IdOf(|attempts| + 1), a.job, id); }
  }

  lemma SurvivesInsert<T>(jobs: map<string, T>, newId: string, job: T, id: string)
    requires |jobs| <= KEPT && newId !in jobs && id in jobs && forall k :: k in jobs ==> Hex.TextLess(k, newId)
    ensures var after := Trimmed(jobs[newId := job]);
            (id in after <==> !DropsNext(jobs, id)) && (id in after ==> after[id] == jobs[id])
  {
    var full := jobs[newId := job];
    assert full.Keys == jobs.Keys + {newId};
    if |jobs| == KEPT {
      var oldest := Oldest(full.Keys);
      assert oldest == id ==> IsOldest(jobs.Keys, id);
      assert IsOldest(jobs.Keys, id) ==> IsOldest(full.Keys, id);
      if IsOldest(full.Keys, id) { OldestIsUnique(full.Keys, id, oldest); }
      TrimOldest(full, oldest);
    }
  }

  // ----- Past 2^32

  lemma InsertLeast<T>(jobs: map<string, T>, id: string, job: T)
    requires |jobs| == KEPT && id !in jobs && forall k :: k in jobs ==> Hex.TextLess(id, k)
    ensures Trimmed(jobs[id := job]) == jobs
  {
    var full := jobs[id := job];
    assert full.Keys == jobs.Keys + {id};
    TrimOldest(full, id);
    assert full - {id} == jobs;
  }

  lemma NineDigitIsNew<T>(es: seq<(nat, T)>, n: nat)
    requires Increasing(es, U32_LIMIT - 1) && U32_LIMIT <= n < 16 * U32_LIMIT
    ensures IdOf(n) !in MapOf(es)
  {
    MapKeys(es, IdOf(n));
    forall i | 0 <= i < |es| ensures IdOf(n) != IdOf(es[i].0) {
      Hex.NineDigitOrder(n, es[i].0);
    }
  }

  lemma LeastOfAll<T>(es: seq<(nat, T)>, n: nat)
    requires Increasing(es, U32_LIMIT - 1) && U32_LIMIT <= n < 16 * U32_LIMIT
    requires forall i :: 0 <= i < |es| ==> n / 16 < es[i].0
    ensures forall k :: k in MapOf(es) ==> Hex.TextLess(IdOf(n), k)
  {
    forall k | k in MapOf(es) ensures Hex.TextLess(IdOf(n), k) {
      MapKeys(es, k);
      var i :| 0 <= i < |es| && k == IdOf(es[i].0);
      Hex.NineDigitOrder(n, es[i].0);
    }
  }

  lemma InsertOther<T>(jobs: map<string, T>, id: string, job: T, k: string)
    requires |jobs| == KEPT && id !in jobs && k in jobs && !Hex.TextLess(id, k)
    ensures id in Trimmed(jobs[id := job])
  {
    var full := jobs[id := job];
    assert full.Keys == jobs.Keys + {id};
    var oldest := Oldest(full.Keys);
    assert oldest != id;
    TrimOldest(full, oldest);
  }

  /** Publishing number `n`, once nine digits are printed, into a window of eight-digit ids. */
  lemma PublishNineDigits<T>(es: seq<(nat, T)>, n: nat, job: T)
    requires Increasing(es, U32_LIMIT - 1) && |es| <= KEPT && U32_LIMIT <= n < 16 * U32_LIMIT
    ensures var lost := |es| == KEPT && forall i :: 0 <= i < |es| ==> n / 16 < es[i].0;
            var after := Trimmed(MapOf(es)[IdOf(n) := job]);
            (IdOf(n) !in after <==> lost) && (lost ==> after == MapOf(es))
  {
    var id := IdOf(n);
    MapSize(es, U32_LIMIT - 1);
    NineDigitIsNew(es, n);
    if |es| < KEPT {
      assert MapOf(es)[id := job].Keys == MapOf(es).Keys + {id};
    } else if i :| 0 <= i < |es| && es[i].0 <= n / 16 {
      Hex.NineDigitOrder(n, es[i].0);
      MapKeys(es, IdOf(es[i].0));
      InsertOther(MapOf(es), id, job, IdOf(es[i].0));
    } else {
      LeastOfAll(es, n);
      InsertLeast(MapOf(es), id, job);
    }
  }

  /** The run whose last attempt takes number 2^32 publishes a job nobody can submit against
      exactly when ten jobs were held, all of them numbered above 2^28. */
  lemma NewestIsEvicted<T>(attempts: seq<Attempt<T>>, job: T)
    requires |attempts| == U32_LIMIT - 1
    ensures var held := LastTen(Published(attempts));
            var w := Run(attempts + [Publish(job)]);
            && w.current == Some((IdOf(U32_LIMIT), job))
            && (IdOf(U32_LIMIT) !in w.jobs <==>
                  |held| == KEPT && forall i :: 0 <= i < |held| ==> 0x1000_0000 < held[i].0)
  {
    var all := attempts + [Publish(job)];
    assert all[..|all| - 1] == attempts;
    WindowIsLastTen(attempts);
    PublishedIncreasing(attempts);
    PublishNineDigits(LastTen(Published(attempts)), U32_LIMIT, job);
  }

  predicate Publishes<T>(attempts: seq<Attempt<T>>) {
    exists i :: 0 <= i < |attempts| && attempts[i].Publish?
  }

  lemma FrozenPublish<T>(held: seq<(nat, T)>, jobs: map<string, T>, n: nat, job: T)
    requires Increasing(held, U32_LIMIT - 1) && |held| == KEPT && jobs == MapOf(held)
    requires U32_LIMIT <= n && n / 16 < held[0].0
    ensures Trimmed(jobs[IdOf(n) := job]) == jobs && IdOf(n) !in jobs
  {
    assert forall i :: 0 <= i < |held| ==> held[0].0 <= held[i].0;
    assert n < 16 * U32_LIMIT;
    PublishNineDigits(held, n, job);
  }

  lemma StepPublishes<T>(w: Window<T>, job: T, n: nat)
    requires n == w.counter + 1
    ensures Step(w, Publish(job)) == Window(n, Trimmed(w.jobs[IdOf(n) := job]), Some((IdOf(n), job)))
  {
  }

  lemma FrozenStep<T>(held: seq<(nat, T)>, w: Window<T>, a: Attempt<T>, n: nat)
    requires Increasing(held, U32_LIMIT - 1) && |held| == KEPT && w.jobs == MapOf(held) && n == w.counter + 1
    requires U32_LIMIT <= n && n / 16 < held[0].0
    ensures Step(w, a).jobs == w.jobs
    ensures a.Publish? ==> Step(w, a).current == Some((IdOf(n), a.job)) && IdOf(n) !in w.jobs
  {
    if a.Publish? {
      StepPublishes(w, a.job, n);
      FrozenPublish(held, w.jobs, n, a.job);
    }
  }

  lemma RunGrows<T>(attempts: seq<Attempt<T>>, more: seq<Attempt<T>>)
    requires more != []
    ensures Run(attempts + more) == Step(Run(attempts + more[..|more| - 1]), more[|more| - 1])
  {
    var all := attempts + more;
    assert all[..|all| - 1] == attempts + more[..|more| - 1] && all[|all| - 1] == more[|more| - 1];
  }

  lemma PublishesLast<T>(more: seq<Attempt<T>>)
    requires more != [] && Publishes(more) && !more[|more| - 1].Publish?
    ensures Publishes(more[..|more| - 1])
  {
    var i :| 0 <= i < |more| && more[i].Publish?;
    assert more[..|more| - 1][i].Publish?;
  }

  lemma {:induction false} HeldFreezes<T>(attempts: seq<Attempt<T>>, held: seq<(nat, T)>, more: seq<Attempt<T>>)
    requires |attempts| == U32_LIMIT - 1 && Run(attempts).jobs == MapOf(held)
    requires Increasing(held, U32_LIMIT - 1) && |held| == KEPT && (|attempts| + |more|) / 16 < held[0].0
    ensures var w := Run(attempts + more);
            w.jobs == MapOf(held) && (Publishes(more) ==> w.current.Some? && w.current.value.0 !in w.jobs)
  {
    if more == [] {
      assert attempts + more == attempts;
    } else {
      var k := |more| - 1;
      HeldFreezes(attempts, held, more[..k]);
      RunGrows(attempts, more);
      FrozenStep(held, Run(attempts + more[..k]), more[k], |attempts| + |more|);
      if !more[k].Publish? && Publishes(more) { PublishesLast(more); }
    }
  }

  /** From then on such a window is frozen: as long as the counter's first eight digits are below
      the oldest number held, every further job is dropped as soon as it is published. */
  lemma WindowFreezes<T>(attempts: seq<Attempt<T>>, more: seq<Attempt<T>>)
    requires |attempts| == U32_LIMIT - 1 && |Published(attempts)| >= KEPT
    requires (|attempts| + |more|) / 16 < LastTen(Published(attempts))[0].0
    ensures var w := Run(attempts + more);
            && w.jobs == Run(attempts).jobs
            && (Publishes(more) ==> w.current.Some? && w.current.value.0 !in w.jobs)
  {
    WindowIsLastTen(attempts);
    PublishedIncreasing(attempts);
    HeldFreezes(attempts, LastTen(Published(attempts)), more);
  }

  // ----- The shared state

  class JobTable<T> {
    var counter: nat
    var jobs: map<string, T>
    var current: Option<(string, T)>

    ghost function View(): Window<T>
      reads this
    {
      Window(counter, jobs, current)
    }

    constructor ()
      ensures View() == Run([])
    {
      counter, jobs, current := 0, map[], None;
    }

    /** Take a number; when there is no registered job the rest of the update is skipped. */
    method Attempted(job: Option<T>)
      modifies this
      ensures View() == Step(old(View()), if job.Some? then Publish(job.value) else Fail)
    {
      counter := counter + 1;
      if job.None? { return; }
      var id := IdOf(counter);
      jobs := jobs[id := job.value];
      jobs := Trim(jobs);
      current := Some((id, job.value));
    }
  }

  /** Remove the least key while more than ten are left. */
  method Trim<T>(jobs: map<string, T>) returns (kept: map<string, T>)
    ensures kept == Trimmed(jobs)
  {
    kept := jobs;
    while |kept| > KEPT
      invariant Trimmed(kept) == Trimmed(jobs)
      decreases |kept|
    {
      OldestExists(kept.Keys);
      var oldest :| IsOldest(kept.Keys, oldest);
      OldestIsUnique(kept.Keys, oldest, Oldest(kept.Keys));
      DropOne(kept, oldest);
      kept := kept - {oldest};
    }
  }
}
