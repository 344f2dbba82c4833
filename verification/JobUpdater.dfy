/** The poll loop that turns block templates into published jobs: new blocks, mempool refreshes,
    and registrations that may fail. */
module JobUpdater {
  import opened Bytes
  import opened Jobs
  import opened Merkle
  import opened Coinbase
  import opened JobWindow
  import opened Wire
  import opened Witness
  import opened Shares
  import Hex

  /** One poll: what the node answered, whether a refresh is due, and the template id the chain
      would assign, or None if registration fails. */
  datatype Poll = Poll(template: Template, due: bool, registered: Option<string>)

  /** What a poll leads to. `Tried` consumes a number. */
  datatype Decision =
    | Skipped
    | Tried(tracked: Option<Hash>, isNew: bool, attempt: Attempt<Job>)

  function Registered(job: Option<Job>, id: Option<string>): Attempt<Job> {
    if job.Some? && id.Some? then Publish(job.value.(templateId := id)) else Fail
  }

  predicate CoinbaseFails(p: Payment) { HasWitness(p) && Commitment(p).None? }

  /** `tracked` is the last block seen, `current` the job being mined, `id` the next job id. */
  function Decide(H: seq<Byte> -> Hash, pool: seq<Byte>, tracked: Option<Hash>, current: Option<Job>,
                  id: string, p: Poll): Decision {
    var t, prev := p.template, HashOfText(p.template.previousHash);
    if prev.None? then Skipped
    else if tracked != prev then
      var job := JobOf(H, id, t, pool);
      Tried(if job.Some? then prev else tracked, true, Registered(job, p.registered))
    else if !p.due then Skipped
    else if current.Some? && current.value.branches == Branches(H, ValidHashes(Txids(t.txs))) then Skipped
    else if CoinbaseFails(t.payment) then Skipped
    else
      var job := if current.Some? then Some(Refreshed(H, current.value, id, t, pool)) else None;
      Tried(tracked, false, Registered(job, p.registered))
  }

  /** The updater's state, with the templates that explain it: the last new block seen, the last
      one whose job was published, and the template of the last published job of either kind. */
  datatype State = State(tracked: Option<Hash>, window: Window<Job>, attempts: seq<Attempt<Job>>,
                         seen: Option<Template>, anchor: Option<Template>, latest: Option<Template>)

  function CurrentJob(w: Window<Job>): Option<Job> {
    if w.current.Some? then Some(w.current.value.1) else None
  }

  ghost function Taken(s: State, t: Template, d: Decision): State {
    match d
    case Skipped => s
    case Tried(tracked, isNew, attempt) =>
      State(tracked, JobWindow.Step(s.window, attempt), s.attempts + [attempt],
            if isNew && tracked != s.tracked then Some(t) else s.seen,
            if isNew && attempt.Publish? then Some(t) else s.anchor,
            if attempt.Publish? then Some(t) else s.latest)
  }

  ghost function Step(H: seq<Byte> -> Hash, pool: seq<Byte>, s: State, p: Poll): (u: State)
    ensures Explained(H, pool, s) ==> Explained(H, pool, u)
  {
    var d := Decide(H, pool, s.tracked, CurrentJob(s.window), IdOf(s.window.counter + 1), p);
    DecidedExplained(H, pool, s, p, d);
    Taken(s, p.template, d)
  }

  ghost function Run(H: seq<Byte> -> Hash, pool: seq<Byte>, polls: seq<Poll>): State {
    if polls == [] then State(None, Window(0, map[], None), [], None, None, None)
    else Step(H, pool, Run(H, pool, polls[..|polls| - 1]), polls[|polls| - 1])
  }

  // ----- Which template each field of the current job comes from

  predicate FromAnchor(job: Job, t: Template) {
    && HashOfText(t.previousHash) == Some(job.prevHash) && Hex.ParseU32(t.bits) == Some(job.nbits)
    && job.height == t.payment.height && job.version == (t.version % U32_LIMIT) as bv32
    && job.mintime == t.mintime && job.curtime == t.curtime
    && job.hasWitness == HasWitness(t.payment) && job.data == Datas(t.txs)
  }

  predicate FromLatest(H: seq<Byte> -> Hash, pool: seq<Byte>, job: Job, t: Template) {
    && job.coinbase1 == Half1(t.payment.height) && job.coinbase2 == Half2(t.payment, pool)
    && job.branches == Branches(H, ValidHashes(Txids(t.txs))) && job.ntime == t.curtime % U32_LIMIT
    && !CoinbaseFails(t.payment)
  }

  lemma NewJobFromTemplate(H: seq<Byte> -> Hash, pool: seq<Byte>, id: string, t: Template, tid: Option<string>)
    requires JobOf(H, id, t, pool).Some?
    ensures var job := JobOf(H, id, t, pool).value.(templateId := tid);
            FromAnchor(job, t) && FromLatest(H, pool, job, t)
  {
  }

  lemma RefreshKeepsAnchor(H: seq<Byte> -> Hash, pool: seq<Byte>, job: Job, id: string, a: Template, t: Template,
                           tid: Option<string>)
    requires FromAnchor(job, a) && !CoinbaseFails(t.payment)
    ensures var next := Refreshed(H, job, id, t, pool).(templateId := tid);
            FromAnchor(next, a) && FromLatest(H, pool, next, t)
  {
  }

  lemma CurrentAfter(w: Window<Job>, a: Attempt<Job>)
    ensures CurrentJob(JobWindow.Step(w, a)) == if a.Publish? then Some(a.job) else CurrentJob(w)
  {
  }

  /** What the current job is made of, `None` when nothing has been published. */
  predicate JobExplained(H: seq<Byte> -> Hash, pool: seq<Byte>, job: Option<Job>, anchor: Option<Template>,
                         latest: Option<Template>) {
    match job
    case None => anchor.None? && latest.None?
    case Some(j) =>
      && anchor.Some? && latest.Some? && j.templateId.Some?
      && FromAnchor(j, anchor.value) && FromLatest(H, pool, j, latest.value)
  }

  predicate Explained(H: seq<Byte> -> Hash, pool: seq<Byte>, s: State) {
    && (s.tracked.Some? <==> s.seen.Some?)
    && (s.seen.Some? ==> s.tracked == HashOfText(s.seen.value.previousHash))
    && JobExplained(H, pool, CurrentJob(s.window), s.anchor, s.latest)
  }

  /** A published job is explained by the poll, and by the old anchor if it is a refresh. */
  lemma PublishedExplained(H: seq<Byte> -> Hash, pool: seq<Byte>, s: State, p: Poll, d: Decision)
    requires JobExplained(H, pool, CurrentJob(s.window), s.anchor, s.latest)
    requires d == Decide(H, pool, s.tracked, CurrentJob(s.window), IdOf(s.window.counter + 1), p)
    requires d.Tried? && d.attempt.Publish?
    ensures JobExplained(H, pool, Some(d.attempt.job), if d.isNew then Some(p.template) else s.anchor, Some(p.template))
  {
    var id := IdOf(s.window.counter + 1);
    if d.isNew {
      NewJobFromTemplate(H, pool, id, p.template, p.registered);
    } else {
      RefreshKeepsAnchor(H, pool, CurrentJob(s.window).value, id, s.anchor.value, p.template, p.registered);
    }
  }

  /** The block tracked changes only to the one just seen. */
  lemma TrackedMoves(H: seq<Byte> -> Hash, pool: seq<Byte>, tracked: Option<Hash>, job: Option<Job>, id: string,
                     p: Poll)
    ensures var d := Decide(H, pool, tracked, job, id, p);
            d.Tried? && d.tracked != tracked ==>
              d.isNew && d.tracked.Some? && d.tracked == HashOfText(p.template.previousHash)
  {
  }

  /** A decision that tracks only the block of `t` and publishes only explained jobs. */
  predicate Sound(H: seq<Byte> -> Hash, pool: seq<Byte>, s: State, t: Template, d: Decision) {
    d.Tried? ==>
      && (d.tracked != s.tracked ==> d.isNew && d.tracked.Some? && d.tracked == HashOfText(t.previousHash))
      && (d.attempt.Publish? ==>
            JobExplained(H, pool, Some(d.attempt.job), if d.isNew then Some(t) else s.anchor, Some(t)))
  }

  lemma TakenExplained(H: seq<Byte> -> Hash, pool: seq<Byte>, s: State, t: Template, d: Decision)
    requires Explained(H, pool, s) && Sound(H, pool, s, t, d)
    ensures Explained(H, pool, Taken(s, t, d))
  {
    if d.Tried? { CurrentAfter(s.window, d.attempt); }
  }

  lemma DecidedSound(H: seq<Byte> -> Hash, pool: seq<Byte>, s: State, p: Poll, d: Decision)
    requires Explained(H, pool, s)
    requires d == Decide(H, pool, s.tracked, CurrentJob(s.window), IdOf(s.window.counter + 1), p)
    ensures Sound(H, pool, s, p.template, d)
  {
    TrackedMoves(H, pool, s.tracked, CurrentJob(s.window), IdOf(s.window.counter + 1), p);
    if d.Tried? && d.attempt.Publish? { PublishedExplained(H, pool, s, p, d); }
  }

  lemma DecidedExplained(H: seq<Byte> -> Hash, pool: seq<Byte>, s: State, p: Poll, d: Decision)
    requires d == Decide(H, pool, s.tracked, CurrentJob(s.window), IdOf(s.window.counter + 1), p)
    ensures Explained(H, pool, s) ==> Explained(H, pool, Taken(s, p.template, d))
  {
    if Explained(H, pool, s) {
      DecidedSound(H, pool, s, p, d);
      TakenExplained(H, pool, s, p.template, d);
    }
  }

  /** After any sequence of polls, the current job takes its block (previous hash, height, target,
      version, time window, witness flag, raw transactions) from the last new block that was
      registered and its work (coinbase, branches, time) from the last published template. */
  lemma {:induction false} JobIsExplained(H: seq<Byte> -> Hash, pool: seq<Byte>, polls: seq<Poll>)
    ensures Explained(H, pool, Run(H, pool, polls))
  {
    if polls != [] {
      JobIsExplained(H, pool, polls[..|polls| - 1]);
    }
  }

  /** The window of the updater is a run of attempts, so it holds the last ten published jobs. */
  lemma {:induction false} WindowIsRun(H: seq<Byte> -> Hash, pool: seq<Byte>, polls: seq<Poll>)
    ensures var s := Run(H, pool, polls);
            s.window == JobWindow.Run(s.attempts) && |s.attempts| <= |polls|
            && (|polls| < U32_LIMIT ==> s.window.jobs == MapOf(LastTen(Published(s.attempts))))
  {
    var s := Run(H, pool, polls);
    if polls != [] {
      var before := Run(H, pool, polls[..|polls| - 1]);
      WindowIsRun(H, pool, polls[..|polls| - 1]);
      assert s.attempts != before.attempts ==> s.attempts[..|s.attempts| - 1] == before.attempts;
    }
    if |polls| < U32_LIMIT { WindowIsLastTen(s.attempts); }
  }

  // ----- A failed registration

  ghost function Continue(H: seq<Byte> -> Hash, pool: seq<Byte>, s: State, polls: seq<Poll>): State {
    if polls == [] then s
    else Step(H, pool, Continue(H, pool, s, polls[..|polls| - 1]), polls[|polls| - 1])
  }

  predicate AllSee(polls: seq<Poll>, block: Option<Hash>) {
    forall i :: 0 <= i < |polls| ==> HashOfText(polls[i].template.previousHash) == block
  }

  /** A new block whose job can be built. */
  predicate SeesNew(H: seq<Byte> -> Hash, pool: seq<Byte>, s: State, p: Poll) {
    && s.tracked != HashOfText(p.template.previousHash)
    && JobOf(H, IdOf(s.window.counter + 1), p.template, pool).Some?
  }

  /** One that cannot be registered, then only polls of that block. */
  predicate FailsThenSees(H: seq<Byte> -> Hash, pool: seq<Byte>, s: State, failed: Poll, later: seq<Poll>) {
    && failed.registered.None? && SeesNew(H, pool, s, failed)
    && AllSee(later, HashOfText(failed.template.previousHash))
  }

  lemma SameBlockKeepsAnchor(H: seq<Byte> -> Hash, pool: seq<Byte>, s: State, p: Poll)
    requires s.tracked == HashOfText(p.template.previousHash)
    ensures var u := Step(H, pool, s, p);
            u.anchor == s.anchor && u.tracked == s.tracked && (u.latest == s.latest || u.latest == Some(p.template))
  {
  }

  /** Polls that see the tracked block again, however many, never change the block mined on. */
  lemma {:induction false} SameBlockStays(H: seq<Byte> -> Hash, pool: seq<Byte>, s: State, polls: seq<Poll>)
    requires Explained(H, pool, s) && AllSee(polls, s.tracked)
    ensures var u := Continue(H, pool, s, polls);
            && u.tracked == s.tracked && u.anchor == s.anchor && Explained(H, pool, u)
            && (u.latest == s.latest || exists i :: 0 <= i < |polls| && u.latest == Some(polls[i].template))
  {
    if polls != [] {
      var n := |polls| - 1;
      SameBlockStays(H, pool, s, polls[..n]);
      var u := Continue(H, pool, s, polls[..n]);
      SameBlockKeepsAnchor(H, pool, u, polls[n]);
    }
  }

  /** A new block whose job cannot be registered counts as seen all the same. */
  lemma FailedBlockIsSeen(H: seq<Byte> -> Hash, pool: seq<Byte>, s: State, p: Poll)
    requires p.registered.None? && SeesNew(H, pool, s, p)
    ensures var u := Step(H, pool, s, p);
            && u.tracked == HashOfText(p.template.previousHash) && u.anchor == s.anchor && u.latest == s.latest
            && CurrentJob(u.window) == CurrentJob(s.window)
  {
  }

  lemma OneAnchorOneBlock(H: seq<Byte> -> Hash, pool: seq<Byte>, s: State, u: State)
    requires Explained(H, pool, s) && Explained(H, pool, u) && s.anchor == u.anchor && CurrentJob(s.window).Some?
    ensures CurrentJob(u.window).Some?
    ensures CurrentJob(u.window).value.prevHash == CurrentJob(s.window).value.prevHash
    ensures CurrentJob(u.window).value.height == CurrentJob(s.window).value.height
  {
  }

  /** It does not become the block mined on: until the node reports yet another block, every job
      published extends the last registered block and carries its height, although its coinbase,
      which commits to the new height, and its branches come from a later template. */
  lemma StuckOnOldBlock(H: seq<Byte> -> Hash, pool: seq<Byte>, s: State, failed: Poll, later: seq<Poll>)
    requires Explained(H, pool, s) && CurrentJob(s.window).Some?
    requires FailsThenSees(H, pool, s, failed, later)
    ensures var u := Continue(H, pool, Step(H, pool, s, failed), later);
            var before, after := CurrentJob(s.window).value, CurrentJob(u.window);
            && u.tracked == HashOfText(failed.template.previousHash)
            && after.Some? && after.value.prevHash == before.prevHash && after.value.height == before.height
            && u.latest.Some? && FromLatest(H, pool, after.value, u.latest.value)
            && (u.latest == s.latest || exists i :: 0 <= i < |later| && u.latest == Some(later[i].template))
  {
    var first := Step(H, pool, s, failed);
    FailedBlockIsSeen(H, pool, s, failed);
    SameBlockStays(H, pool, first, later);
    OneAnchorOneBlock(H, pool, s, Continue(H, pool, first, later));
  }

  /** If nothing had been published yet, nothing is until another block is found. */
  lemma StuckBeforeFirstJob(H: seq<Byte> -> Hash, pool: seq<Byte>, s: State, failed: Poll, later: seq<Poll>)
    requires Explained(H, pool, s) && CurrentJob(s.window).None?
    requires FailsThenSees(H, pool, s, failed, later)
    ensures CurrentJob(Continue(H, pool, Step(H, pool, s, failed), later).window).None?
  {
    var first := Step(H, pool, s, failed);
    FailedBlockIsSeen(H, pool, s, failed);
    SameBlockStays(H, pool, first, later);
  }

  /** A due poll of the tracked block with new branches and a coinbase that can be built. */
  predicate Refreshes(H: seq<Byte> -> Hash, s: State, p: Poll) {
    && CurrentJob(s.window).Some? && s.tracked.Some? && s.tracked == HashOfText(p.template.previousHash)
    && p.due && p.registered.Some? && !CoinbaseFails(p.template.payment)
    && CurrentJob(s.window).value.branches != Branches(H, ValidHashes(Txids(p.template.txs)))
  }

  lemma RefreshIsPublished(H: seq<Byte> -> Hash, pool: seq<Byte>, s: State, p: Poll)
    requires Refreshes(H, s, p)
    ensures var u := Step(H, pool, s, p);
            u.latest == Some(p.template) && u.anchor == s.anchor && u.tracked == s.tracked
    ensures CurrentJob(Step(H, pool, s, p).window) ==
            Some(Refreshed(H, CurrentJob(s.window).value, IdOf(s.window.counter + 1), p.template, pool)
                   .(templateId := p.registered))
  {
  }

  lemma RefreshMixes(H: seq<Byte> -> Hash, pool: seq<Byte>, s: State, p: Poll)
    requires Refreshes(H, s, p)
    ensures var before, after := CurrentJob(s.window).value, CurrentJob(Step(H, pool, s, p).window);
            && after.Some? && after.value.prevHash == before.prevHash && after.value.height == before.height
            && after.value.coinbase1 == Half1(p.template.payment.height)
            && after.value.branches == Branches(H, ValidHashes(Txids(p.template.txs)))
  {
    RefreshIsPublished(H, pool, s, p);
  }

  /** Such mixed jobs are published: after the failure, the first due refresh with new branches puts
      a coinbase that commits to the new height on top of the old block. */
  lemma StuckRefreshMixes(H: seq<Byte> -> Hash, pool: seq<Byte>, s: State, failed: Poll, later: seq<Poll>,
                          mid: State, p: Poll)
    requires Explained(H, pool, s) && CurrentJob(s.window).Some? && FailsThenSees(H, pool, s, failed, later)
    requires mid == Continue(H, pool, Step(H, pool, s, failed), later) && Refreshes(H, mid, p)
    ensures var before, after := CurrentJob(s.window).value, CurrentJob(Step(H, pool, mid, p).window);
            && after.Some? && after.value.prevHash == before.prevHash && after.value.height == before.height
            && after.value.coinbase1 == Half1(p.template.payment.height)
            && after.value.branches == Branches(H, ValidHashes(Txids(p.template.txs)))
  {
    StuckOnOldBlock(H, pool, s, failed, later);
    RefreshMixes(H, pool, mid, p);
  }

  /** A registered new block is mined on at once. */
  lemma RegisteredBlockIsMined(H: seq<Byte> -> Hash, pool: seq<Byte>, s: State, p: Poll)
    requires Explained(H, pool, s) && p.registered.Some? && SeesNew(H, pool, s, p)
    ensures var u := Step(H, pool, s, p);
            && u.tracked == HashOfText(p.template.previousHash) && CurrentJob(u.window).Some?
            && u.tracked == Some(CurrentJob(u.window).value.prevHash)
            && FromAnchor(CurrentJob(u.window).value, p.template)
            && FromLatest(H, pool, CurrentJob(u.window).value, p.template)
  {
  }

  /** The current job extends the block last seen. */
  predicate MinesSeen(s: State) {
    CurrentJob(s.window).Some? && s.tracked == Some(CurrentJob(s.window).value.prevHash)
  }

  /** From a new block until the node reports another, the pool mines on the block it has seen
      exactly when that block's job was registered, or the node has come back to the block that
      was being mined on. */
  lemma MinesSeenIff(H: seq<Byte> -> Hash, pool: seq<Byte>, s: State, p: Poll, later: seq<Poll>)
    requires Explained(H, pool, s) && SeesNew(H, pool, s, p)
    requires AllSee(later, HashOfText(p.template.previousHash))
    ensures var job, block := CurrentJob(s.window), HashOfText(p.template.previousHash);
            MinesSeen(Continue(H, pool, Step(H, pool, s, p), later)) <==>
              p.registered.Some? || (job.Some? && Some(job.value.prevHash) == block)
  {
    var first := Step(H, pool, s, p);
    if p.registered.Some? {
      RegisteredBlockIsMined(H, pool, s, p);
      SameBlockStays(H, pool, first, later);
      OneAnchorOneBlock(H, pool, first, Continue(H, pool, first, later));
    } else if CurrentJob(s.window).Some? {
      StuckOnOldBlock(H, pool, s, p, later);
    } else {
      StuckBeforeFirstJob(H, pool, s, p, later);
    }
  }

  function TemplateBranches(H: seq<Byte> -> Hash, t: Template): seq<Hash> {
    Branches(H, ValidHashes(Txids(t.txs)))
  }

  // ----- What one poll does, in the node's own terms

  /** The template's commitment is there and is not hexadecimal. */
  predicate BadCommitment(t: Template) {
    var text := t.payment.commitmentHex;
    text.Some? && text.value != "" && Hex.Decode(text.value).None?
  }

  /** Nothing is attempted: the previous hash does not parse, or the block is the one tracked and
      no refresh is due, or it is due and finds the branches of the current job, or a coinbase that
      cannot be built. */
  predicate Idle(H: seq<Byte> -> Hash, s: State, p: Poll) {
    var prev, job := HashOfText(p.template.previousHash), CurrentJob(s.window);
    || prev.None?
    || (s.tracked == prev
        && (!p.due || BadCommitment(p.template)
            || (job.Some? && job.value.branches == TemplateBranches(H, p.template))))
  }

  /** A poll changes nothing at all exactly when it is idle; any other takes the next number. */
  lemma PollIsIdle(H: seq<Byte> -> Hash, pool: seq<Byte>, s: State, p: Poll)
    ensures Step(H, pool, s, p) == s <==> Idle(H, s, p)
    ensures !Idle(H, s, p) ==> Step(H, pool, s, p).window.counter == s.window.counter + 1
  {
  }

  /** A job is published exactly when registration succeeds for a new block whose job can be built
      or for a refresh that is not idle; otherwise map and current job stay as they were. */
  lemma PollPublishes(H: seq<Byte> -> Hash, pool: seq<Byte>, s: State, p: Poll)
    ensures var u := Step(H, pool, s, p);
            if p.registered.Some? && (SeesNew(H, pool, s, p) || Refreshes(H, s, p))
            then CurrentJob(u.window).Some? && u.window.current.value.0 == IdOf(s.window.counter + 1)
            else u.window.jobs == s.window.jobs && u.window.current == s.window.current
    ensures Step(H, pool, s, p).tracked
         == if SeesNew(H, pool, s, p) then HashOfText(p.template.previousHash) else s.tracked
  {
  }

  /** A job under this id and registration, asking miners to drop their work or not. Its stored root
      is the one for an all-zero extranonce. */
  predicate Labelled(H: seq<Byte> -> Hash, job: Job, id: string, registered: Option<string>, clean: bool,
                     sequence: nat)
  {
    && job.id == id && job.templateId == registered && job.clean == clean && job.templateSeq == sequence
    && job.rootBase == Fold(H, H(job.coinbase1 + Zeros(12) + job.coinbase2), job.branches)
  }

  /** What is published: a job under the id it is filed under and the id its registration gave; a new
      block's asks miners to drop their work, a refresh does not; the template sequence starts at
      zero with a block and grows by one with a refresh. */
  lemma PublishedJob(H: seq<Byte> -> Hash, pool: seq<Byte>, s: State, p: Poll)
    requires p.registered.Some? && (SeesNew(H, pool, s, p) || Refreshes(H, s, p))
    ensures var w, isNew := Step(H, pool, s, p).window, s.tracked != HashOfText(p.template.previousHash);
            w.current.Some? && Labelled(H, w.current.value.1, w.current.value.0, p.registered, isNew,
                                        if isNew then 0 else CurrentJob(s.window).value.templateSeq + 1)
  {
    if SeesNew(H, pool, s, p) {
      NewJobIsCurrent(H, pool, s, p);
      NewJobLabels(H, pool, IdOf(s.window.counter + 1), p);
    } else {
      RefreshTakesNext(H, pool, s, p, Step(H, pool, s, p));
      RefreshIsPublished(H, pool, s, p);
      RefreshLabels(H, pool, CurrentJob(s.window).value, IdOf(s.window.counter + 1), p);
    }
  }

  lemma NewJobLabels(H: seq<Byte> -> Hash, pool: seq<Byte>, id: string, p: Poll)
    requires JobOf(H, id, p.template, pool).Some?
    ensures Labelled(H, JobOf(H, id, p.template, pool).value.(templateId := p.registered), id, p.registered, true, 0)
  {
  }

  lemma RefreshLabels(H: seq<Byte> -> Hash, pool: seq<Byte>, job: Job, id: string, p: Poll)
    ensures Labelled(H, Refreshed(H, job, id, p.template, pool).(templateId := p.registered), id, p.registered, false,
                     job.templateSeq + 1)
  {
  }

  lemma NewJobIsCurrent(H: seq<Byte> -> Hash, pool: seq<Byte>, s: State, p: Poll)
    requires p.registered.Some? && SeesNew(H, pool, s, p)
    ensures Step(H, pool, s, p).window.current
         == Some((IdOf(s.window.counter + 1),
                  JobOf(H, IdOf(s.window.counter + 1), p.template, pool).value.(templateId := p.registered)))
  {
  }

  /** In every reachable state every job of the window is filed under its own id. */
  lemma {:induction false} FiledUnderOwnId(H: seq<Byte> -> Hash, pool: seq<Byte>, polls: seq<Poll>)
    ensures OwnIds(Run(H, pool, polls).window)
  {
    if polls != [] {
      var s, p := Run(H, pool, polls[..|polls| - 1]), polls[|polls| - 1];
      FiledUnderOwnId(H, pool, polls[..|polls| - 1]);
      StepOwnIds(H, pool, s, p, Decide(H, pool, s.tracked, CurrentJob(s.window), IdOf(s.window.counter + 1), p));
    }
  }

  predicate OwnIds(w: Window<Job>) { forall id :: id in w.jobs ==> w.jobs[id].id == id }

  lemma DecidesOwnId(H: seq<Byte> -> Hash, pool: seq<Byte>, tracked: Option<Hash>, job: Option<Job>, id: string,
                     p: Poll)
    ensures var d := Decide(H, pool, tracked, job, id, p);
            d.Tried? && d.attempt.Publish? ==> d.attempt.job.id == id
  {
  }

  lemma PublishOwnId(w: Window<Job>, job: Job)
    requires OwnIds(w) && job.id == IdOf(w.counter + 1)
    ensures OwnIds(JobWindow.Step(w, Publish(job)))
  {
    TrimmingAddsNothing(w.jobs[job.id := job]);
  }

  lemma StepOwnIds(H: seq<Byte> -> Hash, pool: seq<Byte>, s: State, p: Poll, d: Decision)
    requires OwnIds(s.window)
    requires d == Decide(H, pool, s.tracked, CurrentJob(s.window), IdOf(s.window.counter + 1), p)
    ensures OwnIds(Taken(s, p.template, d).window)
  {
    DecidesOwnId(H, pool, s.tracked, CurrentJob(s.window), IdOf(s.window.counter + 1), p);
    if d.Tried? {
      if d.attempt.Publish? { PublishOwnId(s.window, d.attempt.job); }
      assert Taken(s, p.template, d).window == JobWindow.Step(s.window, d.attempt);
    }
  }

  // ----- Every job of the window

  predicate Polled(polls: seq<Poll>, t: Template) {
    exists i :: 0 <= i < |polls| && polls[i].template == t
  }

  lemma PolledLonger(polls: seq<Poll>, p: Poll, t: Template)
    requires Polled(polls, t)
    ensures Polled(polls + [p], t)
  {
    var i :| 0 <= i < |polls| && polls[i].template == t;
    assert (polls + [p])[i].template == t;
  }

  lemma PolledLast(polls: seq<Poll>, p: Poll)
    ensures Polled(polls + [p], p.template)
  {
    assert (polls + [p])[|polls|].template == p.template;
  }

  /** A job made of two templates that the node has answered. */
  ghost predicate Traced(H: seq<Byte> -> Hash, pool: seq<Byte>, polls: seq<Poll>, job: Job) {
    exists a, t :: MadeOf(H, pool, polls, job, a, t)
  }

  predicate MadeOf(H: seq<Byte> -> Hash, pool: seq<Byte>, polls: seq<Poll>, job: Job, a: Template, t: Template) {
    Polled(polls, a) && Polled(polls, t) && FromAnchor(job, a) && FromLatest(H, pool, job, t)
  }

  lemma TracedLonger(H: seq<Byte> -> Hash, pool: seq<Byte>, polls: seq<Poll>, p: Poll, job: Job)
    requires Traced(H, pool, polls, job)
    ensures Traced(H, pool, polls + [p], job)
  {
    var a, t :| MadeOf(H, pool, polls, job, a, t);
    PolledLonger(polls, p, a);
    PolledLonger(polls, p, t);
    assert MadeOf(H, pool, polls + [p], job, a, t);
  }

  ghost predicate AllTraced(H: seq<Byte> -> Hash, pool: seq<Byte>, polls: seq<Poll>, jobs: map<string, Job>) {
    forall id :: id in jobs ==> Traced(H, pool, polls, jobs[id])
  }

  predicate SourcesPolled(polls: seq<Poll>, s: State) {
    (s.anchor.Some? ==> Polled(polls, s.anchor.value)) && (s.latest.Some? ==> Polled(polls, s.latest.value))
  }

  lemma StepSources(H: seq<Byte> -> Hash, pool: seq<Byte>, polls: seq<Poll>, s: State, p: Poll)
    requires SourcesPolled(polls, s)
    ensures SourcesPolled(polls + [p], Step(H, pool, s, p))
  {
    PolledLast(polls, p);
    if s.anchor.Some? { PolledLonger(polls, p, s.anchor.value); }
    if s.latest.Some? { PolledLonger(polls, p, s.latest.value); }
  }

  lemma TakenWindow(s: State, t: Template, d: Decision, u: State, id: string)
    requires u == Taken(s, t, d) && id in u.window.jobs
    ensures (id in s.window.jobs && u.window.jobs[id] == s.window.jobs[id])
         || CurrentJob(u.window) == Some(u.window.jobs[id])
  {
    if d.Tried? { WindowAfter(s.window, d.attempt, id); }
  }

  /** Only the current job is new in the window of a step. */
  lemma StepWindow(H: seq<Byte> -> Hash, pool: seq<Byte>, s: State, p: Poll, u: State, id: string)
    requires u == Step(H, pool, s, p) && id in u.window.jobs
    ensures (id in s.window.jobs && u.window.jobs[id] == s.window.jobs[id])
         || CurrentJob(u.window) == Some(u.window.jobs[id])
  {
    var d := Decide(H, pool, s.tracked, CurrentJob(s.window), IdOf(s.window.counter + 1), p);
    TakenWindow(s, p.template, d, u, id);
  }

  lemma WindowAfter(w: Window<Job>, a: Attempt<Job>, id: string)
    requires id in JobWindow.Step(w, a).jobs
    ensures var u := JobWindow.Step(w, a);
            (id in w.jobs && u.jobs[id] == w.jobs[id]) || CurrentJob(u) == Some(u.jobs[id])
  {
    if a.Publish? { TrimmingAddsNothing(w.jobs[IdOf(w.counter + 1) := a.job]); }
  }

  /** In every reachable state every job of the window, not only the current one, takes its block
      from one polled template and its work from another or the same. */
  lemma {:induction false} WindowIsTraced(H: seq<Byte> -> Hash, pool: seq<Byte>, polls: seq<Poll>)
    ensures SourcesPolled(polls, Run(H, pool, polls))
    ensures AllTraced(H, pool, polls, Run(H, pool, polls).window.jobs)
  {
    if polls != [] {
      var before, p := polls[..|polls| - 1], polls[|polls| - 1];
      var s, u := Run(H, pool, before), Run(H, pool, polls);
      assert polls == before + [p];
      WindowIsTraced(H, pool, before);
      StepSources(H, pool, before, s, p);
      forall id | id in u.window.jobs ensures Traced(H, pool, polls, u.window.jobs[id]) {
        StepWindow(H, pool, s, p, u, id);
        if CurrentJob(u.window) == Some(u.window.jobs[id]) {
          JobIsExplained(H, pool, polls);
          assert MadeOf(H, pool, polls, u.window.jobs[id], u.anchor.value, u.latest.value);
        } else {
          TracedLonger(H, pool, before, p, u.window.jobs[id]);
        }
      }
    }
  }

  // ----- The block a solved share submits

  /** Templates whose payment fits its fields and whose raw transactions are what their ids say. */
  ghost predicate NodeIsHonest(H: seq<Byte> -> Hash, pool: seq<Byte>, polls: seq<Poll>) {
    forall i :: 0 <= i < |polls| ==>
      && PaymentOk(polls[i].template.payment) && ShortScripts(polls[i].template.payment, pool)
      && exists meaning :: Honest(H, polls[i].template.txs, meaning)
  }

  lemma HonestPolled(H: seq<Byte> -> Hash, pool: seq<Byte>, polls: seq<Poll>, t: Template)
    requires NodeIsHonest(H, pool, polls) && Polled(polls, t)
    ensures PaymentOk(t.payment) && ShortScripts(t.payment, pool) && exists meaning :: Honest(H, t.txs, meaning)
  {
  }

  /** In every reachable state, whatever came before, the block of the current job reads back as
      the raw transactions of the last registered block's template behind a coinbase of the last
      published one. Its header commits to what it carries when the two templates have the same
      branches, and only then if the strings hashed for the two roots do not collide. */
  lemma BlockOfAnyRun(H: seq<Byte> -> Hash, pool: seq<Byte>, polls: seq<Poll>, u: State, job: Job, meaning: seq<Tx>,
                      en: seq<Byte>, version: nat, ntime: nat, nonce: nat) returns (block: Block)
    requires u == Run(H, pool, polls) && CurrentJob(u.window) == Some(job) && |en| == 12
    requires forall i :: 0 <= i < |polls| ==>
               PaymentOk(polls[i].template.payment) && ShortScripts(polls[i].template.payment, pool)
    requires u.anchor.Some? ==> Honest(H, u.anchor.value.txs, meaning)
    ensures u.anchor.Some? && u.latest.Some?
    ensures block.header == JobHeader(H, job, version, en, ntime, nonce) && Submits(job, en, block)
    ensures block.txs != [] && block.txs[1..] == meaning
    ensures TemplateBranches(H, u.anchor.value) == TemplateBranches(H, u.latest.value) ==> Consistent(H, block)
    ensures NoCollisionIn(H, BlockTexts(H, job, en, meaning)) && Consistent(H, block) ==>
              TemplateBranches(H, u.anchor.value) == TemplateBranches(H, u.latest.value)
  {
    JobIsExplained(H, pool, polls);
    WindowIsTraced(H, pool, polls);
    var a, t := u.anchor.value, u.latest.value;
    HonestIds(H, a.txs, meaning);
    block := MixedBlock(H, job, t.payment, a.txs, meaning, pool, en, version, ntime, nonce);
  }

  /** In every reachable state, a validated share against any job of the window that solves it
      submits a block with exactly the header the share was judged by. The block reads back as the
      raw transactions of the template `a` the job's block came from, behind a coinbase of the
      template `t` its work came from, which pays that template's reward to the pool. The header
      commits to what the block carries when the two have the same branches, and only then if the
      strings hashed for the two roots do not collide. */
  lemma SolvedShareInAnyRun(H: seq<Byte> -> Hash, pool: seq<Byte>, polls: seq<Poll>, job: Job, e: string,
                            s: Submission) returns (a: Template, t: Template, meaning: seq<Tx>, block: Block)
    requires s.jobId in Run(H, pool, polls).window.jobs && Run(H, pool, polls).window.jobs[s.jobId] == job
    requires NodeIsHonest(H, pool, polls) && ValidateParams(s).None? && ServerExtranonce(e)
    ensures MadeOf(H, pool, polls, job, a, t) && Honest(H, a.txs, meaning)
    ensures block.header == ShareHeader(H, job, e, s) && Submits(job, Extranonce(e, s), block)
    ensures block.txs != [] && block.txs[1..] == meaning && Pays(block.txs[0], t.payment, pool, Extranonce(e, s))
    ensures TemplateBranches(H, a) == TemplateBranches(H, t) ==> Consistent(H, block)
    ensures NoCollisionIn(H, BlockTexts(H, job, Extranonce(e, s), meaning)) && Consistent(H, block) ==>
              TemplateBranches(H, a) == TemplateBranches(H, t)
  {
    WindowIsTraced(H, pool, polls);
    assert Traced(H, pool, polls, job);
    a, t :| MadeOf(H, pool, polls, job, a, t);
    HonestPolled(H, pool, polls, a);
    HonestPolled(H, pool, polls, t);
    meaning :| Honest(H, a.txs, meaning);
    block := BlockOfShare(H, pool, job, a, t, meaning, e, s);
  }

  lemma BlockOfShare(H: seq<Byte> -> Hash, pool: seq<Byte>, job: Job, a: Template, t: Template, meaning: seq<Tx>,
                     e: string, s: Submission) returns (block: Block)
    requires FromAnchor(job, a) && FromLatest(H, pool, job, t) && Honest(H, a.txs, meaning)
    requires PaymentOk(t.payment) && ShortScripts(t.payment, pool)
    requires ValidateParams(s).None? && ServerExtranonce(e)
    ensures block.header == ShareHeader(H, job, e, s) && Submits(job, Extranonce(e, s), block)
    ensures block.txs != [] && block.txs[1..] == meaning
    ensures block.txs[0] == BlockCoinbase(t.payment, pool, Extranonce(e, s), job.hasWitness)
    ensures Pays(block.txs[0], t.payment, pool, Extranonce(e, s))
    ensures TemplateBranches(H, a) == TemplateBranches(H, t) ==> Consistent(H, block)
    ensures NoCollisionIn(H, BlockTexts(H, job, Extranonce(e, s), meaning)) && Consistent(H, block) ==>
              TemplateBranches(H, a) == TemplateBranches(H, t)
  {
    TwelveBytes(s, e);
    HonestIds(H, a.txs, meaning);
    block := MixedBlock(H, job, t.payment, a.txs, meaning, pool, Extranonce(e, s),
                        Rolled(job.version, s.versionBits) as nat,
                        Hex.ParseU32(s.ntime).value, Hex.ParseU32(s.nonce).value);
  }

  /** Templates that also come with the right witness commitment. */
  ghost predicate NodeCommits(H: seq<Byte> -> Hash, pool: seq<Byte>, polls: seq<Poll>) {
    forall i :: 0 <= i < |polls| ==> Commits(H, pool, polls[i].template)
  }

  ghost predicate Commits(H: seq<Byte> -> Hash, pool: seq<Byte>, t: Template) {
    && PaymentOk(t.payment) && ShortScripts(t.payment, pool)
    && exists meaning :: Honest(H, t.txs, meaning) && CommitsTo(H, t.payment, meaning)
  }

  predicate SameWitness(H: seq<Byte> -> Hash, a: seq<Tx>, b: seq<Tx>) {
    Branches(H, WtxIds(H, a)) == Branches(H, WtxIds(H, b))
  }

  /** In every reachable state the block of a solved share satisfies BIP 141 when the two templates
      its job is made of have the same witness branches, and only then if the strings hashed for
      the two commitments are separated. */
  lemma CommitmentInAnyRun(H: seq<Byte> -> Hash, pool: seq<Byte>, polls: seq<Poll>, job: Job, e: string, s: Submission)
      returns (a: Template, t: Template, carried: seq<Tx>, promised: seq<Tx>, block: Block)
    requires s.jobId in Run(H, pool, polls).window.jobs && Run(H, pool, polls).window.jobs[s.jobId] == job
    requires NodeCommits(H, pool, polls) && ValidateParams(s).None? && ServerExtranonce(e)
    ensures MadeOf(H, pool, polls, job, a, t) && Honest(H, a.txs, carried) && Honest(H, t.txs, promised)
    ensures CommitsTo(H, t.payment, promised)
    ensures block.header == ShareHeader(H, job, e, s) && Submits(job, Extranonce(e, s), block)
    ensures block.txs != [] && block.txs[1..] == carried
    ensures SameWitness(H, promised, carried) ==> Committed(H, block)
    ensures Separates(H, promised, carried) && Committed(H, block) ==> SameWitness(H, promised, carried)
  {
    WindowIsTraced(H, pool, polls);
    assert Traced(H, pool, polls, job);
    a, t :| MadeOf(H, pool, polls, job, a, t);
    assert Commits(H, pool, a) && Commits(H, pool, t);
    carried :| Honest(H, a.txs, carried) && CommitsTo(H, a.payment, carried);
    promised :| Honest(H, t.txs, promised) && CommitsTo(H, t.payment, promised);
    block := BlockOfShare(H, pool, job, a, t, carried, e, s);
    MixedBlockCommitment(H, block, t.payment, pool, Extranonce(e, s), job.hasWitness, promised, carried);
  }

  // ----- Shares in every reachable state

  /** Every job of the window can be told from others by its headers. */
  lemma WindowIsMinable(H: seq<Byte> -> Hash, pool: seq<Byte>, polls: seq<Poll>, id: string)
    requires id in Run(H, pool, polls).window.jobs
    ensures Minable(Run(H, pool, polls).window.jobs[id]) && NoColon(id)
  {
    var s := Run(H, pool, polls);
    WindowIsTraced(H, pool, polls);
    var a, t :| MadeOf(H, pool, polls, s.window.jobs[id], a, t);
    HalvesLong(t.payment, pool);
    WindowIsRun(H, pool, polls);
    IdsAreDigits(s.attempts, id);
  }

  /** In every reachable state, two validated shares for jobs of the window with equal keys are
      one share: the same job and the same 80-byte header. */
  lemma KeysInAnyRun(H: seq<Byte> -> Hash, pool: seq<Byte>, polls: seq<Poll>, e1: string, s1: Submission,
                     e2: string, s2: Submission)
    requires var jobs := Run(H, pool, polls).window.jobs; s1.jobId in jobs && s2.jobId in jobs
    requires ValidateParams(s1).None? && ValidateParams(s2).None?
    requires Hex.Decode(e1).Some? && Hex.Decode(e2).Some? && Key(e1, s1) == Key(e2, s2)
    ensures var jobs := Run(H, pool, polls).window.jobs;
            s1 == s2 && ShareHeader(H, jobs[s1.jobId], e1, s1) == ShareHeader(H, jobs[s2.jobId], e2, s2)
  {
    var s := Run(H, pool, polls);
    WindowIsRun(H, pool, polls);
    IdsAreDigits(s.attempts, s1.jobId);
    IdsAreDigits(s.attempts, s2.jobId);
    KeyFields(e1, s1, e2, s2);
  }

  /** In every reachable state, work submitted twice against jobs of the window is one header under
      two keys, and nothing else is if the strings hashed for the roots do not collide. */
  lemma TwinsInAnyRun(H: seq<Byte> -> Hash, pool: seq<Byte>, polls: seq<Poll>, e1: string, s1: Submission,
                      e2: string, s2: Submission, j1: Job, j2: Job)
    requires var jobs := Run(H, pool, polls).window.jobs;
             s1.jobId in jobs && jobs[s1.jobId] == j1 && s2.jobId in jobs && jobs[s2.jobId] == j2
    requires ValidateParams(s1).None? && ServerExtranonce(e1) && ValidateParams(s2).None? && ServerExtranonce(e2)
    ensures Validated(j1, e1, s1) && Validated(j2, e2, s2)
    ensures SubmittedTwice(j1, e1, s1, j2, e2, s2) ==> Twins(H, j1, e1, s1, j2, e2, s2)
    ensures Separate(H, j1, e1, s1, j2, e2, s2) ==>
              (Twins(H, j1, e1, s1, j2, e2, s2) <==> SubmittedTwice(j1, e1, s1, j2, e2, s2))
  {
    WindowIsMinable(H, pool, polls, s1.jobId);
    WindowIsMinable(H, pool, polls, s2.jobId);
    TwoKeysOneHeader(H, j1, e1, s1, j2, e2, s2);
  }

  lemma DecidesNew(H: seq<Byte> -> Hash, pool: seq<Byte>, s: State, p: Poll, d: Decision)
    requires SeesNew(H, pool, s, p)
    requires d == Decide(H, pool, s.tracked, CurrentJob(s.window), IdOf(s.window.counter + 1), p)
    ensures d.Tried? && (d.attempt.Publish? <==> p.registered.Some?)
  {
  }

  lemma StepTries(H: seq<Byte> -> Hash, pool: seq<Byte>, s: State, p: Poll, d: Decision)
    requires d == Decide(H, pool, s.tracked, CurrentJob(s.window), IdOf(s.window.counter + 1), p) && d.Tried?
    ensures Step(H, pool, s, p).window == JobWindow.Step(s.window, d.attempt)
  {
    assert Step(H, pool, s, p) == Taken(s, p.template, d);
  }

  lemma RunSnoc(H: seq<Byte> -> Hash, pool: seq<Byte>, polls: seq<Poll>, p: Poll)
    ensures Run(H, pool, polls + [p]) == Step(H, pool, Run(H, pool, polls), p)
  {
    assert (polls + [p])[..|polls|] == polls;
  }

  lemma NewBlockKeepsJob(H: seq<Byte> -> Hash, pool: seq<Byte>, polls: seq<Poll>, p: Poll, id: string)
    requires |polls| + 1 < U32_LIMIT && id in Run(H, pool, polls).window.jobs
    requires SeesNew(H, pool, Run(H, pool, polls), p)
    ensures var jobs, after := Run(H, pool, polls).window.jobs, Run(H, pool, polls + [p]).window.jobs;
            && (id in after <==> !(p.registered.Some? && DropsNext(jobs, id)))
            && (id in after ==> after[id] == jobs[id])
  {
    var s := Run(H, pool, polls);
    RunSnoc(H, pool, polls, p);
    WindowIsRun(H, pool, polls);
    var d := Decide(H, pool, s.tracked, CurrentJob(s.window), IdOf(s.window.counter + 1), p);
    DecidesNew(H, pool, s, p, d);
    StepTries(H, pool, s, p, d);
    OldJobSurvives(s.attempts, d.attempt, id);
  }

  function Lookup(jobs: map<string, Job>, id: string): Option<Job> {
    if id in jobs then Some(jobs[id]) else None
  }

  /** A new block clears the filter but keeps older jobs: a share judged before it is judged the same
      once more, and accepted again if it was, exactly unless the new job was registered into a full
      window whose oldest job is the share's; then its job is unknown. */
  lemma AcceptedAgainAfterBlock(H: seq<Byte> -> Hash, pool: seq<Byte>, polls: seq<Poll>, p: Poll, ops: seq<Op>,
                                miner: Miner, s: Submission, job: Job)
    requires |polls| + 1 < U32_LIMIT && SeesNew(H, pool, Run(H, pool, polls), p)
    requires s.jobId in Run(H, pool, polls).window.jobs && Run(H, pool, polls).window.jobs[s.jobId] == job
    requires var key := Key(miner.extranonce1, s);
             Judge(H, key in After(ops)[ShardIndex(key)], Some(job), Some(miner), s).Judged?
    ensures var key := Key(miner.extranonce1, s);
            var later, jobs := ops + [Insert(key)] + ClearEach(SHARDS), Run(H, pool, polls + [p]).window.jobs;
            Judge(H, key in After(later)[ShardIndex(key)], Lookup(jobs, s.jobId), Some(miner), s)
            == if p.registered.Some? && DropsNext(Run(H, pool, polls).window.jobs, s.jobId) then Refused(UnknownJob)
               else Judge(H, key in After(ops)[ShardIndex(key)], Some(job), Some(miner), s)
  {
    NewBlockKeepsJob(H, pool, polls, p, s.jobId);
    JudgedAgainAfterClear(H, ops, job, miner, s);
  }

  /** The same coinbase and the same transactions, at whatever time. */
  predicate SameContent(t: Template, u: Template) { t.payment == u.payment && Txids(t.txs) == Txids(u.txs) }

  lemma RefreshedTwice(H: seq<Byte> -> Hash, pool: seq<Byte>, job: Job, t: Template, other: Template, again: Template,
                       mid: Job, last: Job, version: nat, en: seq<Byte>, ntime: nat, nonce: nat)
    requires FromLatest(H, pool, job, t) && SameContent(t, again)
    requires mid == Refreshed(H, job, mid.id, other, pool).(templateId := mid.templateId)
    requires last == Refreshed(H, mid, last.id, again, pool).(templateId := last.templateId)
    ensures WorkOf(last, version, en, ntime, nonce) == WorkOf(job, version, en, ntime, nonce)
  {
  }

  /** A refresh to other branches and back to the same content publishes two jobs that ask for the
      same work: every header of one is a header of the other, under another job id and so
      another key. */
  lemma RefreshBackRepeatsWork(H: seq<Byte> -> Hash, pool: seq<Byte>, s: State, away: Poll, mid: State, back: Poll,
                               version: nat, en: seq<Byte>, ntime: nat, nonce: nat)
    requires Explained(H, pool, s) && Refreshes(H, s, away) && SameContent(s.latest.value, back.template)
    requires mid == Step(H, pool, s, away) && Refreshes(H, mid, back)
    ensures var before, after := CurrentJob(s.window).value, CurrentJob(Step(H, pool, mid, back).window);
            && after.Some? && after.value.id == IdOf(mid.window.counter + 1)
            && WorkOf(after.value, version, en, ntime, nonce) == WorkOf(before, version, en, ntime, nonce)
  {
    var before := CurrentJob(s.window).value;
    RefreshIsPublished(H, pool, s, away);
    RefreshIsPublished(H, pool, mid, back);
    RefreshedTwice(H, pool, before, s.latest.value, away.template, back.template, CurrentJob(mid.window).value,
                   CurrentJob(Step(H, pool, mid, back).window).value, version, en, ntime, nonce);
  }

  lemma RefreshTakesNext(H: seq<Byte> -> Hash, pool: seq<Byte>, s: State, p: Poll, u: State)
    requires Refreshes(H, s, p) && u == Step(H, pool, s, p)
    ensures u.window.counter == s.window.counter + 1 && u.window.current.Some?
    ensures u.window.current.value.0 == IdOf(s.window.counter + 1)
  {
  }

  /** In every reachable state the second job's id is not the first's. */
  lemma RefreshBackHasNewId(H: seq<Byte> -> Hash, pool: seq<Byte>, polls: seq<Poll>, s: State, away: Poll,
                            mid: State, back: Poll, last: State)
    requires s == Run(H, pool, polls) && |polls| + 2 < U32_LIMIT && Refreshes(H, s, away)
    requires mid == Step(H, pool, s, away) && Refreshes(H, mid, back) && last == Step(H, pool, mid, back)
    ensures last.window.current.Some? && last.window.current.value.0 != s.window.current.value.0
  {
    WindowIsRun(H, pool, polls);
    RefreshTakesNext(H, pool, s, away, mid);
    RefreshTakesNext(H, pool, mid, back, last);
    CurrentIdIsOld(s.attempts, |s.attempts| + 2);
  }

  /** The way back is always open: the branches differ again. */
  lemma RefreshBackIsOpen(H: seq<Byte> -> Hash, pool: seq<Byte>, s: State, away: Poll, back: Poll)
    requires Explained(H, pool, s) && Refreshes(H, s, away) && SameContent(s.latest.value, back.template)
    requires back.due && back.registered.Some? && s.tracked == HashOfText(back.template.previousHash)
    ensures Refreshes(H, Step(H, pool, s, away), back)
  {
    RefreshIsPublished(H, pool, s, away);
  }

  // ----- The loop body

  class JobLoop {
    var tracked: Option<Hash>
    const table: JobTable<Job>

    constructor ()
      ensures tracked == None && table.View() == Window(0, map[], None) && fresh(table)
    {
      tracked := None;
      table := new JobTable<Job>();
    }

    /** One pass of `job_updater` after the node has answered. */
    method OnTemplate(H: seq<Byte> -> Hash, pool: seq<Byte>, p: Poll)
      requires PaymentOk(p.template.payment)
      modifies this, table
      ensures match Decide(H, pool, old(tracked), CurrentJob(old(table.View())), IdOf(old(table.counter) + 1), p)
              case Skipped => tracked == old(tracked) && table.View() == old(table.View())
              case Tried(tr, _, attempt) => tracked == tr && table.View() == JobWindow.Step(old(table.View()), attempt)
    {
      var prev := HashOfText(p.template.previousHash);
      if prev.None? { return; }
      var id := IdOf(table.counter + 1);
      var job: Option<Job> := None;
      if tracked != prev {
        job := CreateJob(H, id, p.template, pool);
        if job.Some? { tracked := prev; }
      } else {
        if !p.due { return; }
        var branches := CalculateBranches(H, Txids(p.template.txs));
        if table.current.Some? && table.current.value.1.branches == branches { return; }
        if CoinbaseFails(p.template.payment) { return; }
        if table.current.Some? {
          job := RefreshJob(H, table.current.value.1, id, p.template, pool);
        }
      }
      if job.Some? && p.registered.Some? {
        table.Attempted(Some(job.value.(templateId := p.registered)));
      } else {
        table.Attempted(None);
      }
    }
  }
}
