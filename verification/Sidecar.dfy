/** One connection of the miner's sidecar: it watches both directions of a Stratum stream,
    remembers submits until the pool answers, and forwards accepted shares with the template of
    their job. A ledger beside the code's own state gives every tracked submit one fate. */
module Sidecar {
  import opened Bytes
  import opened Jobs
  import opened Shares

  import Hex

  datatype Json = Null | Bool(b: bool) | Num(n: nat) | Str(s: string) | Arr(items: seq<Json>)

  /** The keys of a JSON-RPC line the sidecar looks at; a missing key is `Null`. */
  datatype Message = Message(verb: Json, id: Json, params: Json, result: Json)

  datatype Share = Share(extranonce1: seq<Byte>, extranonce2: seq<Byte>, ntime: nat, nonce: nat, version: bv32)

  function Item(j: Json, i: nat): Json {
    if j.Arr? && i < |j.items| then j.items[i] else Null
  }

  function Text(j: Json): string { if j.Str? then j.s else "" }

  function BytesOf(j: Json): Option<seq<Byte>> { if j.Str? then Hex.Decode(j.s) else None }

  function U32Of(j: Json): Option<nat> { if j.Str? then Hex.ParseU32(j.s) else None }

  /** An unreadable or missing version counts as zero. */
  function VersionOf(j: Json): bv32 {
    match U32Of(j)
    case Some(v) => v as bv32
    case None => 0
  }

  /** `parse_submit_params`. */
  function ParseSubmit(params: Json): Option<Share> {
    var en2, ntime, nonce := BytesOf(Item(params, 2)), U32Of(Item(params, 3)), U32Of(Item(params, 4));
    if en2.None? || ntime.None? || nonce.None? then None
    else Some(Share([], en2.value, ntime.value, nonce.value, VersionOf(Item(params, 5))))
  }

  // ----- State and steps

  datatype Tracked = Tracked(jobId: string, share: Share)

  datatype Fate = Pending(id: nat) | Forwarded(template: string) | NotAccepted | Lost | Replaced

  /** `pending`, `sent` and `lost` are the code's; the rest is the ledger: every tracked submit,
      its fate, which one a pending id stands for, and which one each forward came from. */
  datatype Book = Book(pending: map<nat, Tracked>, sent: seq<(string, Share)>, lost: nat,
                       tracked: seq<Tracked>, fates: seq<Fate>, origin: map<nat, nat>, from: seq<nat>)

  datatype Proxy = Proxy(jobs: map<string, (string, bv32)>, extranonce1: seq<Byte>, subscribeId: Option<nat>,
                         book: Book)

  datatype Event = Down(msg: Message) | Up(msg: Message)

  const START: Proxy := Proxy(map[], [], None, Book(map[], [], 0, [], [], map[], []))

  /** The submit a downstream line asks to track, if any. */
  function Submitted(s: Proxy, m: Message): Option<(nat, Tracked)> {
    if m.verb != Str("mining.submit") || !m.id.Num? || !m.params.Arr? || !Item(m.params, 1).Str? then None
    else
      var jobId := Item(m.params, 1).s;
      var template := if jobId in s.jobs then s.jobs[jobId].1 else 0;
      match ParseSubmit(m.params)
      case None => None
      case Some(share) =>
        Some((m.id.n, Tracked(jobId, share.(version := Rolled(template, Some(share.version)),
                                            extranonce1 := s.extranonce1))))
  }

  /** Close a pending submit with a fate. */
  function Settle(b: Book, id: nat, f: Fate): Book
    requires Wired(b) && id in b.pending
  {
    var (t, i) := (b.pending[id], b.origin[id]);
    Book(b.pending - {id}, if f.Forwarded? then b.sent + [(f.template, t.share)] else b.sent,
         if f.Lost? then b.lost + 1 else b.lost, b.tracked, b.fates[i := f], b.origin - {id},
         if f.Forwarded? then b.from + [i] else b.from)
  }

  function Open(b: Book, id: nat, t: Tracked): Book {
    b.(pending := b.pending[id := t], tracked := b.tracked + [t], fates := b.fates + [Pending(id)],
       origin := b.origin[id := |b.tracked|])
  }

  /** Inserting over an id that is still pending replaces the earlier submit. */
  function Track(b: Book, id: nat, t: Tracked): (c: Book)
    requires Wired(b)
    ensures c.pending == b.pending[id := t]
  {
    var b1 := if id in b.pending then Settle(b, id, Replaced) else b;
    assert (b.pending - {id})[id := t] == b.pending[id := t];
    Open(b1, id, t)
  }

  function NoteSubscribe(s: Proxy, m: Message): Proxy {
    if m.verb == Str("mining.subscribe") && m.id.Num? then s.(subscribeId := Some(m.id.n)) else s
  }

  function OnDown(s: Proxy, m: Message): Proxy
    requires Wired(s.book)
  {
    var s1 := NoteSubscribe(s, m);
    match Submitted(s1, m)
    case None => s1
    case Some((id, t)) => s1.(book := Track(s.book, id, t))
  }

  function OnNotify(s: Proxy, params: Json): Proxy {
    var jobId, template := Text(Item(params, 0)), Text(Item(params, 9));
    if !params.Arr? || jobId == "" || template == "" then s
    else
      var kept := if Item(params, 8) == Bool(true) then map[] else s.jobs;
      s.(jobs := kept[jobId := (template, VersionOf(Item(params, 5)))])
  }

  function SetExtranonce(s: Proxy, j: Json): Proxy {
    match BytesOf(j)
    case Some(b) => s.(extranonce1 := b)
    case None => s
  }

  /** What becomes of a pending submit when its answer arrives. */
  function Outcome(jobs: map<string, (string, bv32)>, t: Tracked, accepted: bool): Fate {
    if !accepted then NotAccepted else if t.jobId in jobs then Forwarded(jobs[t.jobId].0) else Lost
  }

  function OnUp(s: Proxy, m: Message): Proxy
    requires Wired(s.book)
  {
    if m.verb == Str("mining.set_extranonce") then SetExtranonce(s, Item(m.params, 0))
    else if m.verb == Str("mining.notify") then OnNotify(s, m.params)
    else if !m.id.Num? then s
    else if s.subscribeId == Some(m.id.n) then SetExtranonce(s, Item(m.result, 1)).(subscribeId := None)
    else if m.id.n in s.book.pending then
      s.(book := Settle(s.book, m.id.n, Outcome(s.jobs, s.book.pending[m.id.n], m.result == Bool(true))))
    else s
  }

  function Step(s: Proxy, e: Event): Proxy
    requires Wired(s.book)
  {
    match e
    case Down(m) => OnDown(s, m)
    case Up(m) => OnUp(s, m)
  }

  /** Just enough of the invariant for the steps to be defined. */
  predicate Wired(b: Book) {
    forall id :: id in b.pending ==> id in b.origin && b.origin[id] < |b.fates|
  }

  // ----- The ledger agrees with the state

  function Kind(f: Fate): nat {
    match f case Pending(_) => 0 case Forwarded(_) => 1 case NotAccepted => 2 case Lost => 3 case Replaced => 4
  }

  function Count(fates: seq<Fate>, kind: nat): nat {
    if fates == [] then 0
    else Count(fates[..|fates| - 1], kind) + (if Kind(fates[|fates| - 1]) == kind then 1 else 0)
  }

  lemma {:induction false} CountAll(fates: seq<Fate>)
    ensures |fates| == Count(fates, 0) + Count(fates, 1) + Count(fates, 2) + Count(fates, 3) + Count(fates, 4)
  {
    if fates != [] { CountAll(fates[..|fates| - 1]); }
  }

  lemma CountAppend(fates: seq<Fate>, f: Fate, kind: nat)
    ensures Count(fates + [f], kind) == Count(fates, kind) + (if Kind(f) == kind then 1 else 0)
  {
    assert (fates + [f])[..|fates|] == fates;
  }

  lemma {:induction false} CountUpdate(fates: seq<Fate>, i: nat, f: Fate, kind: nat)
    requires i < |fates|
    ensures Count(fates[i := f], kind) + (if Kind(fates[i]) == kind then 1 else 0)
         == Count(fates, kind) + (if Kind(f) == kind then 1 else 0)
  {
    var n := |fates| - 1;
    if i == n {
      assert fates[i := f][..n] == fates[..n];
    } else {
      CountUpdate(fates[..n], i, f, kind);
      assert fates[i := f][..n] == fates[..n][i := f];
    }
  }

  /** Pending ids and pending fates stand for each other. */
  ghost predicate PendingOk(b: Book) {
    && |b.fates| == |b.tracked| && b.origin.Keys == b.pending.Keys
    && (forall id :: id in b.pending ==>
          && b.origin[id] < |b.tracked| && b.tracked[b.origin[id]] == b.pending[id]
          && b.fates[b.origin[id]] == Pending(id))
    && (forall i :: 0 <= i < |b.fates| && b.fates[i].Pending? ==>
          b.fates[i].id in b.pending && b.origin[b.fates[i].id] == i)
  }

  /** Each forward is one tracked submit, a different one each time, with its template. */
  ghost predicate SentOk(b: Book) {
    && |b.from| == |b.sent| && |b.tracked| == |b.fates|
    && (forall k :: 0 <= k < |b.from| ==>
          && b.from[k] < |b.fates| && b.fates[b.from[k]] == Forwarded(b.sent[k].0)
          && b.tracked[b.from[k]].share == b.sent[k].1)
    && (forall k, l :: 0 <= k < l < |b.from| ==> b.from[k] != b.from[l])
  }

  ghost predicate CountsOk(b: Book) {
    |b.pending| == Count(b.fates, 0) && |b.sent| == Count(b.fates, 1) && b.lost == Count(b.fates, 3)
  }

  ghost predicate Balanced(b: Book) {
    PendingOk(b) && SentOk(b) && CountsOk(b)
  }

  lemma SettleKeepsPending(b: Book, id: nat, f: Fate)
    requires PendingOk(b) && id in b.pending && !f.Pending?
    ensures PendingOk(Settle(b, id, f))
  {
    var c, i := Settle(b, id, f), b.origin[id];
    assert c.pending.Keys == b.pending.Keys - {id} && c.origin.Keys == b.origin.Keys - {id};
    assert forall j :: 0 <= j < |b.fates| && j != i ==> c.fates[j] == b.fates[j];
  }

  lemma SettleKeepsSent(b: Book, id: nat, f: Fate)
    requires PendingOk(b) && SentOk(b) && id in b.pending
    ensures SentOk(Settle(b, id, f))
  {
    var c, i := Settle(b, id, f), b.origin[id];
    forall k | 0 <= k < |b.from| ensures b.from[k] != i && c.fates[b.from[k]] == b.fates[b.from[k]] {
      assert b.fates[b.from[k]].Forwarded?;
    }
    assert forall k :: 0 <= k < |b.from| ==> c.from[k] == b.from[k] && c.sent[k] == b.sent[k];
  }

  lemma SettleKeepsCounts(b: Book, id: nat, f: Fate)
    requires PendingOk(b) && CountsOk(b) && id in b.pending && !f.Pending?
    ensures CountsOk(Settle(b, id, f))
  {
    var i := b.origin[id];
    CountUpdate(b.fates, i, f, 0);
    CountUpdate(b.fates, i, f, 1);
    CountUpdate(b.fates, i, f, 3);
    assert (b.pending - {id}).Keys == b.pending.Keys - {id};
  }

  lemma SettleKeepsBook(b: Book, id: nat, f: Fate)
    requires Balanced(b) && id in b.pending && !f.Pending?
    ensures Balanced(Settle(b, id, f))
  {
    SettleKeepsPending(b, id, f);
    SettleKeepsSent(b, id, f);
    SettleKeepsCounts(b, id, f);
  }

  lemma OpenKeepsPending(b: Book, id: nat, t: Tracked)
    requires PendingOk(b) && id !in b.pending
    ensures PendingOk(Open(b, id, t))
  {
    var c, n := Open(b, id, t), |b.tracked|;
    assert c.origin.Keys == c.pending.Keys;
    assert forall i :: 0 <= i < n ==> c.fates[i] == b.fates[i] && c.tracked[i] == b.tracked[i];
  }

  lemma OpenKeepsCounts(b: Book, id: nat, t: Tracked)
    requires CountsOk(b) && id !in b.pending
    ensures CountsOk(Open(b, id, t))
  {
    CountPending(b.fates, id);
    InsertGrows(b.pending, id, t);
  }

  lemma CountPending(fates: seq<Fate>, id: nat)
    ensures var more := fates + [Pending(id)];
            && Count(more, 0) == Count(fates, 0) + 1
            && Count(more, 1) == Count(fates, 1) && Count(more, 3) == Count(fates, 3)
  {
    CountAppend(fates, Pending(id), 0);
    CountAppend(fates, Pending(id), 1);
    CountAppend(fates, Pending(id), 3);
  }

  lemma OpenKeepsSent(b: Book, id: nat, t: Tracked)
    requires SentOk(b)
    ensures SentOk(Open(b, id, t))
  {
  }

  lemma OpenKeepsBook(b: Book, id: nat, t: Tracked)
    requires Balanced(b) && id !in b.pending
    ensures Balanced(Open(b, id, t))
  {
    OpenKeepsPending(b, id, t);
    OpenKeepsSent(b, id, t);
    OpenKeepsCounts(b, id, t);
  }

  lemma TrackKeepsBook(b: Book, id: nat, t: Tracked)
    requires Balanced(b)
    ensures Balanced(Track(b, id, t))
  {
    if id in b.pending {
      SettleKeepsBook(b, id, Replaced);
      OpenKeepsBook(Settle(b, id, Replaced), id, t);
    } else {
      OpenKeepsBook(b, id, t);
    }
  }

  lemma DownBook(s: Proxy, m: Message)
    requires Wired(s.book)
    ensures var r := Submitted(NoteSubscribe(s, m), m);
            OnDown(s, m).book == (if r.Some? then Track(s.book, r.value.0, r.value.1) else s.book)
  {
  }

  /** Whether a message is read as the answer to a pending submit. */
  predicate Answers(s: Proxy, m: Message) {
    && m.verb != Str("mining.set_extranonce") && m.verb != Str("mining.notify")
    && m.id.Num? && s.subscribeId != Some(m.id.n) && m.id.n in s.book.pending
  }

  lemma UpBook(s: Proxy, m: Message)
    requires Wired(s.book)
    ensures OnUp(s, m).book ==
              (if Answers(s, m)
               then Settle(s.book, m.id.n, Outcome(s.jobs, s.book.pending[m.id.n], m.result == Bool(true)))
               else s.book)
  {
  }

  lemma StepKeepsLedger(s: Proxy, e: Event)
    requires Balanced(s.book)
    ensures Balanced(Step(s, e).book)
  {
    match e
    case Down(m) =>
      DownBook(s, m);
      var r := Submitted(NoteSubscribe(s, m), m);
      if r.Some? { TrackKeepsBook(s.book, r.value.0, r.value.1); }
    case Up(m) =>
      UpBook(s, m);
      if Answers(s, m) {
        SettleKeepsBook(s.book, m.id.n, Outcome(s.jobs, s.book.pending[m.id.n], m.result == Bool(true)));
      }
  }

  ghost function Run(events: seq<Event>): (s: Proxy)
    ensures Balanced(s.book)
  {
    if events == [] then START
    else
      var before := Run(events[..|events| - 1]);
      StepKeepsLedger(before, events[|events| - 1]);
      Step(before, events[|events| - 1])
  }

  /** Over any trace: tracked submits are the forwarded, the not accepted, the counted lost, the
      still pending and the replaced ones, and nothing is counted twice. */
  lemma SharesAreConserved(events: seq<Event>)
    ensures var b := Run(events).book;
            |b.tracked| == |b.sent| + Count(b.fates, 2) + b.lost + |b.pending| + Count(b.fates, 4)
  {
    CountAll(Run(events).book.fates);
  }

  lemma DownSendsNothing(s: Proxy, m: Message)
    requires Wired(s.book)
    ensures OnDown(s, m).book.sent == s.book.sent
  {
    DownBook(s, m);
  }

  /** A forward happens only on an accepting answer to a pending submit, and carries that submit's
      share with the template its job maps to at that moment. */
  lemma ForwardsComeFromAccepts(s: Proxy, e: Event)
    requires Balanced(s.book)
    ensures || Step(s, e).book.sent == s.book.sent
            || (e.Up? && Answers(s, e.msg) && e.msg.result == Bool(true)
                && var t := s.book.pending[e.msg.id.n];
                   t.jobId in s.jobs && Step(s, e).book.sent == s.book.sent + [(s.jobs[t.jobId].0, t.share)])
  {
    match e
    case Down(m) => DownSendsNothing(s, m);
    case Up(m) => UpBook(s, m);
  }

  // ----- What each line does to what is pending

  /** Everything a submit must hold to be tracked, with the bits it sends, if readable. */
  predicate Readable(m: Message) {
    && m.verb == Str("mining.submit") && m.id.Num?
    && HasText(m.params, 1) && HasText(m.params, 2) && HasText(m.params, 3) && HasText(m.params, 4)
    && Hex.Decode(m.params.items[2].s).Some?
    && Hex.ParseU32(m.params.items[3].s).Some? && Hex.ParseU32(m.params.items[4].s).Some?
  }

  function SentBits(items: seq<Json>): bv32 {
    if |items| > 5 && items[5].Str? && Hex.ParseU32(items[5].s).Some? then Hex.ParseU32(items[5].s).value as bv32 else 0
  }

  /** The share of a submit, item by item, behind the extranonce1 in force and with the version bits
      outside the mask of the template its own job maps to. */
  predicate IsCapture(s: Proxy, items: seq<Json>, t: Tracked)
    requires |items| >= 5 && items[1].Str? && items[2].Str? && items[3].Str? && items[4].Str?
  {
    && t.jobId == items[1].s && t.share.extranonce1 == s.extranonce1
    && Some(t.share.extranonce2) == Hex.Decode(items[2].s)
    && Some(t.share.ntime) == Hex.ParseU32(items[3].s) && Some(t.share.nonce) == Hex.ParseU32(items[4].s)
    && Carries(t.share.version, if t.jobId in s.jobs then s.jobs[t.jobId].1 else 0, Some(SentBits(items)))
  }

  /** What stands at place `i` as text. */
  predicate HasText(params: Json, i: nat) { params.Arr? && i < |params.items| && params.items[i].Str? }

  lemma ItemReads(params: Json, i: nat)
    ensures BytesOf(Item(params, i)) == if HasText(params, i) then Hex.Decode(params.items[i].s) else None
    ensures U32Of(Item(params, i)) == if HasText(params, i) then Hex.ParseU32(params.items[i].s) else None
  {
  }

  lemma ParsedItems(params: Json)
    ensures ParseSubmit(params).Some? <==>
              && HasText(params, 2) && HasText(params, 3) && HasText(params, 4)
              && Hex.Decode(params.items[2].s).Some?
              && Hex.ParseU32(params.items[3].s).Some? && Hex.ParseU32(params.items[4].s).Some?
    ensures ParseSubmit(params).Some? ==>
              ParseSubmit(params).value == Share([], Hex.Decode(params.items[2].s).value,
                                                 Hex.ParseU32(params.items[3].s).value,
                                                 Hex.ParseU32(params.items[4].s).value, SentBits(params.items))
  {
    ItemReads(params, 2);
    ItemReads(params, 3);
    ItemReads(params, 4);
    ItemReads(params, 5);
  }

  lemma SubmittedIff(s: Proxy, m: Message)
    ensures Submitted(s, m).Some? <==> Readable(m)
    ensures Readable(m) ==> Submitted(s, m).value.0 == m.id.n && IsCapture(s, m.params.items, Submitted(s, m).value.1)
  {
    ParsedItems(m.params);
    if HasText(m.params, 1) { assert Item(m.params, 1) == m.params.items[1]; }
    if Readable(m) { CapturedItems(s, m); }
  }

  lemma CapturedItems(s: Proxy, m: Message)
    requires Readable(m)
    ensures Submitted(s, m).Some? && Submitted(s, m).value.0 == m.id.n
    ensures IsCapture(s, m.params.items, Submitted(s, m).value.1)
  {
    var items := m.params.items;
    var jobId, bits := items[1].s, SentBits(items);
    var template := if jobId in s.jobs then s.jobs[jobId].1 else 0;
    var version := Rolled(template, Some(bits));
    assert Carries(version, template, Some(bits)) by { RolledCarries(template, Some(bits)); }
    assert Submitted(s, m) == Some((m.id.n, Tracked(jobId, Share(s.extranonce1, Hex.Decode(items[2].s).value,
        Hex.ParseU32(items[3].s).value, Hex.ParseU32(items[4].s).value, version)))) by {
      ParsedItems(m.params);
      assert Item(m.params, 1) == items[1];
    }
  }

  /** A readable submit becomes the pending share of its id, whatever was pending under that id; any
      other line from the miner leaves the book alone. Nothing is forwarded or lost. */
  lemma SubmitIsPending(s: Proxy, m: Message)
    requires Wired(s.book)
    ensures var b := OnDown(s, m).book;
            && b.sent == s.book.sent && b.lost == s.book.lost
            && if Readable(m)
               then m.id.n in b.pending && IsCapture(s, m.params.items, b.pending[m.id.n])
                    && b.pending == s.book.pending[m.id.n := b.pending[m.id.n]]
               else b == s.book
  {
    DownBook(s, m);
    SubmittedIff(NoteSubscribe(s, m), m);
  }

  /** An answer closes its submit, whether it accepts or not; a refusal forwards and loses nothing. No
      other line from the pool touches the book. */
  lemma AnswerCloses(s: Proxy, m: Message)
    requires Wired(s.book)
    ensures var b := OnUp(s, m).book;
            if Answers(s, m)
            then b.pending == s.book.pending - {m.id.n} &&
                 (m.result != Bool(true) ==> b.sent == s.book.sent && b.lost == s.book.lost)
            else b == s.book
  {
    UpBook(s, m);
  }

  // ----- What a clean notify loses

  /** A response that accepts a pending submit. */
  predicate Accepts(s: Proxy, m: Message) { Answers(s, m) && m.result == Bool(true) }

  /** An accepted submit is forwarded exactly when its job is still tracked; otherwise it is lost. */
  lemma AcceptedOutcome(s: Proxy, m: Message)
    requires Balanced(s.book) && Accepts(s, m)
    ensures var forwarded := s.book.pending[m.id.n].jobId in s.jobs;
            && |OnUp(s, m).book.sent| == |s.book.sent| + (if forwarded then 1 else 0)
            && OnUp(s, m).book.lost == s.book.lost + (if forwarded then 0 else 1)
  {
  }

  /** So a clean notify for another job between submit and answer loses the share, although the
      job was tracked when the share was captured. */
  lemma CleanNotifyLosesShare(s: Proxy, params: Json, m: Message)
    requires Balanced(s.book) && Accepts(s, m)
    requires params.Arr? && Item(params, 8) == Bool(true) && Text(Item(params, 0)) != "" && Text(Item(params, 9)) != ""
    requires Text(Item(params, 0)) != s.book.pending[m.id.n].jobId
    ensures var notified := OnNotify(s, params);
            notified.book == s.book && OnUp(notified, m).book.lost == s.book.lost + 1
            && OnUp(notified, m).book.sent == s.book.sent
  {
    var notified := OnNotify(s, params);
    assert notified.jobs.Keys == {Text(Item(params, 0))};
    AcceptedOutcome(notified, m);
  }

  // ----- Exactly which accepted shares are lost

  /** A notify the sidecar takes in. */
  predicate Effective(e: Event) {
    && e.Up? && e.msg.verb == Str("mining.notify") && e.msg.params.Arr?
    && Text(Item(e.msg.params, 0)) != "" && Text(Item(e.msg.params, 9)) != ""
  }

  predicate Tracks(e: Event, job: string) { Effective(e) && Text(Item(e.msg.params, 0)) == job }

  /** A clean notify for another job. */
  predicate Wipes(e: Event, job: string) {
    Effective(e) && Text(Item(e.msg.params, 0)) != job && Item(e.msg.params, 8) == Bool(true)
  }

  lemma StepJobs(s: Proxy, e: Event, job: string)
    requires Wired(s.book)
    ensures job in Step(s, e).jobs <==> Tracks(e, job) || (job in s.jobs && !Wipes(e, job))
  {
  }

  predicate NoWipe(events: seq<Event>, from: nat, job: string) {
    forall k :: from <= k < |events| ==> !Wipes(events[k], job)
  }

  /** Tracked at the start or announced since, and not wiped after that. */
  predicate StillTracked(events: seq<Event>, had: bool, job: string) {
    || (had && NoWipe(events, 0, job))
    || exists i :: 0 <= i < |events| && Tracks(events[i], job) && NoWipe(events, i + 1, job)
  }

  lemma StillTrackedStep(events: seq<Event>, e: Event, had: bool, job: string)
    ensures StillTracked(events + [e], had, job) <==>
              Tracks(e, job) || (StillTracked(events, had, job) && !Wipes(e, job))
  {
    var all, n := events + [e], |events|;
    assert all[n] == e && forall k :: 0 <= k < n ==> all[k] == events[k];
    assert forall from :: 0 <= from <= n ==> (NoWipe(all, from, job) <==> NoWipe(events, from, job) && !Wipes(e, job));
    if Tracks(e, job) { assert Tracks(all[n], job) && NoWipe(all, n + 1, job); }
    if i :| 0 <= i < |all| && Tracks(all[i], job) && NoWipe(all, i + 1, job) {
      if i < n { assert Tracks(events[i], job) && NoWipe(events, i + 1, job); }
    }
    if i :| 0 <= i < n && Tracks(events[i], job) && NoWipe(events, i + 1, job) {
      assert !Wipes(e, job) ==> Tracks(all[i], job) && NoWipe(all, i + 1, job);
    }
  }

  lemma {:induction false} TrackedIff(before: seq<Event>, events: seq<Event>, job: string)
    ensures job in Run(before + events).jobs <==> StillTracked(events, job in Run(before).jobs, job)
  {
    if events == [] {
      assert before + events == before;
    } else {
      var n := |events| - 1;
      var (front, last, all) := (events[..n], events[n], before + events);
      assert events == front + [last] && all[..|all| - 1] == before + front;
      TrackedIff(before, front, job);
      StepJobs(Run(before + front), last, job);
      StillTrackedStep(front, last, job in Run(before).jobs, job);
    }
  }

  lemma AnswerFate(s: Proxy, m: Message, u: Proxy, t: Tracked)
    requires Balanced(s.book) && Accepts(s, m) && s.book.pending[m.id.n] == t && u == Step(s, Up(m))
    ensures if t.jobId in s.jobs
            then u.book.sent == s.book.sent + [(s.jobs[t.jobId].0, t.share)] && u.book.lost == s.book.lost
            else u.book.sent == s.book.sent && u.book.lost == s.book.lost + 1
  {
    UpBook(s, m);
  }

  /** In every trace, a submit pending after `before` and accepted after `events` more is forwarded
      exactly when its job was tracked or announced and no clean notify for another job came
      after that; otherwise it is counted lost. */
  lemma AcceptedShareFate(before: seq<Event>, events: seq<Event>, t: Tracked, m: Message, s: Proxy, u: Proxy)
    requires s == Run(before + events) && Accepts(s, m) && s.book.pending[m.id.n] == t && u == Step(s, Up(m))
    ensures if StillTracked(events, t.jobId in Run(before).jobs, t.jobId)
            then t.jobId in s.jobs && u.book.sent == s.book.sent + [(s.jobs[t.jobId].0, t.share)]
                 && u.book.lost == s.book.lost
            else u.book.sent == s.book.sent && u.book.lost == s.book.lost + 1
  {
    TrackedIff(before, events, t.jobId);
    AnswerFate(s, m, u, t);
  }

  // ----- The extranonce in force

  predicate Subscribes(e: Event) { e.Down? && e.msg.verb == Str("mining.subscribe") && e.msg.id.Num? }

  /** A line from the pool with an id that is no notification. */
  predicate IsAnswer(e: Event) {
    && e.Up? && e.msg.id.Num?
    && e.msg.verb != Str("mining.set_extranonce") && e.msg.verb != Str("mining.notify")
  }

  predicate NoSubscribe(events: seq<Event>, from: nat, n: nat) {
    forall k :: from <= k < |events| ==> !Subscribes(events[k]) && !(IsAnswer(events[k]) && events[k].msg.id.n == n)
  }

  /** A subscribe with this id was sent, and neither answered nor followed by another. */
  predicate Awaiting(events: seq<Event>, n: nat) {
    exists j :: 0 <= j < |events| && Subscribes(events[j]) && events[j].msg.id.n == n && NoSubscribe(events, j + 1, n)
  }

  predicate HexItem(j: Json, i: nat, bytes: seq<Byte>) {
    j.Arr? && i < |j.items| && j.items[i].Str? && Hex.Decode(j.items[i].s) == Some(bytes)
  }

  /** The pool announces an extranonce1: by notification, or in its answer to the open subscribe. */
  predicate Announces(before: seq<Event>, e: Event, bytes: seq<Byte>) {
    || (e.Up? && e.msg.verb == Str("mining.set_extranonce") && HexItem(e.msg.params, 0, bytes))
    || (IsAnswer(e) && Awaiting(before, e.msg.id.n) && HexItem(e.msg.result, 1, bytes))
  }

  ghost predicate Silent(before: seq<Event>, e: Event) { forall bytes :: !Announces(before, e, bytes) }

  ghost predicate SilentFrom(events: seq<Event>, from: nat) {
    forall k :: from <= k < |events| ==> Silent(events[..k], events[k])
  }

  /** The last announcement of a trace. */
  ghost predicate LastAnnounced(events: seq<Event>, bytes: seq<Byte>) {
    exists i :: 0 <= i < |events| && Announces(events[..i], events[i], bytes) && SilentFrom(events, i + 1)
  }

  lemma StepSubscribe(s: Proxy, e: Event, n: nat)
    requires Wired(s.book)
    ensures Step(s, e).subscribeId == Some(n) <==>
              if Subscribes(e) then e.msg.id.n == n
              else s.subscribeId == Some(n) && !(IsAnswer(e) && e.msg.id.n == n)
  {
  }

  lemma AwaitingStep(events: seq<Event>, e: Event, n: nat)
    ensures Awaiting(events + [e], n) <==>
              if Subscribes(e) then e.msg.id.n == n else Awaiting(events, n) && !(IsAnswer(e) && e.msg.id.n == n)
  {
    var all, last := events + [e], |events|;
    assert all[last] == e && forall k :: 0 <= k < last ==> all[k] == events[k];
    if Subscribes(e) && e.msg.id.n == n { assert NoSubscribe(all, last + 1, n); }
    if j :| 0 <= j < |all| && Subscribes(all[j]) && all[j].msg.id.n == n && NoSubscribe(all, j + 1, n) {
      if j < last { assert NoSubscribe(events, j + 1, n); }
    }
    if j :| 0 <= j < last && Subscribes(events[j]) && events[j].msg.id.n == n && NoSubscribe(events, j + 1, n) {
      if !Subscribes(e) && !(IsAnswer(e) && e.msg.id.n == n) { assert NoSubscribe(all, j + 1, n); }
    }
  }

  /** The subscribe id held is that of the open subscribe. */
  lemma {:induction false} SubscribeIsOpen(events: seq<Event>, n: nat)
    ensures Run(events).subscribeId == Some(n) <==> Awaiting(events, n)
  {
    if events != [] {
      var before, e := events[..|events| - 1], events[|events| - 1];
      assert events == before + [e];
      SubscribeIsOpen(before, n);
      StepSubscribe(Run(before), e, n);
      AwaitingStep(before, e, n);
    }
  }

  lemma HexItemReads(j: Json, i: nat, bytes: seq<Byte>)
    ensures HexItem(j, i, bytes) <==> BytesOf(Item(j, i)) == Some(bytes)
  {
    ItemReads(j, i);
  }

  /** A notification or an answer to the open subscribe installs what it carries, if that is
      hexadecimal; no other line from the pool touches the extranonce. */
  lemma UpExtranonce(s: Proxy, m: Message, bytes: seq<Byte>)
    requires Wired(s.book)
    ensures var after := OnUp(s, m).extranonce1;
            if m.verb == Str("mining.set_extranonce") then
              (HexItem(m.params, 0, bytes) ==> after == bytes)
              && (after != s.extranonce1 ==> HexItem(m.params, 0, after))
            else if IsAnswer(Up(m)) && s.subscribeId == Some(m.id.n) then
              (HexItem(m.result, 1, bytes) ==> after == bytes)
              && (after != s.extranonce1 ==> HexItem(m.result, 1, after))
            else after == s.extranonce1
  {
    var after := OnUp(s, m).extranonce1;
    if m.verb == Str("mining.set_extranonce") {
      HexItemReads(m.params, 0, bytes);
      HexItemReads(m.params, 0, after);
    } else {
      HexItemReads(m.result, 1, bytes);
      HexItemReads(m.result, 1, after);
    }
  }

  lemma DownExtranonce(s: Proxy, m: Message)
    requires Wired(s.book)
    ensures OnDown(s, m).extranonce1 == s.extranonce1
  {
  }

  /** One line moves the extranonce exactly when it announces one, and then to that one. */
  lemma StepExtranonce(before: seq<Event>, e: Event, s: Proxy, after: seq<Byte>, bytes: seq<Byte>)
    requires s == Run(before) && after == Step(s, e).extranonce1
    ensures Announces(before, e, bytes) ==> after == bytes
    ensures after != s.extranonce1 ==> Announces(before, e, after)
  {
    match e
    case Down(m) => DownExtranonce(s, m);
    case Up(m) =>
      if m.id.Num? { SubscribeIsOpen(before, m.id.n); }
      UpExtranonce(s, m, bytes);
  }

  lemma AnnouncedStep(before: seq<Event>, e: Event, bytes: seq<Byte>)
    ensures LastAnnounced(before + [e], bytes) <==>
              Announces(before, e, bytes) || (LastAnnounced(before, bytes) && Silent(before, e))
    ensures SilentFrom(before + [e], 0) <==> SilentFrom(before, 0) && Silent(before, e)
  {
    var all, n := before + [e], |before|;
    assert all[n] == e && all[..n] == before;
    assert forall k :: 0 <= k < n ==> all[k] == before[k] && all[..k] == before[..k];
    assert forall from :: 0 <= from <= n ==> (SilentFrom(all, from) <==> SilentFrom(before, from) && Silent(before, e));
    if Announces(before, e, bytes) { assert Announces(all[..n], all[n], bytes) && SilentFrom(all, n + 1); }
    if i :| 0 <= i < |all| && Announces(all[..i], all[i], bytes) && SilentFrom(all, i + 1) {
      if i < n { assert Announces(before[..i], before[i], bytes) && SilentFrom(before, i + 1); }
    }
    if i :| 0 <= i < n && Announces(before[..i], before[i], bytes) && SilentFrom(before, i + 1) {
      if Silent(before, e) { assert Announces(all[..i], all[i], bytes) && SilentFrom(all, i + 1); }
    }
  }

  /** Over any trace the extranonce in force is the last one the pool has announced, by notification
      or in its answer to the open subscribe; before any announcement it is empty. */
  lemma {:induction false} ExtranonceIsLast(events: seq<Event>, bytes: seq<Byte>)
    ensures Run(events).extranonce1 == bytes <==>
              LastAnnounced(events, bytes) || (SilentFrom(events, 0) && bytes == [])
  {
    if events != [] {
      var before, e := events[..|events| - 1], events[|events| - 1];
      assert events == before + [e];
      ExtranonceIsLast(before, bytes);
      AnnouncedStep(before, e, bytes);
      var s, after := Run(before), Run(events).extranonce1;
      StepExtranonce(before, e, s, after, bytes);
      if b :| Announces(before, e, b) { StepExtranonce(before, e, s, after, b); }
    }
  }

  // ----- The captured share rebuilds the server's header

  /** The server's own reading of the same parameters. */
  function ServerParse(params: Json): Submission {
    Submission(Text(Item(params, 1)), Text(Item(params, 2)), Text(Item(params, 3)), Text(Item(params, 4)),
               match U32Of(Item(params, 5)) case Some(v) => Some(v as bv32) case None => None)
  }

  /** `create_job_notification`, as far as the sidecar reads it. */
  function Notification(job: Job, prev: Json, branches: Json): Json {
    Arr([Str(job.id), prev, Str(Hex.Encode(job.coinbase1)), Str(Hex.Encode(job.coinbase2)), branches,
         Str(Hex.Format08(job.version as nat)), Str(Hex.Format08(job.nbits)), Str(Hex.Format08(job.ntime)),
         Bool(job.clean), Str(if job.templateId.Some? then job.templateId.value else "")])
  }

  /** The version printed in a notify is the version tracked; a job without a template is not tracked. */
  lemma NotifyTracksJob(s: Proxy, job: Job, prev: Json, branches: Json)
    requires job.id != ""
    ensures var t := OnNotify(s, Notification(job, prev, branches));
            if job.templateId.Some? && job.templateId.value != ""
            then job.id in t.jobs && t.jobs[job.id] == (job.templateId.value, job.version)
            else t == s
  {
    PrintedVersion(job.version);
    NotificationItems(job, prev, branches);
    NotifyTracks(s, Notification(job, prev, branches));
  }

  /** A miner reads the job's halves, version, target and time back from their places in the notify. */
  lemma NotificationReadsBack(job: Job, prev: Json, branches: Json, i: nat, items: seq<Json>)
    requires job.nbits < U32_LIMIT && job.ntime < U32_LIMIT && 2 <= i < 8 && i != 4
    requires Notification(job, prev, branches) == Arr(items)
    ensures |items| == 10 && items[i].Str?
    ensures i == 2 ==> Hex.Decode(items[i].s) == Some(job.coinbase1)
    ensures i == 3 ==> Hex.Decode(items[i].s) == Some(job.coinbase2)
    ensures i == 5 ==> Hex.ParseU32(items[i].s) == Some(job.version as nat)
    ensures i == 6 ==> Hex.ParseU32(items[i].s) == Some(job.nbits)
    ensures i == 7 ==> Hex.ParseU32(items[i].s) == Some(job.ntime)
  {
    if i == 2 {
      Hex.DecodeEncode(job.coinbase1);
    } else if i == 3 {
      Hex.DecodeEncode(job.coinbase2);
    } else {
      Hex.ParseFormat(if i == 5 then job.version as nat else if i == 6 then job.nbits else job.ntime);
    }
  }

  lemma NotificationItems(job: Job, prev: Json, branches: Json)
    ensures var n := Notification(job, prev, branches);
            && n.Arr? && Item(n, 0) == Str(job.id) && Item(n, 5) == Str(Hex.Format08(job.version as nat))
            && Item(n, 8) == Bool(job.clean)
            && Item(n, 9) == Str(if job.templateId.Some? then job.templateId.value else "")
  {
  }

  lemma NotifyTracks(s: Proxy, params: Json)
    requires params.Arr? && Text(Item(params, 0)) != ""
    ensures var (t, jobId, template) := (OnNotify(s, params), Text(Item(params, 0)), Text(Item(params, 9)));
            if template == "" then t == s
            else jobId in t.jobs && t.jobs[jobId] == (template, VersionOf(Item(params, 5)))
  {
  }

  lemma PrintedVersion(version: bv32)
    ensures VersionOf(Str(Hex.Format08(version as nat))) == version
  {
    Hex.ParseFormat(version as nat);
    assert (version as nat) as bv32 == version;
  }

  /** What the chain hashes again from a forwarded share. */
  function Rebuilt(H: seq<Byte> -> Hash, job: Job, share: Share): seq<Byte> {
    JobHeader(H, job, share.version as nat, share.extranonce1 + share.extranonce2, share.ntime, share.nonce)
  }

  /** The rolled versions agree when bits were sent; with none, when the mask is clear. */
  lemma VersionsAgree(version: bv32, bits: Option<bv32>)
    ensures var sent := if bits.Some? then bits.value else 0;
            Rolled(version, Some(sent)) == Rolled(version, bits) <==> bits.Some? || version & ROLLING_MASK == 0
  {
    assert (version & !ROLLING_MASK) | (0 & ROLLING_MASK) == version <==> version & ROLLING_MASK == 0;
  }

  /** The two readings of the numeric fields agree on a validated submit. */
  lemma SameReading(params: Json)
    requires ValidateParams(ServerParse(params)).None?
    ensures var sub := ServerParse(params);
            && params.Arr? && Item(params, 1) == Str(sub.jobId)
            && ParseSubmit(params) == Some(Share([], Hex.Decode(sub.extranonce2).value, Hex.ParseU32(sub.ntime).value,
                                                 Hex.ParseU32(sub.nonce).value,
                                                 if sub.versionBits.Some? then sub.versionBits.value else 0))
  {
    var sub := ServerParse(params);
    assert sub.extranonce2 != "" && sub.ntime != "" && sub.nonce != "";
    assert BytesOf(Item(params, 2)) == Hex.Decode(sub.extranonce2);
    assert U32Of(Item(params, 3)) == Hex.ParseU32(sub.ntime) && U32Of(Item(params, 4)) == Hex.ParseU32(sub.nonce);
  }

  /** A submit the server validates is captured with the server's own reading of its fields. */
  lemma Captures(s: Proxy, m: Message)
    requires m.verb == Str("mining.submit") && m.id.Num? && ValidateParams(ServerParse(m.params)).None?
    ensures Submitted(s, m).Some? && Submitted(s, m).value.0 == m.id.n
    ensures var sub, t := ServerParse(m.params), Submitted(s, m).value.1;
            var sent := if sub.versionBits.Some? then sub.versionBits.value else 0;
            && t.jobId == sub.jobId
            && t.share == Share(s.extranonce1, Hex.Decode(sub.extranonce2).value, Hex.ParseU32(sub.ntime).value,
                                Hex.ParseU32(sub.nonce).value,
                                Rolled(if sub.jobId in s.jobs then s.jobs[sub.jobId].1 else 0, Some(sent)))
  {
    SameReading(m.params);
  }

  /** With the job tracked at its notified version and extranonce1 in step, the captured share
      rebuilds the header the server hashed if version bits were sent; if none were, exactly when
      the template's version is zero inside the rolling mask. */
  lemma CapturedHeader(H: seq<Byte> -> Hash, s: Proxy, m: Message, job: Job, extranonce1: string)
    requires m.verb == Str("mining.submit") && m.id.Num? && ValidateParams(ServerParse(m.params)).None?
    requires Hex.Decode(extranonce1) == Some(s.extranonce1)
    requires var jobId := ServerParse(m.params).jobId; jobId in s.jobs && s.jobs[jobId].1 == job.version
    ensures Submitted(s, m).Some?
    ensures Rebuilt(H, job, Submitted(s, m).value.1.share) == ShareHeader(H, job, extranonce1, ServerParse(m.params))
            <==> ServerParse(m.params).versionBits.Some? || job.version & ROLLING_MASK == 0
  {
    var sub := ServerParse(m.params);
    Captures(s, m);
    var share := Submitted(s, m).value.1.share;
    var version := Rolled(job.version, sub.versionBits);
    VersionsAgree(job.version, sub.versionBits);
    OnlyVersionDiffers(H, job, share, version);
    assert ShareHeader(H, job, extranonce1, sub) == Rebuilt(H, job, share.(version := version));
  }

  lemma OnlyVersionDiffers(H: seq<Byte> -> Hash, job: Job, share: Share, version: bv32)
    ensures Rebuilt(H, job, share) == Rebuilt(H, job, share.(version := version)) <==> share.version == version
  {
    if Rebuilt(H, job, share) == Rebuilt(H, job, share.(version := version)) {
      VersionBytes(share.version);
      VersionBytes(version);
    }
  }

  lemma VersionBytes(version: bv32)
    ensures (LeValue(Le(version as nat, 4)) % U32_LIMIT) as bv32 == version
  {
    Pow256Widths();
    LeValueOfLe(version as nat, 4);
    assert (version as nat) as bv32 == version;
  }

  /** Every notify for the job's id that the sidecar takes in is the server's notify of that job. */
  ghost predicate ServerNotifies(events: seq<Event>, job: Job) {
    forall k :: 0 <= k < |events| && Tracks(events[k], job.id) ==> IsNotificationOf(events[k].msg.params, job)
  }

  ghost predicate IsNotificationOf(params: Json, job: Job) {
    exists prev, branches :: params == Notification(job, prev, branches)
  }

  lemma NotifiedVersion(params: Json, job: Job)
    requires IsNotificationOf(params, job)
    ensures VersionOf(Item(params, 5)) == job.version
  {
    var prev, branches :| params == Notification(job, prev, branches);
    PrintedVersion(job.version);
    NotificationItems(job, prev, branches);
  }

  lemma StepVersion(s: Proxy, e: Event, id: string)
    requires Wired(s.book) && id in Step(s, e).jobs
    ensures Step(s, e).jobs[id].1 == (if Tracks(e, id) then VersionOf(Item(e.msg.params, 5))
                                      else if id in s.jobs then s.jobs[id].1 else Step(s, e).jobs[id].1)
    ensures Tracks(e, id) || id in s.jobs
  {
  }

  /** In every trace, as long as a job is tracked it is tracked at its own version. */
  lemma {:induction false} TrackedAtVersion(events: seq<Event>, job: Job)
    requires ServerNotifies(events, job) && job.id in Run(events).jobs
    ensures Run(events).jobs[job.id].1 == job.version
  {
    var n := |events| - 1;
    var front, last := events[..n], events[n];
    StepVersion(Run(front), last, job.id);
    if Tracks(last, job.id) {
      NotifiedVersion(last.msg.params, job);
    } else {
      assert forall k :: 0 <= k < n ==> front[k] == events[k];
      TrackedAtVersion(front, job);
    }
  }

  /** So in every trace that announces the job, by the server's notifies only, and does not wipe it
      after that, and that announces the miner's extranonce1 last, a validated submit is captured
      with the header the server hashed, or not, exactly as the version bits say. */
  lemma CapturedInTrace(H: seq<Byte> -> Hash, events: seq<Event>, s: Proxy, m: Message, job: Job, extranonce1: string)
    requires s == Run(events) && ServerNotifies(events, job) && StillTracked(events, false, job.id)
    requires m.verb == Str("mining.submit") && m.id.Num? && ValidateParams(ServerParse(m.params)).None?
    requires ServerParse(m.params).jobId == job.id
    requires Hex.Decode(extranonce1).Some? && LastAnnounced(events, Hex.Decode(extranonce1).value)
    ensures Submitted(s, m).Some?
    ensures Rebuilt(H, job, Submitted(s, m).value.1.share) == ShareHeader(H, job, extranonce1, ServerParse(m.params))
            <==> ServerParse(m.params).versionBits.Some? || job.version & ROLLING_MASK == 0
  {
    assert [] + events == events;
    ExtranonceIsLast(events, Hex.Decode(extranonce1).value);
    TrackedIff([], events, job.id);
    TrackedAtVersion(events, job);
    CapturedHeader(H, s, m, job, extranonce1);
  }

  // ----- The connection as the code updates it

  class Connection {
    var jobs: map<string, (string, bv32)>
    var extranonce1: seq<Byte>
    var subscribeId: Option<nat>
    var pending: map<nat, Tracked>
    var sent: seq<(string, Share)>
    var lost: nat
    ghost var tracked: seq<Tracked>
    ghost var fates: seq<Fate>
    ghost var origin: map<nat, nat>
    ghost var from: seq<nat>

    ghost function Books(): Book
      reads this
    {
      Book(pending, sent, lost, tracked, fates, origin, from)
    }

    ghost function View(): Proxy
      reads this
    {
      Proxy(jobs, extranonce1, subscribeId, Books())
    }

    constructor ()
      ensures View() == START
    {
      jobs, extranonce1, subscribeId, pending, sent, lost := map[], [], None, map[], [], 0;
      tracked, fates, origin, from := [], [], map[], [];
    }

    ghost method Record(b: Book)
      modifies this`tracked, this`fates, this`origin, this`from
      ensures tracked == b.tracked && fates == b.fates && origin == b.origin && from == b.from
    {
      tracked, fates, origin, from := b.tracked, b.fates, b.origin, b.from;
    }

    /** A line from the miner: `track_subscribe_request`, then `intercept_submit_request`. */
    method FromMiner(m: Message)
      requires Wired(Books())
      modifies this
      ensures View() == OnDown(old(View()), m)
    {
      if m.verb == Str("mining.subscribe") && m.id.Num? {
        subscribeId := Some(m.id.n);
      }
      var r := Capture(m);
      if r.Some? { Insert(r.value.0, r.value.1); }
    }

    method Capture(m: Message) returns (r: Option<(nat, Tracked)>)
      ensures r == Submitted(View(), m)
    {
      if m.verb != Str("mining.submit") || !m.id.Num? || !m.params.Arr? || !Item(m.params, 1).Str? { return None; }
      var jobId := Item(m.params, 1).s;
      var template := if jobId in jobs then jobs[jobId].1 else 0;
      var parsed := ParseSubmit(m.params);
      if parsed.None? { return None; }
      var version := Rolled(template, Some(parsed.value.version));
      r := Some((m.id.n, Tracked(jobId, parsed.value.(version := version, extranonce1 := extranonce1))));
    }

    method Insert(id: nat, t: Tracked)
      requires Wired(Books())
      modifies this
      ensures View() == old(View()).(book := Track(old(Books()), id, t))
    {
      Record(Track(Books(), id, t));
      pending := pending[id := t];
    }

    method Notify(params: Json)
      modifies this`jobs
      ensures View() == OnNotify(old(View()), params)
    {
      var jobId, template := Text(Item(params, 0)), Text(Item(params, 9));
      if params.Arr? && jobId != "" && template != "" {
        if Item(params, 8) == Bool(true) { jobs := map[]; }
        jobs := jobs[jobId := (template, VersionOf(Item(params, 5)))];
      }
    }

    method TakeExtranonce(j: Json)
      modifies this`extranonce1
      ensures View() == SetExtranonce(old(View()), j)
    {
      var bytes := BytesOf(j);
      if bytes.Some? { extranonce1 := bytes.value; }
    }

    /** The answer to a pending submit. */
    method Answer(id: nat, accepted: bool)
      requires Wired(Books()) && id in pending
      modifies this
      ensures View() == old(View()).(book := Settle(old(Books()), id, Outcome(old(jobs), old(pending)[id], accepted)))
    {
      var t := pending[id];
      Record(Settle(Books(), id, Outcome(jobs, t, accepted)));
      pending := pending - {id};
      if !accepted { return; }
      if t.jobId in jobs {
        sent := sent + [(jobs[t.jobId].0, t.share)];
      } else {
        lost := lost + 1;
      }
    }

    /** A line from the pool: `intercept_upstream`. */
    method FromPool(m: Message)
      requires Wired(Books())
      modifies this
      ensures View() == OnUp(old(View()), m)
    {
      if m.verb == Str("mining.set_extranonce") {
        TakeExtranonce(Item(m.params, 0));
      } else if m.verb == Str("mining.notify") {
        Notify(m.params);
      } else if m.id.Num? {
        if subscribeId == Some(m.id.n) {
          TakeExtranonce(Item(m.result, 1));
          subscribeId := None;
        } else if m.id.n in pending {
          Answer(m.id.n, m.result == Bool(true));
        }
      }
    }
  }
}
