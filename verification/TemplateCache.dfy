/** The ranking cache of on-chain templates: indexes rebuilt from a registry must answer like a
    scan of it. */
module TemplateCache {
  import opened Bytes

  datatype Template = Template(creator: string, stake: nat, shares: nat, active: bool)

  /** The registry in whatever order its hash map yields it. */
  type Registry = seq<(string, Template)>

  datatype Score = Stake | Shares | Combined

  datatype Mode = ByCreator(creator: string) | Ranked(score: Score) | Local

  function ScoreOf(k: Score, t: Template): nat {
    match k case Stake => t.stake case Shares => t.shares case Combined => t.stake * t.shares
  }

  predicate Distinct(reg: Registry) {
    forall i, j :: 0 <= i < j < |reg| ==> reg[i].0 != reg[j].0
  }

  // ----- What a scan would say

  /** `t` is no better than `u`: by stake, by shares, or by their product. */
  predicate NoBetter(k: Score, t: Template, u: Template) {
    match k
    case Stake => t.stake <= u.stake
    case Shares => t.shares <= u.shares
    case Combined => t.stake * t.shares <= u.stake * u.shares
  }

  /** `id` is an active template that no active one outscores. */
  ghost predicate IsBest(reg: Registry, k: Score, id: string) {
    exists i :: 0 <= i < |reg| && reg[i].0 == id && reg[i].1.active
      && forall j :: 0 <= j < |reg| && reg[j].1.active ==> NoBetter(k, reg[j].1, reg[i].1)
  }

  ghost predicate SomeActive(reg: Registry) {
    exists i :: 0 <= i < |reg| && reg[i].1.active
  }

  ghost predicate IsLeader(reg: Registry, k: Score, r: Option<string>) {
    if r.Some? then IsBest(reg, k, r.value) else !SomeActive(reg)
  }

  predicate ActiveAt(reg: Registry, creator: string, i: nat) {
    i < |reg| && reg[i].1.active && reg[i].1.creator == creator
  }

  ghost predicate SomeActiveOf(reg: Registry, creator: string) {
    exists i :: 0 <= i < |reg| && ActiveAt(reg, creator, i)
  }

  /** The creator's active template that the registry's order puts last. */
  ghost predicate IsNewestOf(reg: Registry, creator: string, id: string) {
    exists i :: 0 <= i < |reg| && ActiveAt(reg, creator, i) && reg[i].0 == id
      && forall j :: i < j < |reg| ==> !ActiveAt(reg, creator, j)
  }

  ghost predicate IsSelection(reg: Registry, mode: Mode, r: Option<string>) {
    match mode
    case Ranked(k) => IsLeader(reg, k, r)
    case ByCreator(c) =>
      if SomeActiveOf(reg, c) then r.Some? && IsNewestOf(reg, c, r.value) else IsLeader(reg, Stake, r)
    case Local => r == None
  }

  // ----- The indexes

  type Ranking = seq<(string, nat)>

  function Unsorted(reg: Registry, k: Score): Ranking {
    if reg == [] then []
    else
      var last := reg[|reg| - 1];
      Unsorted(reg[..|reg| - 1], k) + (if last.1.active then [(last.0, ScoreOf(k, last.1))] else [])
  }

  function MapOf(reg: Registry): map<string, Template> {
    if reg == [] then map[] else MapOf(reg[..|reg| - 1])[reg[|reg| - 1].0 := reg[|reg| - 1].1]
  }

  function IdsOf(reg: Registry, creator: string): seq<string> {
    if reg == [] then []
    else
      var last := reg[|reg| - 1];
      IdsOf(reg[..|reg| - 1], creator) + (if last.1.creator == creator then [last.0] else [])
  }

  /** Highest first; entries of equal score keep their order. */
  function Insert(r: Ranking, x: (string, nat)): Ranking {
    if r == [] || r[0].1 < x.1 then [x] + r else [r[0]] + Insert(r[1..], x)
  }

  function Sorted(r: Ranking): Ranking {
    if r == [] then [] else Insert(Sorted(r[..|r| - 1]), r[|r| - 1])
  }

  predicate Descending(r: Ranking) {
    forall i, j :: 0 <= i < j < |r| ==> r[i].1 >= r[j].1
  }

  lemma {:induction false} InsertHas(r: Ranking, x: (string, nat), y: (string, nat))
    ensures y in Insert(r, x) <==> y == x || y in r
  {
    if r != [] && r[0].1 >= x.1 {
      InsertHas(r[1..], x, y);
      assert r == [r[0]] + r[1..];
    }
  }

  lemma {:induction false} InsertDescends(r: Ranking, x: (string, nat))
    requires Descending(r)
    ensures Descending(Insert(r, x))
  {
    if r != [] && r[0].1 >= x.1 {
      var rest := Insert(r[1..], x);
      InsertDescends(r[1..], x);
      forall j | 0 <= j < |rest| ensures r[0].1 >= rest[j].1 {
        InsertHas(r[1..], x, rest[j]);
        assert rest[j] in rest;
      }
    }
  }

  lemma {:induction false} InsertCounts(r: Ranking, x: (string, nat))
    ensures multiset(Insert(r, x)) == multiset(r) + multiset{x}
  {
    if r != [] && r[0].1 >= x.1 {
      InsertCounts(r[1..], x);
      assert r == [r[0]] + r[1..];
    } else {
      assert multiset([x] + r) == multiset([x]) + multiset(r);
    }
  }

  /** Sorting orders a ranking and is a permutation of it. */
  lemma {:induction false} SortedPermutes(r: Ranking)
    ensures Descending(Sorted(r)) && multiset(Sorted(r)) == multiset(r)
  {
    if r != [] {
      var front, last := r[..|r| - 1], r[|r| - 1];
      SortedPermutes(front);
      InsertDescends(Sorted(front), last);
      InsertCounts(Sorted(front), last);
      assert r == front + [last];
    }
  }

  lemma SortedHas(r: Ranking, x: (string, nat))
    ensures x in Sorted(r) <==> x in r
  {
    SortedPermutes(r);
    assert x in r <==> x in multiset(r);
    assert x in Sorted(r) <==> x in multiset(Sorted(r));
  }

  lemma {:induction false} UnsortedHas(reg: Registry, k: Score, x: (string, nat))
    ensures x in Unsorted(reg, k) <==>
              exists i :: 0 <= i < |reg| && reg[i].1.active && x == (reg[i].0, ScoreOf(k, reg[i].1))
  {
    if reg != [] {
      var n := |reg| - 1;
      UnsortedHas(reg[..n], k, x);
      assert forall i :: 0 <= i < n ==> reg[..n][i] == reg[i];
      assert x in Unsorted(reg, k) <==>
               x in Unsorted(reg[..n], k) || (reg[n].1.active && x == (reg[n].0, ScoreOf(k, reg[n].1)));
    }
  }

  /** An active template stands in the sorted ranking, not above its head. */
  lemma RankedBelowHead(reg: Registry, k: Score, j: nat)
    requires j < |reg| && reg[j].1.active
    ensures var r := Sorted(Unsorted(reg, k));
            r != [] && ScoreOf(k, reg[j].1) <= r[0].1
  {
    var u, x := Unsorted(reg, k), (reg[j].0, ScoreOf(k, reg[j].1));
    UnsortedHas(reg, k, x);
    SortedHas(u, x);
    SortedPermutes(u);
    var m :| 0 <= m < |Sorted(u)| && Sorted(u)[m] == x;
    assert Sorted(u)[0].1 >= Sorted(u)[m].1;
  }

  /** The head of a sorted ranking is what a scan would choose. */
  lemma HeadIsLeader(reg: Registry, k: Score)
    ensures var r := Sorted(Unsorted(reg, k));
            IsLeader(reg, k, if r == [] then None else Some(r[0].0))
  {
    var r := Sorted(Unsorted(reg, k));
    forall j | 0 <= j < |reg| && reg[j].1.active ensures r != [] && ScoreOf(k, reg[j].1) <= r[0].1 {
      RankedBelowHead(reg, k, j);
    }
    if r != [] {
      assert r[0] in r;
      SortedHas(Unsorted(reg, k), r[0]);
      UnsortedHas(reg, k, r[0]);
      var i :| 0 <= i < |reg| && reg[i].1.active && r[0] == (reg[i].0, ScoreOf(k, reg[i].1));
      forall j | 0 <= j < |reg| && reg[j].1.active ensures NoBetter(k, reg[j].1, reg[i].1) {
        ScoresRank(k, reg[j].1, reg[i].1);
      }
      assert IsBest(reg, k, reg[i].0);
    }
  }

  lemma ScoresRank(k: Score, t: Template, u: Template)
    ensures ScoreOf(k, t) <= ScoreOf(k, u) <==> NoBetter(k, t, u)
  {
  }

  lemma {:induction false} MapOfAt(reg: Registry, i: nat)
    requires Distinct(reg) && i < |reg|
    ensures reg[i].0 in MapOf(reg) && MapOf(reg)[reg[i].0] == reg[i].1
  {
    var n := |reg| - 1;
    if i < n { MapOfAt(reg[..n], i); }
  }

  /** The map agrees with every entry of the registry. */
  ghost predicate Agrees(reg: Registry, templates: map<string, Template>) {
    forall i :: 0 <= i < |reg| ==> reg[i].0 in templates && templates[reg[i].0] == reg[i].1
  }

  /** A backward search through a list of ids. */
  function Newest(ids: seq<string>, templates: map<string, Template>): Option<string> {
    if ids == [] then None
    else
      var last := ids[|ids| - 1];
      if last in templates && templates[last].active then Some(last) else Newest(ids[..|ids| - 1], templates)
  }

  lemma NewestSkips(ids: seq<string>, id: string, templates: map<string, Template>)
    ensures Newest(ids + [id], templates)
         == if id in templates && templates[id].active then Some(id) else Newest(ids, templates)
  {
    assert (ids + [id])[..|ids|] == ids;
  }

  /** Through the creator's index it finds the newest active template, or none iff there is none. */
  lemma {:induction false} NewestInIndex(reg: Registry, creator: string, templates: map<string, Template>)
    requires Agrees(reg, templates)
    ensures match Newest(IdsOf(reg, creator), templates)
            case Some(id) => IsNewestOf(reg, creator, id)
            case None => !SomeActiveOf(reg, creator)
  {
    if reg != [] {
      var n := |reg| - 1;
      var front := reg[..n];
      NewestInIndex(front, creator, templates);
      assert forall i :: 0 <= i < n ==>
          (ActiveAt(reg, creator, i) <==> ActiveAt(front, creator, i)) && front[i] == reg[i];
      NewestSkips(IdsOf(front, creator), reg[n].0, templates);
      assert IdsOf(front, creator) + [] == IdsOf(front, creator);
      if ActiveAt(reg, creator, n) {
        assert IsNewestOf(reg, creator, reg[n].0);
      } else if Newest(IdsOf(front, creator), templates).Some? {
        var id := Newest(IdsOf(front, creator), templates).value;
        var i :| 0 <= i < n && ActiveAt(front, creator, i) && front[i].0 == id
                 && forall j :: i < j < n ==> !ActiveAt(front, creator, j);
        assert ActiveAt(reg, creator, i) && reg[i].0 == id;
      }
    }
  }

  /** The creator's newest active template, looked up in the index from its end. */
  method LastActive(ids: seq<string>, templates: map<string, Template>, creator: string, ghost reg: Registry)
      returns (r: Option<string>)
    requires Distinct(reg) && ids == IdsOf(reg, creator) && templates == MapOf(reg)
    ensures r.Some? ==> IsNewestOf(reg, creator, r.value)
    ensures r.None? ==> !SomeActiveOf(reg, creator)
  {
    forall i | 0 <= i < |reg| ensures reg[i].0 in templates && templates[reg[i].0] == reg[i].1 {
      MapOfAt(reg, i);
    }
    NewestInIndex(reg, creator, templates);
    var i := |ids|;
    assert ids[..i] == ids;
    while i > 0
      invariant 0 <= i <= |ids|
      invariant Newest(ids, templates) == Newest(ids[..i], templates)
    {
      assert ids[..i][..i - 1] == ids[..i - 1];
      i := i - 1;
      if ids[i] in templates && templates[ids[i]].active { return Some(ids[i]); }
    }
    r := None;
  }

  class Cache {
    var templates: map<string, Template>
    var byCreator: map<string, seq<string>>
    var stakeRanking: Ranking
    var sharesRanking: Ranking
    var combinedRanking: Ranking

    constructor ()
      ensures Mirrors([])
    {
      templates, byCreator := map[], map[];
      stakeRanking, sharesRanking, combinedRanking := [], [], [];
    }

    /** The cache holds what the registry says, in every index. */
    ghost predicate Mirrors(reg: Registry)
      reads this
    {
      && Indexed(reg)
      && stakeRanking == Sorted(Unsorted(reg, Stake))
      && sharesRanking == Sorted(Unsorted(reg, Shares))
      && combinedRanking == Sorted(Unsorted(reg, Combined))
    }

    ghost predicate Indexed(reg: Registry)
      reads this
    {
      && templates == MapOf(reg)
      && (forall c :: c in byCreator <==> IdsOf(reg, c) != [])
      && (forall c :: c in byCreator ==> byCreator[c] == IdsOf(reg, c))
    }

    method AddToIndexes(id: string, t: Template, ghost before: Registry, ghost after: Registry)
      requires Indexed(before) && after != [] && after[..|after| - 1] == before && after[|after| - 1] == (id, t)
      modifies this`templates, this`byCreator
      ensures Indexed(after)
    {
      var ids := if t.creator in byCreator then byCreator[t.creator] else [];
      assert ids == IdsOf(before, t.creator);
      byCreator := byCreator[t.creator := ids + [id]];
      templates := templates[id := t];
      assert forall c :: IdsOf(after, c) == IdsOf(before, c) + (if t.creator == c then [id] else []);
    }

    ghost predicate Collected(reg: Registry)
      reads this
    {
      && stakeRanking == Unsorted(reg, Stake)
      && sharesRanking == Unsorted(reg, Shares)
      && combinedRanking == Unsorted(reg, Combined)
    }

    method AddToRankings(id: string, t: Template, ghost before: Registry, ghost after: Registry)
      requires Collected(before) && after != [] && after[..|after| - 1] == before && after[|after| - 1] == (id, t)
      modifies this`stakeRanking, this`sharesRanking, this`combinedRanking
      ensures Collected(after)
    {
      if t.active {
        stakeRanking := stakeRanking + [(id, t.stake)];
        sharesRanking := sharesRanking + [(id, t.shares)];
        combinedRanking := combinedRanking + [(id, t.stake * t.shares)];
      }
    }

    /** `refresh_cache`: clear, refill in the registry's order, sort. */
    method Refresh(reg: Registry)
      modifies this
      ensures Mirrors(reg)
    {
      templates, byCreator := map[], map[];
      stakeRanking, sharesRanking, combinedRanking := [], [], [];
      for n := 0 to |reg|
        invariant Indexed(reg[..n]) && Collected(reg[..n])
      {
        assert reg[..n + 1][..n] == reg[..n];
        var (id, t) := reg[n];
        AddToIndexes(id, t, reg[..n], reg[..n + 1]);
        AddToRankings(id, t, reg[..n], reg[..n + 1]);
      }
      assert reg[..|reg|] == reg;
      stakeRanking := Sorted(stakeRanking);
      sharesRanking := Sorted(sharesRanking);
      combinedRanking := Sorted(combinedRanking);
    }

    method First(k: Score, ghost reg: Registry) returns (r: Option<string>)
      requires Mirrors(reg)
      ensures IsLeader(reg, k, r)
    {
      HeadIsLeader(reg, k);
      var ranking := match k case Stake => stakeRanking case Shares => sharesRanking case Combined => combinedRanking;
      r := if ranking == [] then None else Some(ranking[0].0);
    }

    method CreatorIds(creator: string, ghost reg: Registry) returns (ids: seq<string>)
      requires Indexed(reg)
      ensures ids == IdsOf(reg, creator)
    {
      ids := if creator in byCreator then byCreator[creator] else [];
    }

    /** `select_template`. */
    method Select(mode: Mode, ghost reg: Registry) returns (r: Option<string>)
      requires Mirrors(reg) && Distinct(reg)
      ensures IsSelection(reg, mode, r)
    {
      match mode
      case ByCreator(c) =>
        var ids := CreatorIds(c, reg);
        r := LastActive(ids, templates, c, reg);
        if r.None? { r := First(Stake, reg); }
      case Ranked(k) => r := First(k, reg);
      case Local => r := None;
    }
  }
}
