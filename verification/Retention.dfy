/** The registries of deployments and jobs: which finished entries are kept, what a restart makes of the
    stored records, and deletion. Both registries share the rules and differ in the time they go by. */
module Retention {

  datatype State = Pending | Running | Finished | Failed | Canceled | Removed

  /** An entry, and equally its stored record; a time of 0 means "not yet". */
  datatype Entry = Entry(state: State, createdAt: int, finishedAt: int, error: string, lines: seq<string>)

  datatype Kind = Deployments | Jobs

  predicate Active(e: Entry) { e.state.Pending? || e.state.Running? }

  /** Deployments are kept by age, jobs by when they finished. */
  function Stamp(kind: Kind, e: Entry): int { if kind.Deployments? then e.createdAt else e.finishedAt }

  // ---- pruning ----

  datatype Aged = Aged(id: string, stamp: int)

  predicate Sorted(s: seq<Aged>) { forall i, j | 0 <= i < j < |s| :: s[i].stamp <= s[j].stamp }

  function Ids(s: seq<Aged>): set<string> { set i | 0 <= i < |s| :: s[i].id }

  predicate UniqueIds(s: seq<Aged>) { forall i, j | 0 <= i < j < |s| :: s[i].id != s[j].id }

  function Insert(s: seq<Aged>, a: Aged): seq<Aged> {
    if s == [] || a.stamp <= s[0].stamp then [a] + s else [s[0]] + Insert(s[1..], a)
  }

  lemma {:induction false} InsertAdds(s: seq<Aged>, a: Aged)
    ensures multiset(Insert(s, a)) == multiset(s) + multiset{a}
  {
    if s == [] || a.stamp <= s[0].stamp {
      assert multiset([a] + s) == multiset{a} + multiset(s);
    } else {
      InsertAdds(s[1..], a);
      assert multiset([s[0]] + Insert(s[1..], a)) == multiset{s[0]} + multiset(Insert(s[1..], a));
      assert s == [s[0]] + s[1..];
    }
  }

  predicate AtLeast(s: seq<Aged>, stamp: int) { forall k | 0 <= k < |s| :: stamp <= s[k].stamp }

  lemma {:induction false} InsertSorts(s: seq<Aged>, a: Aged, low: int)
    requires Sorted(s) && AtLeast(s, low) && low <= a.stamp
    ensures Sorted(Insert(s, a)) && AtLeast(Insert(s, a), low)
  {
    if s != [] && a.stamp > s[0].stamp {
      InsertSorts(s[1..], a, s[0].stamp);
    }
  }

  /** Oldest first; entries of the same age in any order. */
  method SortByAge(s: seq<Aged>) returns (t: seq<Aged>)
    ensures Sorted(t) && multiset(t) == multiset(s)
  {
    t := [];
    for k := 0 to |s|
      invariant Sorted(t) && multiset(t) == multiset(s[..k])
    {
      if t != [] {
        InsertSorts(t, s[k], if s[k].stamp < t[0].stamp then s[k].stamp else t[0].stamp);
      }
      InsertAdds(t, s[k]);
      assert s[..k + 1] == s[..k] + [s[k]];
      t := Insert(t, s[k]);
    }
    assert s[..|s|] == s;
  }

  lemma SameElements(s: seq<Aged>, t: seq<Aged>)
    requires multiset(s) == multiset(t) && UniqueIds(s)
    ensures |s| == |t| && UniqueIds(t) && Ids(t) == Ids(s)
  {
    assert |multiset(s)| == |s| && |multiset(t)| == |t|;
    assert forall a :: a in s <==> a in t by {
      assert forall a :: a in s <==> a in multiset(s);
      assert forall a :: a in t <==> a in multiset(t);
    }
    forall i, j | 0 <= i < j < |t| ensures t[i].id != t[j].id {
      OnceEach(s, t[i]);
      if t[i] == t[j] {
        TwiceCounts(t, i, j);
      } else {
        assert t[i] in s && t[j] in s;
      }
    }
    assert forall i | 0 <= i < |t| :: t[i] in s;
    assert forall i | 0 <= i < |s| :: s[i] in t;
  }

  lemma {:induction false} OnceEach(s: seq<Aged>, a: Aged)
    requires UniqueIds(s)
    ensures multiset(s)[a] <= 1
  {
    if s != [] {
      OnceEach(s[1..], a);
      assert s == [s[0]] + s[1..];
      if s[0] == a {
        assert forall k | 0 <= k < |s[1..]| :: s[1..][k] != a;
        assert a !in s[1..];
      }
    }
  }

  lemma TwiceCounts(t: seq<Aged>, i: nat, j: nat)
    requires i < j < |t| && t[i] == t[j]
    ensures multiset(t)[t[i]] >= 2
  {
    assert t == t[..j] + [t[j]] + t[j + 1..];
    assert t[..j][i] == t[i] && t[i] in multiset(t[..j]);
  }

  /** The finished ids of a registry, with their stamps. */
  ghost predicate Lists(finished: seq<Aged>, kind: Kind, entries: map<string, Entry>) {
    && UniqueIds(finished)
    && (forall a | a in finished :: a.id in entries && !Active(entries[a.id]) && a.stamp == Stamp(kind, entries[a.id]))
    && (forall id | id in entries && !Active(entries[id]) :: id in Ids(finished))
  }

  /** What a prune may drop: the finished entries above the cap, no newer than any it keeps. */
  ghost predicate Prunes(kind: Kind, entries: map<string, Entry>, keep: int, dropped: set<string>) {
    && dropped <= entries.Keys
    && (forall id | id in dropped :: !Active(entries[id]))
    && (forall d, k | d in dropped && k in entries && k !in dropped && !Active(entries[k]) :: Stamp(kind, entries[d]) <= Stamp(kind, entries[k]))
    && (keep <= 0 ==> dropped == {})
    && (keep > 0 ==> var count := |FinishedIds(entries)|; |dropped| == if count <= keep then 0 else count - keep)
  }

  function FinishedIds(entries: map<string, Entry>): set<string> {
    set id | id in entries && !Active(entries[id])
  }

  lemma {:induction false} UniqueCount(s: seq<Aged>)
    requires UniqueIds(s)
    ensures |Ids(s)| == |s|
  {
    if s == [] {
      assert Ids(s) == {};
    } else {
      UniqueCount(s[1..]);
      assert s[0].id !in Ids(s[1..]);
      assert Ids(s) == {s[0].id} + Ids(s[1..]) by {
        forall i | 0 <= i < |s| ensures s[i].id in {s[0].id} + Ids(s[1..]) {
          if i > 0 {
            assert s[1..][i - 1] == s[i];
          }
        }
        forall i | 0 <= i < |s[1..]| ensures s[1..][i].id in Ids(s) {
          assert s[i + 1] == s[1..][i];
        }
      }
    }
  }

  lemma ListCounts(finished: seq<Aged>, kind: Kind, entries: map<string, Entry>)
    requires Lists(finished, kind, entries)
    ensures |FinishedIds(entries)| == |finished|
  {
    assert FinishedIds(entries) == Ids(finished) by {
      assert forall i | 0 <= i < |finished| :: finished[i] in finished;
    }
    UniqueCount(finished);
  }

  lemma FrontIsOlder(kind: Kind, entries: map<string, Entry>, sorted: seq<Aged>, drop: nat, d: string, k: string)
    requires Lists(sorted, kind, entries) && Sorted(sorted) && drop <= |sorted|
    requires d in Ids(sorted[..drop]) && k in entries && k !in Ids(sorted[..drop]) && !Active(entries[k])
    ensures d in entries && !Active(entries[d]) && Stamp(kind, entries[d]) <= Stamp(kind, entries[k])
  {
    var front := sorted[..drop];
    var i :| 0 <= i < |front| && front[i].id == d;
    assert k in Ids(sorted);
    var j :| 0 <= j < |sorted| && sorted[j].id == k;
    assert forall m | 0 <= m < drop :: front[m].id in Ids(front) && front[m] == sorted[m];
    assert i < drop <= j;
    assert sorted[i] in sorted && sorted[j] in sorted;
  }

  lemma FrontIsListed(kind: Kind, entries: map<string, Entry>, sorted: seq<Aged>, drop: nat)
    requires Lists(sorted, kind, entries) && drop <= |sorted|
    ensures |Ids(sorted[..drop])| == drop
    ensures forall id | id in Ids(sorted[..drop]) :: id in entries && !Active(entries[id])
  {
    var front := sorted[..drop];
    UniqueCount(front);
    forall id | id in Ids(front) ensures id in entries && !Active(entries[id]) {
      var i :| 0 <= i < |front| && front[i].id == id;
      assert sorted[i] in sorted;
    }
  }

  /** Dropping the front of the sorted list drops the oldest. */
  lemma FrontIsOldest(kind: Kind, entries: map<string, Entry>, sorted: seq<Aged>, keep: nat)
    requires Lists(sorted, kind, entries) && Sorted(sorted) && 0 < keep < |sorted|
    ensures Prunes(kind, entries, keep, Ids(sorted[..|sorted| - keep]))
  {
    var drop := |sorted| - keep;
    ListCounts(sorted, kind, entries);
    FrontIsListed(kind, entries, sorted, drop);
    forall d, k | d in Ids(sorted[..drop]) && k in entries && k !in Ids(sorted[..drop]) && !Active(entries[k])
      ensures Stamp(kind, entries[d]) <= Stamp(kind, entries[k])
    {
      FrontIsOlder(kind, entries, sorted, drop, d, k);
    }
  }

  lemma NothingToDrop(kind: Kind, entries: map<string, Entry>, keep: int, sorted: seq<Aged>)
    requires keep <= 0 || |FinishedIds(entries)| <= keep
    ensures Prunes(kind, entries, keep, Ids(sorted[..0]))
  {
    assert Ids(sorted[..0]) == {};
  }

  // ---- a restart ----

  function Interrupted(kind: Kind): string {
    if kind.Deployments? then "interrupted by a restart" else "interrupted by restart"
  }

  /** What a restart makes of a record: nothing is left pending or running, everything else is as it was. */
  function Normalised(kind: Kind, e: Entry, now: int): Entry {
    if Active(e) then
      e.(state := Failed, finishedAt := if e.finishedAt == 0 then now else e.finishedAt, error := Interrupted(kind),
         lines := if kind.Deployments? then e.lines + [Interrupted(kind)] else e.lines)
    else e
  }

  function NormalisedAll(kind: Kind, records: map<string, Entry>, now: int): map<string, Entry> {
    map id | id in records :: Normalised(kind, records[id], now)
  }

  /** The store after a start: records under way are saved as failed, unless the store refuses. */
  function SavedAgain(kind: Kind, records: map<string, Entry>, now: int, refused: set<string>): map<string, Entry> {
    map id | id in records :: if id in refused then records[id] else Normalised(kind, records[id], now)
  }

  /** The inert entry made of a record: a job comes back without its log. */
  function Loaded(kind: Kind, e: Entry): Entry { if kind.Jobs? then e.(lines := []) else e }

  function LoadedAll(kind: Kind, records: map<string, Entry>): map<string, Entry> {
    map id | id in records :: Loaded(kind, records[id])
  }

  /** A second restart, at any later time, finds nothing to change; and only records that were under way
      change at the first. */
  lemma SecondRestartChangesNothing(kind: Kind, records: map<string, Entry>, now: int, later: int)
    ensures var once := NormalisedAll(kind, records, now);
      && NormalisedAll(kind, once, later) == once
      && once.Keys == records.Keys
      && (forall id | id in records :: !Active(once[id]) && (once[id] == records[id] <==> !Active(records[id])))
      && (forall id | id in records && Active(records[id]) ::
            && once[id].state.Failed? && once[id].createdAt == records[id].createdAt
            && once[id].error == (if kind.Jobs? then "interrupted by restart" else "interrupted by a restart")
            && once[id].finishedAt == (if records[id].finishedAt != 0 then records[id].finishedAt else now))
  {
  }

  /** A start whose saves were refused leaves records that the next start marks again: with another time, the
      store is as the first start meant it exactly when no record under way was refused that had not finished. */
  lemma RefusedSavesExactly(kind: Kind, records: map<string, Entry>, now: int, later: int, refused: set<string>)
    requires now != later
    ensures NormalisedAll(kind, SavedAgain(kind, records, now, refused), later) == NormalisedAll(kind, records, now)
        <==> forall id | id in records && id in refused && Active(records[id]) :: records[id].finishedAt != 0
  {
    var a, b := NormalisedAll(kind, SavedAgain(kind, records, now, refused), later), NormalisedAll(kind, records, now);
    forall id | id in records ensures a[id] == b[id] <==> !(id in refused && Active(records[id]) && records[id].finishedAt == 0) {
    }
  }

  class Registry {
    const kind: Kind
    var entries: map<string, Entry>
    var store: map<string, Entry>
    var keep: int                        // 0: no cap

    constructor (kind: Kind, store: map<string, Entry>)
      ensures this.kind == kind && this.store == store && entries == map[] && keep == 0
    {
      this.kind, this.store, entries, keep := kind, store, map[], 0;
    }

    /** The list of finished entries, gathered in whatever order the map is walked. */
    method Finished() returns (finished: seq<Aged>)
      ensures Lists(finished, kind, entries)
    {
      finished := [];
      var left := entries.Keys;
      while left != {}
        invariant left <= entries.Keys
        invariant UniqueIds(finished) && forall a | a in finished :: a.id !in left
        invariant forall a | a in finished :: a.id in entries && !Active(entries[a.id]) && a.stamp == Stamp(kind, entries[a.id])
        invariant forall id | id in entries && id !in left && !Active(entries[id]) :: id in Ids(finished)
        decreases left
      {
        var id :| id in left;
        left := left - {id};
        if !Active(entries[id]) {
          var a := Aged(id, Stamp(kind, entries[id]));
          IdsAppend(finished, a);
          finished := finished + [a];
        }
      }
    }

    /** The finished entries, oldest first, and how many of them are above the cap. */
    method AboveCap() returns (sorted: seq<Aged>, drop: nat)
      ensures drop <= |sorted| && Prunes(kind, entries, keep, Ids(sorted[..drop]))
    {
      hide Prunes, Lists;
      sorted, drop := [], 0;
      if keep <= 0 {
        NothingToDrop(kind, entries, keep, sorted);
        return;
      }
      var finished := Finished();
      ListCounts(finished, kind, entries);
      if |finished| <= keep {
        NothingToDrop(kind, entries, keep, sorted);
        return;
      }
      sorted := SortByAge(finished);
      drop := |finished| - keep;
      SortedLists(finished, sorted, kind, entries);
      FrontIsOldest(kind, entries, sorted, keep);
    }

    /** Drops the oldest finished entries above the cap, from the registry and from the store alike. A store
        that refuses a deletion keeps the record. */
    method Prune(refused: set<string>) returns (ghost dropped: set<string>)
      modifies `entries, `store
      ensures Prunes(kind, old(entries), keep, dropped)
      ensures entries == old(entries) - dropped
      ensures store == old(store) - (dropped - refused)
    {
      var sorted, drop := AboveCap();
      dropped := Ids(sorted[..drop]);
      DropFront(sorted, drop, refused);
    }

    /** One deletion after another. */
    method DropFront(sorted: seq<Aged>, drop: nat, refused: set<string>)
      requires drop <= |sorted|
      modifies `entries, `store
      ensures entries == old(entries) - Ids(sorted[..drop])
      ensures store == old(store) - (Ids(sorted[..drop]) - refused)
    {
      for i := 0 to drop
        invariant entries == old(entries) - Ids(sorted[..i])
        invariant store == old(store) - (Ids(sorted[..i]) - refused)
      {
        IdsAppend(sorted[..i], sorted[i]);
        assert sorted[..i + 1] == sorted[..i] + [sorted[i]];
        entries := entries - {sorted[i].id};
        if sorted[i].id !in refused {
          store := store - {sorted[i].id};
        }
      }
    }

    method SetKeep(n: int, refused: set<string>) returns (ghost dropped: set<string>)
      modifies this
      ensures n <= 0 ==> keep == old(keep) && entries == old(entries) && store == old(store)
      ensures n > 0 ==> keep == n && Prunes(kind, old(entries), n, dropped)
      ensures n > 0 ==> entries == old(entries) - dropped && store == old(store) - (dropped - refused)
    {
      dropped := {};
      if n <= 0 { return; }
      keep := n;
      dropped := Prune(refused);
    }

    /** Loads every record, marking those that were under way as failed and saving them again. A save the store
        refuses leaves the old record; the entry is marked all the same. */
    method Load(now: int, refused: set<string>)
      requires entries == map[]
      modifies `entries, `store
      ensures store == SavedAgain(kind, old(store), now, refused)
      ensures entries == LoadedAll(kind, NormalisedAll(kind, old(store), now))
    {
      var left := store.Keys;
      while left != {}
        invariant left <= store.Keys == old(store).Keys
        invariant forall id | id in store && id in left :: store[id] == old(store)[id]
        invariant forall id | id in store && id !in left :: store[id] == SavedAgain(kind, old(store), now, refused)[id]
        invariant entries.Keys == store.Keys - left
        invariant forall id | id in entries :: entries[id] == Loaded(kind, Normalised(kind, old(store)[id], now))
        decreases left
      {
        var id :| id in left;
        left := left - {id};
        LoadOne(id, now, id in refused);
      }
    }

    method LoadOne(id: string, now: int, refused: bool)
      requires id in store
      modifies `entries, `store
      ensures store == old(store)[id := if refused then old(store)[id] else Normalised(kind, old(store)[id], now)]
      ensures entries == old(entries)[id := Loaded(kind, Normalised(kind, old(store)[id], now))]
    {
      var record := store[id];
      if Active(record) {
        record := Normalised(kind, record, now);
        if !refused {
          store := store[id := record];
        }
      }
      entries := entries[id := Loaded(kind, record)];
    }

    /** Removes a finished entry; active ones and unknown ids are refused. When the store refuses, the entry is
        gone from the registry but its record stays; only the deployments' registry reports that. */
    method Delete(id: string, refused: bool) returns (removed: bool, reported: bool)
      modifies `entries, `store
      ensures removed <==> id in old(entries) && !Active(old(entries)[id])
      ensures entries == if removed then old(entries) - {id} else old(entries)
      ensures store == if removed && !refused then old(store) - {id} else old(store)
      ensures reported <==> !removed || (refused && kind.Deployments?)
    {
      if id !in entries || Active(entries[id]) { return false, true; }
      entries := entries - {id};
      if !refused {
        store := store - {id};
      }
      return true, refused && kind.Deployments?;
    }
  }

  lemma IdsAppend(s: seq<Aged>, a: Aged)
    ensures Ids(s + [a]) == Ids(s) + {a.id}
  {
    var t := s + [a];
    assert t[|s|] == a;
    assert forall i | 0 <= i < |s| :: t[i] == s[i];
  }

  lemma SortedLists(finished: seq<Aged>, sorted: seq<Aged>, kind: Kind, entries: map<string, Entry>)
    requires Lists(finished, kind, entries) && multiset(sorted) == multiset(finished)
    ensures Lists(sorted, kind, entries) && |sorted| == |finished|
  {
    SameElements(finished, sorted);
    assert forall a | a in sorted :: a in multiset(finished);
  }

  /** What the registry and the store come to when a process starts and drops some entries. */
  lemma StartedAgain(kind: Kind, records: map<string, Entry>, dropped: set<string>, now: int, later: int)
    ensures var kept := NormalisedAll(kind, records, now) - dropped;
      && NormalisedAll(kind, kept, later) == kept
      && LoadedAll(kind, kept) == LoadedAll(kind, NormalisedAll(kind, records, now)) - dropped
      && (forall id | id in kept :: id in records && !Active(kept[id]) && kept[id] == Normalised(kind, records[id], now))
  {
  }

  /** A process starts on a store and applies its cap. */
  method Start(kind: Kind, store: map<string, Entry>, keep: int, now: int) returns (r: Registry, ghost dropped: set<string>)
    ensures fresh(r) && r.kind == kind
    ensures r.store == NormalisedAll(kind, store, now) - dropped
    ensures r.entries == LoadedAll(kind, NormalisedAll(kind, store, now)) - dropped
    ensures if keep > 0 then Prunes(kind, LoadedAll(kind, NormalisedAll(kind, store, now)), keep, dropped) else dropped == {}
  {
    r := new Registry(kind, store);
    r.Load(now, {});
    assert SavedAgain(kind, store, now, {}) == NormalisedAll(kind, store, now);
    dropped := r.SetKeep(keep, {});
    if keep <= 0 {
      dropped := {};
    }
    assert dropped - {} == dropped;
  }

  /** Starting on a store that holds only finished records, within the cap, changes nothing. */
  lemma StartIsStable(kind: Kind, kept: map<string, Entry>, keep: int, later: int, again: set<string>)
    requires NormalisedAll(kind, kept, later) == kept && forall id | id in kept :: !Active(kept[id])
    requires keep > 0 ==> |kept| <= keep
    requires if keep > 0 then Prunes(kind, LoadedAll(kind, kept), keep, again) else again == {}
    ensures again == {} && kept - again == kept && LoadedAll(kind, kept) - again == LoadedAll(kind, kept)
  {
    if keep > 0 {
      assert FinishedIds(LoadedAll(kind, kept)) == kept.Keys;
      assert |kept.Keys| == |kept|;
    }
  }

  /** The first start leaves no more than the cap. */
  lemma StartIsCapped(kind: Kind, records: map<string, Entry>, keep: int, dropped: set<string>)
    requires keep > 0 && (forall id | id in records :: !Active(records[id])) && Prunes(kind, LoadedAll(kind, records), keep, dropped)
    ensures |records - dropped| <= keep
  {
    var kept := records - dropped;
    assert FinishedIds(LoadedAll(kind, records)) == records.Keys;
    assert kept.Keys == records.Keys - dropped;
    assert |kept.Keys| == |records.Keys| - |dropped| && |kept.Keys| == |kept|;
  }

  /** What a start leaves: finished records only, as many as the cap allows, each as it was or marked failed. */
  ghost predicate Settled(kind: Kind, store: map<string, Entry>, keep: int, now: int, left: map<string, Entry>) {
    && (forall id | id in left :: id in store && !Active(left[id]) && left[id] == Normalised(kind, store[id], now))
    && (if keep > 0 then |left| <= keep else left == NormalisedAll(kind, store, now))
  }

  lemma StartSettles(kind: Kind, store: map<string, Entry>, keep: int, now: int, later: int, dropped: set<string>, left: map<string, Entry>, entries: map<string, Entry>)
    requires left == NormalisedAll(kind, store, now) - dropped
    requires entries == LoadedAll(kind, NormalisedAll(kind, store, now)) - dropped
    requires if keep > 0 then Prunes(kind, LoadedAll(kind, NormalisedAll(kind, store, now)), keep, dropped) else dropped == {}
    ensures Settled(kind, store, keep, now, left) && entries == LoadedAll(kind, left) && NormalisedAll(kind, left, later) == left
  {
    StartedAgain(kind, store, dropped, now, later);
    SettlesWithin(kind, NormalisedAll(kind, store, now), keep, dropped);
  }

  lemma SettlesWithin(kind: Kind, records: map<string, Entry>, keep: int, dropped: set<string>)
    requires forall id | id in records :: !Active(records[id])
    requires if keep > 0 then Prunes(kind, LoadedAll(kind, records), keep, dropped) else dropped == {}
    ensures if keep > 0 then |records - dropped| <= keep else records - dropped == records
  {
    if keep > 0 {
      StartIsCapped(kind, records, keep, dropped);
    }
  }

  /** A process that starts on a store, applies its cap, stops and starts again ends where the first start
      did: with nothing under way, terminal records as they were and no more than the cap. */
  method RestartTwice(kind: Kind, store: map<string, Entry>, keep: int, now: int, later: int) returns (first: Registry, second: Registry)
    ensures Settled(kind, store, keep, now, first.store) && first.entries == LoadedAll(kind, first.store)
    ensures second.entries == first.entries && second.store == first.store
  {
    ghost var dropped, again;
    first, dropped := Start(kind, store, keep, now);
    ghost var left := first.store;
    StartSettles(kind, store, keep, now, later, dropped, left, first.entries);
    second, again := Start(kind, first.store, keep, later);
    StartIsStable(kind, left, keep, later, again);
  }
}
