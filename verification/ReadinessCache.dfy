/** The cache of readiness reports: entries with two deadlines, kept in the order they were stored. */
module ReadinessCache {
  import opened Options

  const MAX_CACHE_ENTRIES: nat := 200

  // ---------- reports ----------

  datatype Evidence = NotChecked | Available | Partial | Unauthorized | Unsupported | Unavailable | Failed | Stale

  /** A capability of a report; `live` when its source is a read of the service. */
  datatype Capability = Capability(live: bool, state: Evidence)

  datatype Report = Report(checkedAt: int, servedFromCache: bool, capabilities: seq<Capability>)

  predicate Usable(c: Capability) {
    c.live && (c.state == Available || c.state == Partial)
  }

  /** A refresh that read nothing gives way to an earlier report that had read something. */
  predicate ShouldUseStale(previous: Report, refreshed: Report) {
    && (exists i :: 0 <= i < |previous.capabilities| && Usable(previous.capabilities[i]))
    && (exists i :: 0 <= i < |refreshed.capabilities| && refreshed.capabilities[i].live)
    && (forall i :: 0 <= i < |refreshed.capabilities| && refreshed.capabilities[i].live ==>
          refreshed.capabilities[i].state == Failed || refreshed.capabilities[i].state == Unavailable)
  }

  /** A reading failed: it was tried, and ended in an error or found the service unavailable. */
  predicate FailedToRead(c: Capability) {
    c.live && c.state in {Failed, Unavailable}
  }

  /** A refresh gives way exactly when the earlier report had something available, and the refresh tried to read something
      but nothing that it tried was read. */
  ghost predicate GivesWay(previous: Report, refreshed: Report) {
    && (exists c :: c in previous.capabilities && c.live && c.state in {Available, Partial})
    && (exists c :: c in refreshed.capabilities && FailedToRead(c))
    && (forall c :: c in refreshed.capabilities ==> c.live ==> FailedToRead(c))
  }

  lemma GivesWayExactly(previous: Report, refreshed: Report)
    ensures ShouldUseStale(previous, refreshed) <==> GivesWay(previous, refreshed)
  {
    if ShouldUseStale(previous, refreshed) {
      var i :| 0 <= i < |previous.capabilities| && Usable(previous.capabilities[i]);
      assert previous.capabilities[i] in previous.capabilities;
      var j :| 0 <= j < |refreshed.capabilities| && refreshed.capabilities[j].live;
      assert refreshed.capabilities[j] in refreshed.capabilities && FailedToRead(refreshed.capabilities[j]);
    }
    forall i | 0 <= i < |refreshed.capabilities|
      ensures refreshed.capabilities[i] in refreshed.capabilities
    {}
  }

  function StaleReport(report: Report): (r: Report)
    ensures |r.capabilities| == |report.capabilities|
  {
    Report(report.checkedAt, true,
           seq(|report.capabilities|, i requires 0 <= i < |report.capabilities| =>
             var c := report.capabilities[i]; if Usable(c) then c.(state := Stale) else c))
  }

  /** A stale report claims nothing as read, keeps the time it was checked, and says that it comes from the cache. */
  lemma StaleReportClaimsNothing(report: Report)
    ensures var r := StaleReport(report);
            && r.servedFromCache && r.checkedAt == report.checkedAt
            && (forall i :: 0 <= i < |r.capabilities| ==> !Usable(r.capabilities[i]))
            && (forall i :: 0 <= i < |r.capabilities| ==>
                  r.capabilities[i] == if Usable(report.capabilities[i]) then Capability(true, Stale) else report.capabilities[i])
  {}

  // ---------- the cache ----------

  datatype Entry = Entry(key: string, freshUntil: int, staleUntil: int, report: Report)

  predicate DistinctKeys(entries: seq<Entry>) {
    forall i, j :: 0 <= i < j < |entries| ==> entries[i].key != entries[j].key
  }

  function Find(entries: seq<Entry>, key: string): (e: Option<Entry>)
    ensures e.Some? ==> e.value in entries && e.value.key == key
    ensures e.None? ==> forall x :: x in entries ==> x.key != key
  {
    if entries == [] then None else if entries[0].key == key then Some(entries[0]) else Find(entries[1..], key)
  }

  function Pruned(entries: seq<Entry>, now: int): seq<Entry> {
    if entries == [] then []
    else
      var last := entries[|entries| - 1];
      Pruned(entries[..|entries| - 1], now) + if now > last.staleUntil then [] else [last]
  }

  function Without(entries: seq<Entry>, key: string): seq<Entry> {
    if entries == [] then []
    else
      var last := entries[|entries| - 1];
      Without(entries[..|entries| - 1], key) + if last.key == key then [] else [last]
  }

  /** The newest entries, as many as leave room for one more. */
  function Newest(entries: seq<Entry>): seq<Entry> {
    if |entries| >= MAX_CACHE_ENTRIES then entries[|entries| - (MAX_CACHE_ENTRIES - 1)..] else entries
  }

  function Stored(entries: seq<Entry>, entry: Entry): seq<Entry> {
    Newest(Without(entries, entry.key)) + [entry]
  }

  class ReportCache {
    var entries: seq<Entry>

    constructor ()
      ensures entries == []
    {
      entries := [];
    }

    method Prune(now: int)
      modifies this
      ensures entries == Pruned(old(entries), now)
    {
      var kept: seq<Entry> := [];
      for i := 0 to |entries|
        invariant entries == old(entries)
        invariant kept == Pruned(entries[..i], now)
      {
        assert entries[..i + 1][..i] == entries[..i];
        if !(now > entries[i].staleUntil) {
          kept := kept + [entries[i]];
        }
      }
      assert entries[..|entries|] == entries;
      entries := kept;
    }

    method Delete(key: string)
      modifies this
      ensures entries == Without(old(entries), key)
    {
      var kept: seq<Entry> := [];
      for i := 0 to |entries|
        invariant entries == old(entries)
        invariant kept == Without(entries[..i], key)
      {
        assert entries[..i + 1][..i] == entries[..i];
        if entries[i].key != key {
          kept := kept + [entries[i]];
        }
      }
      assert entries[..|entries|] == entries;
      entries := kept;
    }

    method CacheReport(entry: Entry)
      modifies this
      ensures entries == Stored(old(entries), entry)
    {
      Delete(entry.key);
      ghost var others := entries;
      while |entries| >= MAX_CACHE_ENTRIES
        invariant |entries| <= |others|
        invariant entries == others[|others| - |entries|..]
        invariant |entries| >= MAX_CACHE_ENTRIES - 1 || entries == others
      {
        entries := entries[1..];
      }
      assert entries == Newest(others);
      entries := entries + [entry];
    }
  }

  // ---------- what the cache keeps ----------

  predicate Bounded(entries: seq<Entry>) {
    DistinctKeys(entries) && |entries| <= MAX_CACHE_ENTRIES
  }

  /** Pruning and deleting go entry by entry and keep the order. */
  lemma {:induction false} InTurn(a: seq<Entry>, b: seq<Entry>, now: int, key: string)
    ensures Pruned(a + b, now) == Pruned(a, now) + Pruned(b, now)
    ensures Without(a + b, key) == Without(a, key) + Without(b, key)
  {
    if b == [] {
      assert a + b == a;
    } else {
      assert (a + b)[..|a + b| - 1] == a + b[..|b| - 1];
      InTurn(a, b[..|b| - 1], now, key);
    }
  }

  lemma OneEntry(e: Entry, now: int, key: string)
    ensures Pruned([e], now) == if now <= e.staleUntil then [e] else []
    ensures Without([e], key) == if e.key == key then [] else [e]
  {
    assert [e][..0] == [];
  }

  /** Where there is no room the oldest entries go: as many as leave 200 with the new one, which comes last. */
  lemma StoredDropsOldest(entries: seq<Entry>, entry: Entry)
    ensures var others, stored := Without(entries, entry.key), Stored(entries, entry);
            && |stored| == (if |others| < 200 then |others| + 1 else 200)
            && stored[|stored| - 1] == entry
            && stored[..|stored| - 1] == others[|others| - (|stored| - 1)..]
  {}

  lemma {:induction false} PrunedKeeps(entries: seq<Entry>, now: int)
    requires DistinctKeys(entries)
    ensures var r := Pruned(entries, now);
            && DistinctKeys(r) && |r| <= |entries|
            && forall e :: e in r <==> e in entries && now <= e.staleUntil
  {
    if entries != [] {
      var front, last := entries[..|entries| - 1], entries[|entries| - 1];
      PrunedKeeps(front, now);
      assert entries == front + [last];
      assert forall e :: e in front ==> e.key != last.key;
    }
  }

  lemma {:induction false} WithoutKeeps(entries: seq<Entry>, key: string)
    requires DistinctKeys(entries)
    ensures var r := Without(entries, key);
            && DistinctKeys(r) && |r| <= |entries|
            && forall e :: e in r <==> e in entries && e.key != key
  {
    if entries != [] {
      var front, last := entries[..|entries| - 1], entries[|entries| - 1];
      WithoutKeeps(front, key);
      assert entries == front + [last];
      assert forall e :: e in front ==> e.key != last.key;
    }
  }

  /** Storing keeps one entry a key and at most the limit; what it drops of other keys is the oldest. */
  lemma StoredIsBounded(entries: seq<Entry>, entry: Entry)
    requires Bounded(entries)
    ensures Bounded(Stored(entries, entry))
    ensures forall e :: e in Stored(entries, entry) ==> e == entry || (e in entries && e.key != entry.key)
    ensures Find(Stored(entries, entry), entry.key) == Some(entry)
  {
    var others := Without(entries, entry.key);
    WithoutKeeps(entries, entry.key);
    var stored := Stored(entries, entry);
    assert forall e :: e in Newest(others) ==> e in others;
    assert entry in stored by {
      assert stored[|stored| - 1] == entry;
    }
  }

  // ---------- looking up ----------

  lemma FindExactly(entries: seq<Entry>, e: Entry)
    requires DistinctKeys(entries) && e in entries
    ensures Find(entries, e.key) == Some(e)
  {}

  /** Pruning loses an entry just when its stale deadline has passed. */
  lemma FindPruned(entries: seq<Entry>, now: int, key: string)
    requires DistinctKeys(entries)
    ensures var e := Find(entries, key);
            Find(Pruned(entries, now), key) == if e.Some? && now <= e.value.staleUntil then e else None
  {
    PrunedKeeps(entries, now);
    hide Pruned;
    var r := Pruned(entries, now);
    var e := Find(entries, key);
    if e.Some? && now <= e.value.staleUntil {
      FindExactly(r, e.value);
    } else if Find(r, key).Some? {
      FindExactly(entries, Find(r, key).value);
    }
  }

  /** Where there is room, storing a report touches no other key. */
  lemma FindStored(entries: seq<Entry>, entry: Entry, key: string)
    requires DistinctKeys(entries) && |entries| < MAX_CACHE_ENTRIES && key != entry.key
    ensures Find(Stored(entries, entry), key) == Find(entries, key)
  {
    WithoutKeeps(entries, entry.key);
    StoredIsBounded(entries, entry);
    var r := Stored(entries, entry);
    assert r == Without(entries, entry.key) + [entry];
    hide Without, Stored;
    if Find(entries, key).Some? {
      assert Find(entries, key).value in r;
      FindExactly(r, Find(entries, key).value);
    }
  }
}
