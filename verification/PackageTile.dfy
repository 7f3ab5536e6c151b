/** What one dashboard tile would change in a destination model: each required file is placed, merged
    additively, and the whole tile is downgraded when anything is wrong. */
module PackageTile {
  import opened Options

  /** The definitions in a file, by their path. */
  type Content = map<string, string>
  type Files = map<string, Content>

  const MAX_FILES: int := 5000

  /** The semantic identity of a file name (its kind and base name), and lower-casing. */
  datatype Naming = Naming(identity: string -> string, fold: string -> string)

  datatype Candidate = Candidate(source: string, content: Content)

  /** A tile with the files it needs. `blocked` says that the search for them raised an issue. */
  datatype Tile = Tile(candidates: seq<Candidate>, blocked: bool)

  datatype Action = Create | Add | Reuse | Conflict

  /** None stands for the empty text of a file that is not there. */
  datatype Entry = Entry(file: string, source: string, before: Option<Content>, after: Option<Content>, action: Action)

  function Get(files: Files, file: string): Option<Content> {
    if file in files then Some(files[file]) else None
  }

  // ---------- additive merge ----------

  predicate Agree(a: Content, b: Content) {
    forall k :: k in a && k in b ==> a[k] == b[k]
  }

  /** Keeps every existing definition, adds the missing ones, and refuses to replace any. */
  function Merge(before: Option<Content>, proposed: Content): (merged: Option<Content>)
    ensures merged.Some? <==> (before.Some? ==> Agree(before.value, proposed))
    ensures merged.Some? && before.Some? ==>
              forall k :: k in before.value ==> k in merged.value && merged.value[k] == before.value[k]
    ensures merged.Some? ==> forall k :: k in proposed ==> k in merged.value && merged.value[k] == proposed[k]
    ensures merged.Some? ==> forall k :: k in merged.value ==> k in proposed || (before.Some? && k in before.value)
  {
    if before.None? then Some(proposed)
    else if Agree(before.value, proposed) then Some(before.value + proposed)
    else None
  }

  // ---------- placement ----------

  datatype Placement = Ambiguous | Collides(file: string) | Placed(file: string)

  function Matching(n: Naming, names: set<string>, source: string): set<string> {
    set f | f in names && n.identity(f) == n.identity(source)
  }

  predicate Clash(n: Naming, a: string, b: string) {
    n.fold(a) == n.fold(b) || n.fold(n.identity(a)) == n.fold(n.identity(b))
  }

  lemma OnlyMember(s: set<string>)
    requires |s| == 1
    ensures forall a, b :: a in s && b in s ==> a == b
  {
    forall a, b | a in s && b in s
      ensures a == b
    {
      assert |s - {a}| == 0;
    }
  }

  /** The one file of the same identity, or the source's own name when there is none. */
  function Destination(n: Naming, names: set<string>, source: string): string
    requires |Matching(n, names, source)| <= 1
  {
    var matching := Matching(n, names, source);
    if source in names then source
    else if matching == {} then source
    else
      OnlyMember(matching);
      var f :| f in matching;
      f
  }

  function Place(n: Naming, names: set<string>, source: string): Placement {
    if |Matching(n, names, source)| > 1 then Ambiguous
    else
      var file := Destination(n, names, source);
      if exists other :: other in names && other != file
                         && (n.fold(other) == n.fold(file) || n.fold(n.identity(other)) == n.fold(n.identity(source)))
      then Collides(file)
      else Placed(file)
  }

  // ---------- one tile ----------

  /** `used` are the lower-cased destinations of the candidates before. */
  function PlanOne(n: Naming, target: Files, used: set<string>, c: Candidate): Entry {
    match Place(n, target.Keys, c.source)
    case Ambiguous => Entry(c.source, c.source, None, None, Conflict)
    case Collides(file) => Entry(file, c.source, Get(target, file), Get(target, file), Conflict)
    case Placed(file) =>
      var before := Get(target, file);
      var merged := Merge(before, c.content);
      if n.fold(file) in used || merged.None? then Entry(file, c.source, before, before, Conflict)
      else Entry(file, c.source, before, merged, if before.None? then Create else if merged == before then Reuse else Add)
  }

  function Uses(n: Naming, target: Files, used: set<string>, c: Candidate): set<string> {
    var place := Place(n, target.Keys, c.source);
    if place.Placed? then used + {n.fold(place.file)} else used
  }

  function UsedBy(n: Naming, target: Files, cs: seq<Candidate>): set<string> {
    if cs == [] then {} else Uses(n, target, UsedBy(n, target, cs[..|cs| - 1]), cs[|cs| - 1])
  }

  function Entries(n: Naming, target: Files, cs: seq<Candidate>): (es: seq<Entry>)
    ensures |es| == |cs|
  {
    if cs == [] then []
    else
      var front := cs[..|cs| - 1];
      Entries(n, target, front) + [PlanOne(n, target, UsedBy(n, target, front), cs[|cs| - 1])]
  }

  function Downgraded(e: Entry): Entry {
    if e.action == Create || e.action == Add then e.(action := Conflict) else e
  }

  function DowngradeAll(es: seq<Entry>): (r: seq<Entry>)
    ensures |r| == |es| && forall i :: 0 <= i < |es| ==> r[i] == Downgraded(es[i])
  {
    seq(|es|, i requires 0 <= i < |es| => Downgraded(es[i]))
  }

  predicate HasConflict(es: seq<Entry>) {
    exists e :: e in es && e.action == Conflict
  }

  datatype Plan = Plan(entries: seq<Entry>, issues: bool)

  function PlanTile(n: Naming, target: Files, tile: Tile): Plan {
    if |target| > MAX_FILES then Plan([], true)
    else
      var entries := Entries(n, target, tile.candidates);
      if tile.blocked || HasConflict(entries) then Plan(DowngradeAll(entries), true) else Plan(entries, false)
  }

  method PlanFiles(n: Naming, target: Files, tile: Tile) returns (plan: Plan)
    ensures plan == PlanTile(n, target, tile)
  {
    if |target| > MAX_FILES {
      return Plan([], true);
    }
    var entries, used, issues := [], {}, tile.blocked;
    for i := 0 to |tile.candidates|
      invariant entries == Entries(n, target, tile.candidates[..i])
      invariant used == UsedBy(n, target, tile.candidates[..i])
      invariant issues <==> tile.blocked || HasConflict(entries)
    {
      OneMoreFile(n, target, tile.candidates, i);
      hide *;
      var entry := PlanOne(n, target, used, tile.candidates[i]);
      used := Uses(n, target, used, tile.candidates[i]);
      issues := issues || entry.action == Conflict;
      entries := entries + [entry];
    }
    assert tile.candidates[..|tile.candidates|] == tile.candidates;
    if issues {
      entries := DowngradeEntries(entries);
    }
    return Plan(entries, issues);
  }

  lemma OneMoreFile(n: Naming, target: Files, cs: seq<Candidate>, i: nat)
    requires i < |cs|
    ensures Entries(n, target, cs[..i + 1]) == Entries(n, target, cs[..i]) + [PlanOne(n, target, UsedBy(n, target, cs[..i]), cs[i])]
    ensures UsedBy(n, target, cs[..i + 1]) == Uses(n, target, UsedBy(n, target, cs[..i]), cs[i])
    ensures forall es: seq<Entry>, e :: HasConflict(es + [e]) <==> HasConflict(es) || e.action == Conflict
  {
    assert cs[..i + 1][..i] == cs[..i];
    hide PlanOne, Uses;
    forall es: seq<Entry>, e
      ensures HasConflict(es + [e]) <==> HasConflict(es) || e.action == Conflict
    {
      assert e in es + [e];
      assert forall x :: x in es ==> x in es + [e];
    }
  }

  lemma {:induction false} EntryIsPlanned(n: Naming, target: Files, cs: seq<Candidate>, i: nat)
    requires i < |cs|
    ensures Entries(n, target, cs)[i] == PlanOne(n, target, UsedBy(n, target, cs[..i]), cs[i])
  {
    hide PlanOne, UsedBy;
    if i < |cs| - 1 {
      EntryIsPlanned(n, target, cs[..|cs| - 1], i);
      assert cs[..|cs| - 1][..i] == cs[..i];
    }
  }

  method DowngradeEntries(planned: seq<Entry>) returns (entries: seq<Entry>)
    ensures entries == DowngradeAll(planned)
  {
    entries := planned;
    for j := 0 to |entries|
      invariant |entries| == |planned|
      invariant forall k :: 0 <= k < |planned| ==> entries[k] == if k < j then Downgraded(planned[k]) else planned[k]
    {
      if entries[j].action == Create || entries[j].action == Add {
        entries := entries[j := entries[j].(action := Conflict)];
      }
    }
  }

  lemma PlannedEntry(n: Naming, target: Files, tile: Tile, i: nat)
    requires |target| <= MAX_FILES && i < |tile.candidates|
    ensures var plan := PlanTile(n, target, tile);
            var e := PlanOne(n, target, UsedBy(n, target, tile.candidates[..i]), tile.candidates[i]);
            && |plan.entries| == |tile.candidates|
            && plan.entries[i] == (if plan.issues then Downgraded(e) else e)
            && (e.action == Conflict ==> plan.issues)
  {
    EntryIsPlanned(n, target, tile.candidates, i);
    hide PlanOne, Entries, UsedBy;
    assert Entries(n, target, tile.candidates)[i] in Entries(n, target, tile.candidates);
  }

  /** The i-th file is a conflict of its own. */
  predicate FailsAt(n: Naming, target: Files, cs: seq<Candidate>, i: nat)
    requires i < |cs|
  {
    PlanOne(n, target, UsedBy(n, target, cs[..i]), cs[i]).action == Conflict
  }

  /** A tile writes all its files or none: it is refused as a whole when the destination has more than 5,000 files, when the
      search for its files raised an issue, and when one of them cannot be placed and merged. */
  lemma TileIsAtomic(n: Naming, target: Files, tile: Tile)
    ensures var plan := PlanTile(n, target, tile);
            && (|target| > 5000 ==> plan == Plan([], true))
            && (|target| <= 5000 ==> |plan.entries| == |tile.candidates| && (tile.blocked ==> plan.issues))
            && (|target| <= 5000 && plan.issues ==>
                  tile.blocked || exists i :: 0 <= i < |tile.candidates| && FailsAt(n, target, tile.candidates, i))
            && (plan.issues ==> forall e :: e in plan.entries ==> e.action == Reuse || e.action == Conflict)
            && (!plan.issues ==> forall e :: e in plan.entries ==> e.action != Conflict)
  {
    var plan := PlanTile(n, target, tile);
    forall e | e in plan.entries
      ensures if plan.issues then e.action == Reuse || e.action == Conflict else e.action != Conflict
    {
      var i :| 0 <= i < |plan.entries| && plan.entries[i] == e;
    }
    if |target| <= MAX_FILES && plan.issues && !tile.blocked {
      var entries := Entries(n, target, tile.candidates);
      var e :| e in entries && e.action == Conflict;
      var i :| 0 <= i < |entries| && entries[i] == e;
      EntryIsPlanned(n, target, tile.candidates, i);
      assert FailsAt(n, target, tile.candidates, i);
    }
  }

  /** The recorded `before` is the text in the destination, except for a file that is there and whose
      identity is ambiguous: that one is shown as absent. */
  lemma BeforeIsTargetText(n: Naming, target: Files, used: set<string>, c: Candidate)
    ensures var e := PlanOne(n, target, used, c);
            && (e.before == Get(target, e.file) <==> !(Place(n, target.Keys, c.source).Ambiguous? && c.source in target))
            && (e.before != Get(target, e.file) ==> e.before.None? && e.action == Conflict)
  {}

  /** What an entry says of its file, when it is no conflict. */
  lemma EntryKeepsDefinitions(n: Naming, target: Files, used: set<string>, c: Candidate)
    ensures var e := PlanOne(n, target, used, c);
            e.action != Conflict ==>
              && e.before == Get(target, e.file) && e.after == Merge(e.before, c.content) && e.after.Some?
              && (e.action == Create <==> e.file !in target)
              && (e.action == Reuse <==> e.before == e.after)
  {}
}
