/** Collecting the identities of inventory records: documents, and folders with the folders below them. */
module InventoryIds {
  import opened Options

  datatype Children = NoChildren | NotAList | Below(nodes: seq<Record>)

  /** A record with its trimmed identity, which is empty when there is none; `wellShaped` tells that its other
      fields have the types they must have. */
  datatype Record = NoRecord | Record(id: string, wellShaped: bool, children: Children)

  /** The identities seen after these records, or None when one is malformed or repeated. Documents are not `nested`. */
  function Collect(nested: bool, seen: set<string>, records: seq<Record>): Option<set<string>>
    decreases records
  {
    if records == [] then Some(seen)
    else
      var r := records[0];
      if r.NoRecord? || r.id == "" || r.id in seen || !r.wellShaped then None
      else
        var inside := CollectBelow(nested, seen + {r.id}, r);
        if inside.None? then None else Collect(nested, inside.value, records[1..])
  }

  function CollectBelow(nested: bool, seen: set<string>, r: Record): Option<set<string>>
    requires r.Record?
    decreases r, 0
  {
    if !nested || r.children.NoChildren? then Some(seen)
    else if r.children.NotAList? then None
    else Collect(nested, seen, r.children.nodes)
  }

  class IdCollector {
    var seen: set<string>

    constructor ()
      ensures seen == {}
    {
      seen := {};
    }

    method CollectIds(nested: bool, records: seq<Record>) returns (ok: bool)
      modifies this
      ensures ok <==> Collect(nested, old(seen), records).Some?
      ensures ok ==> seen == Collect(nested, old(seen), records).value
      decreases records
    {
      for i := 0 to |records|
        invariant Collect(nested, old(seen), records) == Collect(nested, seen, records[i..])
      {
        var r := records[i];
        assert records[i..][0] == r && records[i..][1..] == records[i + 1..];
        if r.NoRecord? || r.id == "" || r.id in seen || !r.wellShaped {
          return false;
        }
        seen := seen + {r.id};
        if nested && !r.children.NoChildren? {
          if r.children.NotAList? {
            return false;
          }
          var inside := CollectIds(nested, r.children.nodes);
          if !inside {
            return false;
          }
        }
      }
      return true;
    }
  }

  // ---------- what is collected ----------

  /** All identities, each record before the records below it. */
  function Ids(nested: bool, records: seq<Record>): seq<string>
    decreases records
  {
    if records == [] then [] else OwnIds(nested, records[0]) + Ids(nested, records[1..])
  }

  function OwnIds(nested: bool, r: Record): seq<string>
    decreases r, 0
  {
    if r.NoRecord? then []
    else if nested && r.children.Below? then [r.id] + Ids(nested, r.children.nodes)
    else [r.id]
  }

  predicate WellFormed(nested: bool, records: seq<Record>)
    decreases records
  {
    forall i :: 0 <= i < |records| ==> WellFormedRecord(nested, records[i])
  }

  predicate WellFormedRecord(nested: bool, r: Record)
    decreases r, 0
  {
    && r.Record? && r.id != "" && r.wellShaped
    && (nested ==> match r.children { case NoChildren => true case NotAList => false case Below(nodes) => WellFormed(nested, nodes) })
  }

  predicate Distinct(ids: seq<string>) {
    forall i, j :: 0 <= i < j < |ids| ==> ids[i] != ids[j]
  }

  predicate Unseen(seen: set<string>, ids: seq<string>) {
    forall i :: 0 <= i < |ids| ==> ids[i] !in seen
  }

  function SetOf(ids: seq<string>): set<string> {
    set i | 0 <= i < |ids| :: ids[i]
  }

  lemma SetOfAppend(a: seq<string>, b: seq<string>)
    ensures SetOf(a + b) == SetOf(a) + SetOf(b)
  {
    forall x
      ensures x in SetOf(a + b) <==> x in SetOf(a) + SetOf(b)
    {
      if x in SetOf(a) {
        var i :| 0 <= i < |a| && a[i] == x;
        assert (a + b)[i] == x;
      }
      if x in SetOf(b) {
        var i :| 0 <= i < |b| && b[i] == x;
        assert (a + b)[|a| + i] == x;
      }
    }
  }

  /** New identities in two parts: the second part is also new to the first. */
  lemma DistinctAppend(seen: set<string>, a: seq<string>, b: seq<string>)
    ensures Distinct(a + b) && Unseen(seen, a + b)
            <==> Distinct(a) && Unseen(seen, a) && Distinct(b) && Unseen(seen + SetOf(a), b)
  {
    var all := a + b;
    assert forall i :: 0 <= i < |a| ==> all[i] == a[i];
    assert forall i :: 0 <= i < |b| ==> all[|a| + i] == b[i];
    assert forall i :: 0 <= i < |a| ==> a[i] in SetOf(a);
  }

  /** Collecting succeeds exactly when every record at every level is well formed and all identities are new and
      different; it then adds those and no others. */
  lemma {:induction false} CollectsExactlyDistinctIds(nested: bool, seen: set<string>, records: seq<Record>)
    ensures Collect(nested, seen, records).Some?
            <==> WellFormed(nested, records) && Distinct(Ids(nested, records)) && Unseen(seen, Ids(nested, records))
    ensures Collect(nested, seen, records).Some? ==> Collect(nested, seen, records).value == seen + SetOf(Ids(nested, records))
    decreases records
  {
    if records != [] {
      var r, rest := records[0], records[1..];
      assert WellFormed(nested, records) <==> WellFormedRecord(nested, r) && WellFormed(nested, rest) by {
        assert records == [r] + rest;
      }
      assert r.Record? ==> Ids(nested, records)[0] == r.id;
      if r.Record? && r.id != "" && r.wellShaped && r.id !in seen {
        CollectsRecord(nested, seen, r);
        SetOfAppend(OwnIds(nested, r), Ids(nested, rest));
        DistinctAppend(seen, OwnIds(nested, r), Ids(nested, rest));
        if CollectBelow(nested, seen + {r.id}, r).Some? {
          CollectsExactlyDistinctIds(nested, CollectBelow(nested, seen + {r.id}, r).value, rest);
        }
      }
    }
  }

  lemma {:induction false} CollectsRecord(nested: bool, seen: set<string>, r: Record)
    requires r.Record? && r.id != "" && r.wellShaped && r.id !in seen
    ensures CollectBelow(nested, seen + {r.id}, r).Some?
            <==> WellFormedRecord(nested, r) && Distinct(OwnIds(nested, r)) && Unseen(seen, OwnIds(nested, r))
    ensures CollectBelow(nested, seen + {r.id}, r).Some? ==>
              CollectBelow(nested, seen + {r.id}, r).value == seen + SetOf(OwnIds(nested, r))
    decreases r, 0
  {
    assert SetOf([r.id]) == {r.id} by {
      assert [r.id][0] == r.id;
    }
    if nested && r.children.Below? {
      var below := Ids(nested, r.children.nodes);
      SetOfAppend([r.id], below);
      DistinctAppend(seen, [r.id], below);
      CollectsExactlyDistinctIds(nested, seen + {r.id}, r.children.nodes);
    }
  }
}
