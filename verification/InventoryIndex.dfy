/** The cached dashboard inventory: an index by connection over the documents that are known to be dashboards. */
module InventoryIndex {
  import opened Options

  /** A document; an absent or empty connection counts as none. */
  datatype Document = Document(id: string, hasDashboard: Option<bool>, connectionId: string)

  datatype Inventory = Inventory(dashboards: seq<Document>, byConnection: map<string, seq<Document>>,
                                 sourceRecordCount: nat, missingConnectionId: nat, missingDashboardEvidence: nat)

  function Dashboards(documents: seq<Document>): seq<Document> {
    if documents == [] then []
    else
      var last := documents[|documents| - 1];
      Dashboards(documents[..|documents| - 1]) + if last.hasDashboard == Some(true) then [last] else []
  }

  /** The dashboards of one connection, in the order of the documents. */
  function OfConnection(documents: seq<Document>, connectionId: string): seq<Document> {
    if documents == [] then []
    else
      var last := documents[|documents| - 1];
      OfConnection(documents[..|documents| - 1], connectionId)
      + if last.hasDashboard == Some(true) && last.connectionId == connectionId then [last] else []
  }

  /** The index of a list of documents: a group for each connection that some dashboard has. */
  ghost predicate Indexes(documents: seq<Document>, groups: map<string, seq<Document>>) {
    forall c :: if c in groups then c != "" && groups[c] == OfConnection(documents, c) && groups[c] != []
                else c == "" || OfConnection(documents, c) == []
  }

  method BuildInventory(documents: seq<Document>) returns (inventory: Inventory)
    ensures inventory.dashboards == Dashboards(documents)
    ensures Indexes(documents, inventory.byConnection)
    ensures inventory.sourceRecordCount == |documents| == |inventory.dashboards| + inventory.missingDashboardEvidence
    ensures inventory.missingConnectionId == |OfConnection(documents, "")|
  {
    var dashboards: seq<Document>, groups: map<string, seq<Document>> := [], map[];
    var missingConnectionId, missingDashboardEvidence := 0, 0;
    for i := 0 to |documents|
      invariant dashboards == Dashboards(documents[..i])
      invariant Indexes(documents[..i], groups)
      invariant i == |dashboards| + missingDashboardEvidence
      invariant missingConnectionId == |OfConnection(documents[..i], "")|
    {
      var document := documents[i];
      assert documents[..i + 1][..i] == documents[..i];
      if document.hasDashboard != Some(true) {
        missingDashboardEvidence := missingDashboardEvidence + 1;
        continue;
      }
      dashboards := dashboards + [document];
      if document.connectionId == "" {
        missingConnectionId := missingConnectionId + 1;
        continue;
      }
      var group := if document.connectionId in groups then groups[document.connectionId] else [];
      groups := groups[document.connectionId := group + [document]];
    }
    assert documents[..|documents|] == documents;
    inventory := Inventory(dashboards, groups, |documents|, missingConnectionId, missingDashboardEvidence);
  }

  function DashboardsForConnection(inventory: Inventory, connectionId: string): seq<Document> {
    if connectionId == "" then inventory.dashboards
    else if connectionId in inventory.byConnection then inventory.byConnection[connectionId]
    else []
  }

  /** Looking a connection up in the index is filtering the documents by it; without a connection it is all dashboards. */
  lemma LookupIsFilter(documents: seq<Document>, inventory: Inventory, connectionId: string)
    requires inventory.dashboards == Dashboards(documents) && Indexes(documents, inventory.byConnection)
    ensures DashboardsForConnection(inventory, connectionId)
            == if connectionId == "" then Dashboards(documents) else OfConnection(documents, connectionId)
  {}

  /** The dashboards are the documents that are known to be, in their order; those of a connection are those that have it. */
  lemma {:induction false} DashboardsInTurn(a: seq<Document>, b: seq<Document>, connectionId: string)
    ensures Dashboards(a + b) == Dashboards(a) + Dashboards(b)
    ensures OfConnection(a + b, connectionId) == OfConnection(a, connectionId) + OfConnection(b, connectionId)
  {
    if b == [] {
      assert a + b == a;
    } else {
      assert (a + b)[..|a + b| - 1] == a + b[..|b| - 1];
      DashboardsInTurn(a, b[..|b| - 1], connectionId);
    }
  }

  lemma OneDocument(d: Document, connectionId: string)
    ensures Dashboards([d]) == if d.hasDashboard == Some(true) then [d] else []
    ensures OfConnection([d], connectionId) == if d.hasDashboard == Some(true) && d.connectionId == connectionId then [d] else []
  {
    assert [d][..0] == [];
  }

  /** No dashboard is in two groups or lost: the groups and those without a connection make up all dashboards. */
  lemma {:induction false} GroupsPartition(documents: seq<Document>)
    ensures forall c :: multiset(OfConnection(documents, c)) <= multiset(Dashboards(documents))
    ensures forall d :: d in Dashboards(documents) ==> multiset(OfConnection(documents, d.connectionId))[d] == multiset(Dashboards(documents))[d]
    ensures forall c, d :: d in OfConnection(documents, c) ==> d.connectionId == c
  {
    if documents != [] {
      GroupsPartition(documents[..|documents| - 1]);
    }
  }
}
