/** The source of a safe-copy request and its documents. */
module IntentSource {
  import opened Options
  import opened Json
  import opened TextOrder
  import opened IntentValues
  import opened IntentDestination

  const MAX_DOCUMENTS: nat := 500

  datatype Source = Source(instanceId: string, connectionId: string, documentIds: seq<string>)

  const DOCUMENT_IDS: string := "documentIds"

  function ParseIds(items: seq<Json>): Result<seq<string>> {
    if items == [] then Ok([])
    else
      var ids :- ParseIds(items[..|items| - 1]);
      var id :- Identifier(Some(items[|items| - 1]), InvalidSource);
      Ok(ids + [id])
  }

  function ParseSource(v: Option<Json>): Result<Source> {
    var _ :- Need(v.Some? && v.value.Object?, InvalidSource);
    var _ :- Need(OnlyKeys(v.value, {INSTANCE_ID, CONNECTION_ID, DOCUMENT_IDS}), UnknownField);
    var list := Get(v.value, DOCUMENT_IDS);
    var _ :- Need(list.Some? && list.value.List? && list.value.items != [], InvalidSource);
    var _ :- Need(|list.value.items| <= MAX_DOCUMENTS, LimitExceeded);
    var ids :- ParseIds(list.value.items);
    var instanceId :- Identifier(Get(v.value, INSTANCE_ID), InvalidSource);
    var connectionId :- Identifier(Get(v.value, CONNECTION_ID), InvalidSource);
    Ok(Source(instanceId, connectionId, Sorted(ids)))
  }

  function TextList(texts: seq<string>): (items: seq<Json>)
    ensures |items| == |texts| && forall i :: 0 <= i < |texts| ==> items[i] == Text(texts[i])
  {
    seq(|texts|, i requires 0 <= i < |texts| => Text(texts[i]))
  }

  function SourceField(s: Source, key: string): Option<Json> {
    if key == INSTANCE_ID then Some(Text(s.instanceId))
    else if key == CONNECTION_ID then Some(Text(s.connectionId))
    else if key == DOCUMENT_IDS then Some(List(TextList(s.documentIds)))
    else None
  }

  function SourceJson(s: Source): Json {
    Record({INSTANCE_ID, CONNECTION_ID, DOCUMENT_IDS}, key => SourceField(s, key))
  }

  lemma SourceFields(s: Source)
    ensures var v := SourceJson(s);
            && OnlyKeys(v, {INSTANCE_ID, CONNECTION_ID, DOCUMENT_IDS})
            && Get(v, INSTANCE_ID) == Some(Text(s.instanceId)) && Get(v, CONNECTION_ID) == Some(Text(s.connectionId))
            && Get(v, DOCUMENT_IDS) == Some(List(TextList(s.documentIds)))
  {}

  predicate IsIdentifier(s: string) {
    Identifier(Some(Text(s)), InvalidSource) == Ok(s)
  }

  /** Each item parses, and the list holds what they parse to. */
  lemma {:induction false} ParsedIds(items: seq<Json>)
    ensures ParseIds(items).Ok? <==> forall i :: 0 <= i < |items| ==> Identifier(Some(items[i]), InvalidSource).Ok?
    ensures ParseIds(items).Ok? ==>
              var ids := ParseIds(items).value;
              |ids| == |items| && forall i :: 0 <= i < |items| ==> Identifier(Some(items[i]), InvalidSource) == Ok(ids[i])
  {
    hide Bounded;
    if items != [] {
      var n := |items| - 1;
      ParsedIds(items[..n]);
      assert forall i :: 0 <= i < n ==> items[..n][i] == items[i];
    }
  }

  lemma {:induction false} IdsRead(texts: seq<string>)
    requires forall i :: 0 <= i < |texts| ==> IsIdentifier(texts[i])
    ensures ParseIds(TextList(texts)) == Ok(texts)
  {
    var items := TextList(texts);
    ParsedIds(items);
    forall i | 0 <= i < |items|
      ensures Identifier(Some(items[i]), InvalidSource) == Ok(texts[i])
    {
      assert IsIdentifier(texts[i]);
    }
    hide Bounded;
    assert ParseIds(items).value == texts;
  }

  /** A source is its own canonical form: identifiers as they are stored, documents in order and each once. */
  predicate CanonicalSource(s: Source) {
    && IsIdentifier(s.instanceId) && IsIdentifier(s.connectionId)
    && 0 < |s.documentIds| <= MAX_DOCUMENTS && Increasing(s.documentIds)
    && forall i :: 0 <= i < |s.documentIds| ==> IsIdentifier(s.documentIds[i])
  }

  lemma ParsedSourceIsCanonical(v: Option<Json>)
    requires ParseSource(v).Ok?
    ensures CanonicalSource(ParseSource(v).value)
  {
    var s := ParseSource(v).value;
    var items := Get(v.value, DOCUMENT_IDS).value.items;
    var ids := ParseIds(items).value;
    BoundedAgain(Get(v.value, INSTANCE_ID), MAX_IDENTIFIER_LENGTH, InvalidSource);
    BoundedAgain(Get(v.value, CONNECTION_ID), MAX_IDENTIFIER_LENGTH, InvalidSource);
    ParsedIds(items);
    SortedIsIncreasing(ids);
    SortedIsNoLonger(ids);
    hide Bounded, OnlyKeys, ParseIds;
    forall i | 0 <= i < |s.documentIds|
      ensures IsIdentifier(s.documentIds[i])
    {
      assert s.documentIds[i] in ids;
      var k :| 0 <= k < |ids| && ids[k] == s.documentIds[i];
      BoundedAgain(Some(items[k]), MAX_IDENTIFIER_LENGTH, InvalidSource);
    }
    assert ids[0] in Sorted(ids);
  }

  lemma CanonicalSourceReads(s: Source)
    requires CanonicalSource(s)
    ensures ParseSource(Some(SourceJson(s))) == Ok(s)
  {
    SourceFields(s);
    IdsRead(s.documentIds);
    IncreasingIsSorted(s.documentIds);
    var items := TextList(s.documentIds);
    hide TextList, ParseIds, SourceJson, Sorted, Increasing;
    SourceReads(SourceJson(s), s, items);
  }

  lemma SourceReads(v: Json, s: Source, items: seq<Json>)
    requires OnlyKeys(v, {INSTANCE_ID, CONNECTION_ID, DOCUMENT_IDS})
    requires Get(v, INSTANCE_ID) == Some(Text(s.instanceId)) && Get(v, CONNECTION_ID) == Some(Text(s.connectionId))
    requires IsIdentifier(s.instanceId) && IsIdentifier(s.connectionId)
    requires Get(v, DOCUMENT_IDS) == Some(List(items)) && 0 < |items| <= MAX_DOCUMENTS
    requires ParseIds(items) == Ok(s.documentIds) && Sorted(s.documentIds) == s.documentIds
    ensures ParseSource(Some(v)) == Ok(s)
  {}

  /** Documents in another order, or repeated, parse to the same source. */
  lemma DocumentsInAnyOrder(v: Option<Json>, w: Option<Json>)
    requires v.Some? && v.value.Object? && w.Some? && w.value.Object?
    requires w.value.fields.Keys == v.value.fields.Keys
    requires forall key :: key != DOCUMENT_IDS ==> Get(v.value, key) == Get(w.value, key)
    requires var a, b := Get(v.value, DOCUMENT_IDS), Get(w.value, DOCUMENT_IDS);
             && a.Some? && a.value.List? && b.Some? && b.value.List?
             && |a.value.items| <= MAX_DOCUMENTS && |b.value.items| <= MAX_DOCUMENTS
             && forall x :: x in a.value.items <==> x in b.value.items
    ensures ParseSource(v).Ok? ==> ParseSource(w) == ParseSource(v)
  {
    if ParseSource(v).Ok? {
      var a, b := Get(v.value, DOCUMENT_IDS).value.items, Get(w.value, DOCUMENT_IDS).value.items;
      assert a[0] in b;
      SameItemsSameIds(a, b);
      hide Bounded, ParseIds, Sorted;
    }
  }

  lemma SameItemsSameIds(a: seq<Json>, b: seq<Json>)
    requires ParseIds(a).Ok? && forall x :: x in a <==> x in b
    ensures ParseIds(b).Ok? && Sorted(ParseIds(b).value) == Sorted(ParseIds(a).value)
  {
    ParsedIds(a);
    ParsedIds(b);
    hide ParseIds, Bounded;
    forall i | 0 <= i < |b|
      ensures Identifier(Some(b[i]), InvalidSource).Ok?
    {
      assert b[i] in a;
    }
    SameImages(a, b, ParseIds(a).value, ParseIds(b).value);
    SortedIsDetermined(ParseIds(a).value, ParseIds(b).value);
  }

  lemma SameImages(a: seq<Json>, b: seq<Json>, ids: seq<string>, others: seq<string>)
    requires forall x :: x in a <==> x in b
    requires |ids| == |a| && forall i :: 0 <= i < |a| ==> Identifier(Some(a[i]), InvalidSource) == Ok(ids[i])
    requires |others| == |b| && forall i :: 0 <= i < |b| ==> Identifier(Some(b[i]), InvalidSource) == Ok(others[i])
    ensures forall x :: x in ids <==> x in others
  {
    hide Bounded;
    forall x | x in ids
      ensures x in others
    {
      var i :| 0 <= i < |ids| && ids[i] == x;
      assert a[i] in b;
      var k :| 0 <= k < |b| && b[k] == a[i];
      assert others[k] == x;
    }
    forall x | x in others
      ensures x in ids
    {
      var i :| 0 <= i < |others| && others[i] == x;
      assert b[i] in a;
      var k :| 0 <= k < |a| && a[k] == b[i];
      assert ids[k] == x;
    }
  }
}
