/** Reading a SCIM list page by page, with the index-based pagination of section 3.4.2.4 of RFC 7644. */
module ScimCollection {
  import opened Options
  import opened RecordTally
  import opened PageTally

  /** A list response. A resource that is no object is None, and so is a count that is no natural number. */
  datatype ListResponse<R> =
    ListResponse(resources: seq<Option<R>>, itemsPerPage: Option<nat>, startIndex: Option<nat>, totalResults: Option<nat>)

  datatype Reply<R> = Failed(code: string) | Body(list: ListResponse<R>)

  /** A page marked with the position of its first record. */
  type ListPage<R> = Page<R, nat>

  /** The response is one page of a list, inside that list. */
  function ParsePage<R>(reply: Reply<R>): Option<ListPage<R>> {
    if reply.Failed? then None
    else
      var list := reply.list;
      if !AllPresent(list.resources)
         || list.itemsPerPage != Some(|list.resources|) || list.itemsPerPage.value > MAX_PAGE_SIZE
         || list.startIndex.None? || list.startIndex.value < 1
         || list.totalResults.None?
         || (list.totalResults.value == 0 && (list.startIndex.value != 1 || |list.resources| != 0))
         || (list.totalResults.value > 0
             && (|list.resources| == 0 || list.startIndex.value > list.totalResults.value
                 || list.startIndex.value + |list.resources| - 1 > list.totalResults.value))
      then None
      else Some(Page(Values(list.resources), list.totalResults.value, list.startIndex.value))
  }

  function FailureCode<R>(reply: Reply<R>): string {
    if reply.Failed? then reply.code else INVALID_SHAPE
  }

  // ---------- the pages read ----------

  /** The service answers the request for a page by its number and the start index asked for. */
  type Service<!R> = (nat, nat) -> Reply<R>

  ghost predicate IsAnswer<R>(service: Service<R>, before: seq<ListPage<R>>, page: ListPage<R>) {
    && ParsePage(service(|before| + 1, 1 + |Rows(before)|)) == Some(page)
    && page.mark == 1 + |Rows(before)|
  }

  /** Each page answers the request made after the pages before it, and starts where they end. */
  ghost predicate Answered<R>(service: Service<R>, pages: seq<ListPage<R>>) {
    forall i :: 0 <= i < |pages| ==> IsAnswer(service, pages[..i], pages[i])
  }

  /** The pages that are read after these, and why reading stops. */
  function ReadFrom<T, R>(how: Reading<T, R>, initial: T, service: Service<R>, maxPages: nat, pages: seq<ListPage<R>>): (seq<ListPage<R>>, Stop)
    decreases maxPages - |pages|
  {
    if |pages| >= maxPages then (pages, AtLimit)
    else
      var reply := service(|pages| + 1, 1 + |Rows(pages)|);
      var page := ParsePage(reply);
      if page.None? then (pages, Refused(SubsequentPage(FailureCode(reply))))
      else if page.value.mark != 1 + |Rows(pages)| then (pages, Refused(StartMismatch))
      else if Counted(how, initial, pages + [page.value]).included >= page.value.total then (pages + [page.value], Done)
      else ReadFrom(how, initial, service, maxPages, pages + [page.value])
  }

  datatype Outcome<T> =
    | NotRead
    | Collected(summary: T, included: nat, total: nat, complete: bool, exclusions: set<Exclusion>)

  /** Pages of one list, read from its first position to its last, every row counted under its own key. */
  ghost predicate Reconciled<T, R>(how: Reading<T, R>, initial: T, pages: seq<ListPage<R>>, total: nat) {
    && pages != [] && SameTotals(pages) && pages[0].total == total
    && |Rows(pages)| == total
    && DistinctKeys(how, Rows(pages)) && Sum(how, initial, Rows(pages)).Some?
  }

  // ---------- the loop ----------

  /** What the loop knows after reading `pages`. */
  ghost predicate InStep<T, R>(how: Reading<T, R>, initial: T, service: Service<R>, pages: seq<ListPage<R>>,
                               t: Tally<T>, expected: Option<nat>)
  {
    && Answered(service, pages)
    && t == Counted(how, initial, pages)
    && expected == (if pages == [] then None else Some(Total(pages)))
    && t.included <= |Rows(pages)| <= Total(pages)
  }

  /** A parsed page lies inside its list, and is empty only when the list is. */
  lemma PageIsInside<R>(reply: Reply<R>)
    requires ParsePage(reply).Some?
    ensures var page := ParsePage(reply).value;
            && page.mark >= 1
            && page.mark - 1 + |page.rows| <= page.total
            && (|page.rows| == 0 ==> page.total == 0)
  {}

  lemma AnsweredGrows<R>(service: Service<R>, pages: seq<ListPage<R>>, page: ListPage<R>)
    requires Answered(service, pages)
    requires ParsePage(service(|pages| + 1, 1 + |Rows(pages)|)) == Some(page) && page.mark == 1 + |Rows(pages)|
    ensures Answered(service, pages + [page])
  {
    assert IsAnswer(service, pages, page);
    hide IsAnswer;
    var all := pages + [page];
    forall i | 0 <= i < |all|
      ensures IsAnswer(service, all[..i], all[i])
    {
      assert all[..i] == pages[..i];
      if i == |pages| {
        assert all[..i] == pages;
      }
    }
  }

  lemma PageFollows<T, R>(how: Reading<T, R>, initial: T, service: Service<R>, pages: seq<ListPage<R>>,
                          t: Tally<T>, expected: Option<nat>, page: ListPage<R>)
    requires InStep(how, initial, service, pages, t, expected)
    requires ParsePage(service(|pages| + 1, 1 + |Rows(pages)|)) == Some(page) && page.mark == 1 + |Rows(pages)|
    ensures InStep(how, initial, service, pages + [page], CountPage(how, t, expected, page), Expect(expected, page.total))
    ensures CountPage(how, t, expected, page) == Counted(how, initial, pages + [page])
  {
    hide *;
    var all := pages + [page];
    InStepMeans(how, initial, service, pages, t, expected);
    InStepMeans(how, initial, service, all, CountPage(how, t, expected, page), Expect(expected, page.total));
    PageIsInside(service(|pages| + 1, 1 + |Rows(pages)|));
    AnsweredGrows(service, pages, page);
    RowsGrow(pages, page);
    CountedGrows(how, initial, pages, page);
    CountedIsBounded(how, initial, all);
    ExpectsTotal(pages, page);
  }

  lemma InStepMeans<T, R>(how: Reading<T, R>, initial: T, service: Service<R>, pages: seq<ListPage<R>>, t: Tally<T>, expected: Option<nat>)
    ensures InStep(how, initial, service, pages, t, expected) <==>
            && Answered(service, pages)
            && t == Counted(how, initial, pages)
            && expected == (if pages == [] then None else Some(Total(pages)))
            && t.included <= |Rows(pages)| <= Total(pages)
  {}

  /** What is left to say when the pages are read. */
  lemma Settle<T, R>(how: Reading<T, R>, initial: T, service: Service<R>, pages: seq<ListPage<R>>,
                     t: Tally<T>, expected: Option<nat>)
    requires InStep(how, initial, service, pages, t, expected)
    ensures Answered(service, pages) && t.included <= Total(pages) && expected == if pages == [] then None else Some(Total(pages))
    ensures pages == [] ==> Total(pages) == t.included == 0
    ensures t.exclusions == {} && t.included == Total(pages) && pages != [] <==> Reconciled(how, initial, pages, Total(pages))
    ensures t.exclusions <= {InvalidRecords, DuplicateRecords, TotalChanged}
    ensures t == Counted(how, initial, pages)
    ensures t.included == |Accepted(how, initial, Rows(pages))|
    ensures Sum(how, initial, Accepted(how, initial, Rows(pages))) == Some(t.summary)
  {
    NothingExcluded(how, initial, Rows(pages));
    SummaryIsSumOfAccepted(how, initial, Rows(pages));
    if pages != [] && SameTotals(pages) {
      SameTotalsIsTotal(pages);
    }
  }

  method CollectScim<T, R>(how: Reading<T, R>, initial: T, service: Service<R>, maxPages: nat)
    returns (r: Outcome<T>, ghost pages: seq<ListPage<R>>, ghost stop: Stop)
    requires 1 <= maxPages
    ensures (pages, stop) == ReadFrom(how, initial, service, maxPages, [])
    ensures r.NotRead? <==> ParsePage(service(1, 1)).None?
    ensures Answered(service, pages) && |pages| <= maxPages
    ensures r.Collected? ==>
              && r.exclusions == Counted(how, initial, pages).exclusions + Reasons(stop)
                                 + (if stop.Done? && r.included != r.total then {NotReconciled} else {})
              && r.total == Total(pages) && r.included <= r.total
              && r.included == |Accepted(how, initial, Rows(pages))|
              && Sum(how, initial, Accepted(how, initial, Rows(pages))) == Some(r.summary)
              && (r.complete <==> Reconciled(how, initial, pages, r.total))
              && (r.complete <==> r.exclusions == {}) && (r.complete ==> r.included == r.total)
              && EndedBeforeTotal !in r.exclusions
  {
    hide *;
    var t, completed := Empty(initial), false;
    var expected: Option<nat> := None;
    var start: nat := 1;
    var stopped: set<Exclusion> := {};
    pages, stop := [], AtLimit;
    NothingRead(how, initial, service);
    var pageNumber := 1;
    while pageNumber <= maxPages
      invariant 1 <= pageNumber == |pages| + 1 <= maxPages + 1
      invariant InStep(how, initial, service, pages, t, expected)
      invariant start == 1 + |Rows(pages)|
      invariant pages == [] ==> start == 1
      invariant pages != [] ==> ParsePage(service(1, 1)).Some? && t.included < Total(pages)
      invariant ReadFrom(how, initial, service, maxPages, pages) == ReadFrom(how, initial, service, maxPages, [])
      invariant stopped == (if pageNumber <= maxPages then {} else {PageLimit}) && stop == AtLimit
      invariant !completed
    {
      ReadOn(how, initial, service, maxPages, pages);
      var reply := service(pageNumber, start);
      var parsed := ParsePage(reply);
      if parsed.None? {
        if pageNumber == 1 {
          NothingRead(how, initial, service);
          return NotRead, pages, Refused(SubsequentPage(FailureCode(reply)));
        }
        stopped, stop := {SubsequentPage(FailureCode(reply))}, Refused(SubsequentPage(FailureCode(reply)));
        break;
      }
      var page := parsed.value;
      if page.mark != start {
        stopped, stop := {StartMismatch}, Refused(StartMismatch);
        break;
      }
      PageIsInside(reply);
      PageFollows(how, initial, service, pages, t, expected, page);
      RowsGrow(pages, page);
      pages := pages + [page];
      t := CountPage(how, t, expected, page);
      expected := Expect(expected, page.total);
      if t.included >= page.total {
        completed, stop := true, Done;
        break;
      }
      if |page.rows| == 0 {
        stopped := {EndedBeforeTotal};
        break;
      }
      start := start + |page.rows|;
      if pageNumber == maxPages {
        stopped := {PageLimit};
      }
      pageNumber := pageNumber + 1;
    }
    ReadOn(how, initial, service, maxPages, pages);
    Settle(how, initial, service, pages, t, expected);
    ReasonsOf(stop);
    var total := if expected.Some? then expected.value else t.included;
    var exclusions := t.exclusions + stopped;
    var complete := completed && t.included == total && exclusions == {};
    if completed && t.included != total {
      exclusions := exclusions + {NotReconciled};
    }
    r := Collected(t.summary, t.included, total, complete, exclusions);
  }

  lemma ReadOn<T, R>(how: Reading<T, R>, initial: T, service: Service<R>, maxPages: nat, pages: seq<ListPage<R>>)
    ensures var rest, reply := ReadFrom(how, initial, service, maxPages, pages), service(|pages| + 1, 1 + |Rows(pages)|);
            var page := ParsePage(reply);
            if |pages| >= maxPages then rest == (pages, AtLimit)
            else if page.None? then rest == (pages, Refused(SubsequentPage(FailureCode(reply))))
            else if page.value.mark != 1 + |Rows(pages)| then rest == (pages, Refused(StartMismatch))
            else if Counted(how, initial, pages + [page.value]).included >= page.value.total then rest == (pages + [page.value], Done)
            else rest == ReadFrom(how, initial, service, maxPages, pages + [page.value])
  {}

  lemma NothingRead<T, R>(how: Reading<T, R>, initial: T, service: Service<R>)
    ensures InStep(how, initial, service, [], Empty(initial), None) && Answered(service, [])
    ensures |Rows<R, nat>([])| == 0
  {}

  // ---------- positions ----------

  /** Page i holds list position p. */
  predicate Holds<R>(pages: seq<ListPage<R>>, i: nat, p: nat) {
    i < |pages| && pages[i].mark <= p < pages[i].mark + |pages[i].rows|
  }

  /** Page i holds list position p, with the row that was read there. */
  ghost predicate HoldsRow<R>(pages: seq<ListPage<R>>, i: nat, p: nat) {
    Holds(pages, i, p) && 1 <= p <= |Rows(pages)| && pages[i].rows[p - pages[i].mark] == Rows(pages)[p - 1]
  }

  lemma EarlierRowStays<R>(front: seq<ListPage<R>>, last: ListPage<R>, i: nat, p: nat)
    requires HoldsRow(front, i, p)
    ensures HoldsRow(front + [last], i, p)
  {
    RowsGrow(front, last);
    hide Rows;
    assert (front + [last])[i] == front[i];
    assert (Rows(front) + last.rows)[p - 1] == Rows(front)[p - 1];
  }

  lemma LastRow<R>(front: seq<ListPage<R>>, last: ListPage<R>, p: nat)
    requires last.mark == 1 + |Rows(front)| && |Rows(front)| < p <= |Rows(front)| + |last.rows|
    ensures HoldsRow(front + [last], |front|, p)
  {
    RowsGrow(front, last);
    hide Rows;
    assert (Rows(front) + last.rows)[p - 1] == last.rows[p - 1 - |Rows(front)|];
  }

  /** The pages tile the positions from 1 to the number of rows read: each position is on a page, which holds that row. */
  lemma {:induction false} PositionIsRead<R>(service: Service<R>, pages: seq<ListPage<R>>, p: nat) returns (i: nat)
    requires Answered(service, pages) && 1 <= p <= |Rows(pages)|
    ensures HoldsRow(pages, i, p)
  {
    var front, last := pages[..|pages| - 1], pages[|pages| - 1];
    AnsweredShrinks(service, pages);
    RowsGrow(front, last);
    hide IsAnswer, Answered, Rows, HoldsRow, Holds;
    assert pages == front + [last];
    if p <= |Rows(front)| {
      i := PositionIsRead(service, front, p);
      EarlierRowStays(front, last, i, p);
    } else {
      i := |front|;
      LastRow(front, last, p);
    }
  }

  /** And on no other page. */
  lemma PositionIsReadOnce<R>(service: Service<R>, pages: seq<ListPage<R>>, i: nat, j: nat, p: nat)
    requires Answered(service, pages) && Holds(pages, i, p) && Holds(pages, j, p)
    ensures i == j
  {
    if i < j {
      LaterPagesStartLater(service, pages, i, j);
    } else if j < i {
      LaterPagesStartLater(service, pages, j, i);
    }
  }

  lemma {:induction false} LaterPagesStartLater<R>(service: Service<R>, pages: seq<ListPage<R>>, i: nat, j: nat)
    requires Answered(service, pages) && i < j < |pages|
    ensures pages[i].mark + |pages[i].rows| <= pages[j].mark
  {
    AnsweredShrinks(service, pages);
    hide IsAnswer, Answered;
    var front := pages[..|pages| - 1];
    if j < |pages| - 1 {
      LaterPagesStartLater(service, front, i, j);
    } else {
      MarksGrow(service, front, i);
    }
  }

  lemma AnsweredShrinks<R>(service: Service<R>, pages: seq<ListPage<R>>)
    requires Answered(service, pages) && pages != []
    ensures Answered(service, pages[..|pages| - 1]) && pages[|pages| - 1].mark == 1 + |Rows(pages[..|pages| - 1])|
  {
    var front := pages[..|pages| - 1];
    assert IsAnswer(service, front, pages[|pages| - 1]);
    hide IsAnswer;
    forall i | 0 <= i < |front|
      ensures IsAnswer(service, front[..i], front[i])
    {
      assert front[..i] == pages[..i];
    }
  }

  lemma {:induction false} MarksGrow<R>(service: Service<R>, pages: seq<ListPage<R>>, j: nat)
    requires Answered(service, pages) && j < |pages|
    ensures pages[j].mark + |pages[j].rows| <= 1 + |Rows(pages)|
  {
    AnsweredShrinks(service, pages);
    hide IsAnswer, Answered;
    if j < |pages| - 1 {
      MarksGrow(service, pages[..|pages| - 1], j);
    }
  }
}
