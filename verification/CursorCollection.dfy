/** Reading a collection page by page, following the cursor each page gives or counting pages. */
module CursorCollection {
  import opened Options
  import opened RecordTally
  import opened PageTally

  /** What a response says of the page after it: nothing, a cursor that can be sent back, or something else. */
  datatype NextCursor = Absent | Usable(cursor: string) | Unusable

  datatype Response<R> = Response(records: seq<Option<R>>, hasNextPage: Option<bool>, pageSize: Option<nat>, totalRecords: Option<nat>, next: NextCursor)

  datatype Reply<R> = Failed(code: string) | Body(response: Response<R>)

  /** A page marked with the cursor of the next one. */
  type CursorPage<R> = Page<R, Option<string>>

  function ParsePage<R>(reply: Reply<R>): Option<CursorPage<R>> {
    if reply.Failed? then None
    else
      var r := reply.response;
      if !AllPresent(r.records) || r.hasNextPage.None?
         || r.pageSize.None? || r.pageSize.value < 1 || r.pageSize.value > MAX_PAGE_SIZE
         || r.totalRecords.None?
         || |r.records| > r.pageSize.value || |r.records| > r.totalRecords.value
         || (|r.records| == 0 && (r.hasNextPage.value || r.totalRecords.value > 0))
      then None
      else if r.hasNextPage.value then
        if r.next.Usable? then Some(Page(Values(r.records), r.totalRecords.value, Some(r.next.cursor))) else None
      else if r.next.Absent? then Some(Page(Values(r.records), r.totalRecords.value, None))
      else None
  }

  function FailureCode<R>(reply: Reply<R>): string {
    if reply.Failed? then reply.code else INVALID_SHAPE
  }

  /** The service answers the request for a page by its number and the cursor sent. */
  type Service<!R> = (nat, Option<string>) -> Reply<R>

  function CursorAfter<R>(byNumber: bool, pages: seq<CursorPage<R>>): Option<string> {
    if byNumber || pages == [] then None else pages[|pages| - 1].mark
  }

  ghost predicate IsAnswer<R>(service: Service<R>, byNumber: bool, before: seq<CursorPage<R>>, page: CursorPage<R>) {
    ParsePage(service(|before| + 1, CursorAfter(byNumber, before))) == Some(page)
  }

  /** Each page answers the request made with the cursor of the page before it. */
  ghost predicate Answered<R>(service: Service<R>, byNumber: bool, pages: seq<CursorPage<R>>) {
    forall i :: 0 <= i < |pages| ==> IsAnswer(service, byNumber, pages[..i], pages[i])
  }

  /** Every page but the last has a next one, and no cursor is followed twice. */
  predicate Advances<R>(byNumber: bool, pages: seq<CursorPage<R>>) {
    && (forall i :: 0 <= i < |pages| - 1 ==> pages[i].mark.Some?)
    && (!byNumber ==> forall i, j :: 0 <= i < j < |pages| - 1 ==> pages[i].mark != pages[j].mark)
  }

  /** Page is followed by a next one that may be asked for: under a cursor not followed before, unless pages are counted. */
  predicate LeadsOn<R>(byNumber: bool, before: seq<CursorPage<R>>, page: CursorPage<R>) {
    page.mark.Some? && (byNumber || forall i :: 0 <= i < |before| ==> before[i].mark != page.mark)
  }

  /** The pages that are read after these, and why reading stops. */
  ghost function ReadFrom<R>(service: Service<R>, byNumber: bool, maxPages: nat, pages: seq<CursorPage<R>>): (seq<CursorPage<R>>, Stop)
    decreases maxPages - |pages|
  {
    if |pages| >= maxPages then (pages, AtLimit)
    else
      var reply := service(|pages| + 1, CursorAfter(byNumber, pages));
      var page := ParsePage(reply);
      if page.None? then (pages, Refused(SubsequentPage(FailureCode(reply))))
      else if page.value.mark.None? then (pages + [page.value], Done)
      else if !LeadsOn(byNumber, pages, page.value) then (pages + [page.value], Refused(CursorInvalid))
      else ReadFrom(service, byNumber, maxPages, pages + [page.value])
  }

  lemma ReadOn<R>(service: Service<R>, byNumber: bool, maxPages: nat, pages: seq<CursorPage<R>>)
    ensures var rest, reply := ReadFrom(service, byNumber, maxPages, pages), service(|pages| + 1, CursorAfter(byNumber, pages));
            var page := ParsePage(reply);
            if |pages| >= maxPages then rest == (pages, AtLimit)
            else if page.None? then rest == (pages, Refused(SubsequentPage(FailureCode(reply))))
            else if page.value.mark.None? then rest == (pages + [page.value], Done)
            else if !LeadsOn(byNumber, pages, page.value) then rest == (pages + [page.value], Refused(CursorInvalid))
            else rest == ReadFrom(service, byNumber, maxPages, pages + [page.value])
  {}

  datatype Outcome<T> =
    | NotRead
    | Collected(summary: T, included: nat, total: nat, complete: bool, exclusions: set<Exclusion>)

  /** Pages of one collection up to its last, every row counted under its own key, as many as every page claims. */
  ghost predicate Reconciled<T, R>(how: Reading<T, R>, initial: T, pages: seq<CursorPage<R>>, total: nat) {
    && pages != [] && pages[|pages| - 1].mark.None?
    && SameTotals(pages) && pages[0].total == total
    && |Rows(pages)| == total
    && DistinctKeys(how, Rows(pages)) && Sum(how, initial, Rows(pages)).Some?
  }

  ghost predicate InStep<T, R>(how: Reading<T, R>, initial: T, pages: seq<CursorPage<R>>, t: Tally<T>, expected: Option<nat>) {
    && t == Counted(how, initial, pages)
    && expected == (if pages == [] then None else Some(Total(pages)))
  }

  lemma PageFollows<T, R>(how: Reading<T, R>, initial: T, pages: seq<CursorPage<R>>,
                          t: Tally<T>, expected: Option<nat>, page: CursorPage<R>)
    requires InStep(how, initial, pages, t, expected)
    ensures InStep(how, initial, pages + [page], CountPage(how, t, expected, page), Expect(expected, page.total))
  {
    RowsGrow(pages, page);
    CountedGrows(how, initial, pages, page);
    assert pages == [] ==> Total(pages) == 0;
    hide Rows, Total, CountPage, Counted;
  }

  lemma AnsweredGrows<R>(service: Service<R>, byNumber: bool, pages: seq<CursorPage<R>>, page: CursorPage<R>)
    requires Answered(service, byNumber, pages)
    requires ParsePage(service(|pages| + 1, CursorAfter(byNumber, pages))) == Some(page)
    ensures Answered(service, byNumber, pages + [page])
  {
    assert IsAnswer(service, byNumber, pages, page);
    hide IsAnswer;
    var all := pages + [page];
    forall i | 0 <= i < |all|
      ensures IsAnswer(service, byNumber, all[..i], all[i])
    {
      assert all[..i] == pages[..i];
      if i == |pages| {
        assert all[..i] == pages;
      }
    }
  }

  /** The cursors the pages give. */
  ghost function Marks<R>(pages: seq<CursorPage<R>>): set<string> {
    set i | 0 <= i < |pages| && pages[i].mark.Some? :: pages[i].mark.value
  }

  /** A page that has a next one, under a cursor not seen before unless pages are counted. */
  predicate MayContinue<R>(byNumber: bool, pages: seq<CursorPage<R>>) {
    && (forall i :: 0 <= i < |pages| ==> pages[i].mark.Some?)
    && (!byNumber ==> forall i, j :: 0 <= i < j < |pages| ==> pages[i].mark != pages[j].mark)
  }

  lemma ContinueGrows<R>(byNumber: bool, pages: seq<CursorPage<R>>, page: CursorPage<R>)
    requires MayContinue(byNumber, pages)
    ensures Advances(byNumber, pages + [page])
    ensures page.mark.Some? && (byNumber || page.mark.value !in Marks(pages)) ==> MayContinue(byNumber, pages + [page])
    ensures page.mark.Some? ==> Marks(pages + [page]) == Marks(pages) + {page.mark.value}
    ensures page.mark.Some? ==> (LeadsOn(byNumber, pages, page) <==> byNumber || page.mark.value !in Marks(pages))
  {
    var all := pages + [page];
    assert all[|pages|] == page && forall i :: 0 <= i < |pages| ==> all[i] == pages[i];
    forall i | 0 <= i < |pages|
      ensures pages[i].mark.value in Marks(pages)
    {}
    if page.mark.Some? {
      forall c
        ensures c in Marks(all) <==> c in Marks(pages) + {page.mark.value}
      {
        if c in Marks(pages) {
          var i :| 0 <= i < |pages| && pages[i].mark == Some(c);
          assert all[i].mark == Some(c);
        }
      }
    }
  }

  lemma Settle<T, R>(how: Reading<T, R>, initial: T, pages: seq<CursorPage<R>>, t: Tally<T>, expected: Option<nat>)
    requires InStep(how, initial, pages, t, expected)
    ensures expected == if pages == [] then None else Some(Total(pages))
    ensures pages == [] ==> Total(pages) == t.included == 0
    ensures pages != [] && pages[|pages| - 1].mark.None? ==>
              (t.exclusions == {} && t.included == Total(pages) <==> Reconciled(how, initial, pages, Total(pages)))
    ensures t == Counted(how, initial, pages)
    ensures t.included == |Accepted(how, initial, Rows(pages))|
    ensures Sum(how, initial, Accepted(how, initial, Rows(pages))) == Some(t.summary)
  {
    NothingExcluded(how, initial, Rows(pages));
    SummaryIsSumOfAccepted(how, initial, Rows(pages));
    if pages != [] && SameTotals(pages) {
      SameTotalsIsTotal(pages);
    }
  }

  lemma NothingRead<T, R>(how: Reading<T, R>, initial: T, service: Service<R>, byNumber: bool)
    ensures InStep<T, R>(how, initial, [], Empty(initial), None) && Answered(service, byNumber, [])
    ensures MayContinue<R>(byNumber, []) && Marks<R>([]) == {} && Advances<R>(byNumber, [])
    ensures CursorAfter<R>(byNumber, []) == None
  {}

  method CollectCursor<T, R>(how: Reading<T, R>, initial: T, service: Service<R>, byNumber: bool, maxPages: nat)
    returns (r: Outcome<T>, ghost pages: seq<CursorPage<R>>, ghost stop: Stop)
    requires 1 <= maxPages
    ensures (pages, stop) == ReadFrom(service, byNumber, maxPages, [])
    ensures r.NotRead? <==> ParsePage(service(1, None)).None?
    ensures Answered(service, byNumber, pages) && Advances(byNumber, pages) && |pages| <= maxPages
    ensures r.Collected? ==>
              && r.exclusions == Counted(how, initial, pages).exclusions + Reasons(stop)
                                 + (if stop.Done? && r.included != r.total then {NotReconciled} else {})
              && r.total == Total(pages)
              && r.included == |Accepted(how, initial, Rows(pages))|
              && Sum(how, initial, Accepted(how, initial, Rows(pages))) == Some(r.summary)
              && (r.complete <==> Reconciled(how, initial, pages, r.total))
              && (r.complete <==> r.exclusions == {}) && (r.complete ==> r.included == r.total)
  {
    hide *;
    var t, completed := Empty(initial), false;
    var expected: Option<nat> := None;
    var cursor: Option<string> := None;
    var seenCursors: set<string> := {};
    var stopped: set<Exclusion> := {};
    pages, stop := [], AtLimit;
    NothingRead(how, initial, service, byNumber);
    var pageNumber := 1;
    while pageNumber <= maxPages
      invariant 1 <= pageNumber == |pages| + 1 <= maxPages + 1
      invariant InStep(how, initial, pages, t, expected)
      invariant Answered(service, byNumber, pages) && MayContinue(byNumber, pages) && Advances(byNumber, pages)
      invariant cursor == CursorAfter(byNumber, pages) && (byNumber || pages == [] ==> cursor == None)
      invariant !byNumber ==> seenCursors == Marks(pages)
      invariant pages != [] ==> ParsePage(service(1, None)).Some? && pages[|pages| - 1].mark.Some?
      invariant ReadFrom(service, byNumber, maxPages, pages) == ReadFrom(service, byNumber, maxPages, [])
      invariant stopped == (if pageNumber <= maxPages then {} else {PageLimit}) && stop == AtLimit
    {
      ReadOn(service, byNumber, maxPages, pages);
      var reply := service(pageNumber, cursor);
      var parsed := ParsePage(reply);
      if parsed.None? {
        if pageNumber == 1 {
          return NotRead, pages, Refused(SubsequentPage(FailureCode(reply)));
        }
        stopped, stop := {SubsequentPage(FailureCode(reply))}, Refused(SubsequentPage(FailureCode(reply)));
        break;
      }
      var page := parsed.value;
      PageFollows(how, initial, pages, t, expected, page);
      AnsweredGrows(service, byNumber, pages, page);
      ContinueGrows(byNumber, pages, page);
      pages := pages + [page];
      t := CountPage(how, t, expected, page);
      expected := Expect(expected, page.total);
      if page.mark.None? {
        completed, stop := true, Done;
        break;
      }
      if !byNumber {
        if page.mark.value in seenCursors {
          stopped, stop := {CursorInvalid}, Refused(CursorInvalid);
          break;
        }
        seenCursors := seenCursors + {page.mark.value};
        cursor := page.mark;
      }
      LastCursor(byNumber, pages);
      if pageNumber == maxPages {
        stopped := {PageLimit};
      }
      pageNumber := pageNumber + 1;
    }
    ReadOn(service, byNumber, maxPages, pages);
    ReasonsOf(stop);
    Settle(how, initial, pages, t, expected);
    if pages != [] {
      OpenIsNotReconciled(how, initial, pages, Total(pages));
    }
    var total := if expected.Some? then expected.value else t.included;
    var exclusions := t.exclusions + stopped;
    var complete := completed && t.included == total && exclusions == {};
    if completed && t.included != total {
      exclusions := exclusions + {NotReconciled};
    }
    r := Collected(t.summary, t.included, total, complete, exclusions);
  }

  lemma LastCursor<R>(byNumber: bool, pages: seq<CursorPage<R>>)
    requires pages != []
    ensures CursorAfter(byNumber, pages) == if byNumber then None else pages[|pages| - 1].mark
  {}

  lemma OpenIsNotReconciled<T, R>(how: Reading<T, R>, initial: T, pages: seq<CursorPage<R>>, total: nat)
    requires pages != []
    ensures Reconciled(how, initial, pages, total) ==> pages[|pages| - 1].mark.None?
  {}
}
