/** Counting a collection that arrives in pages, each with the total its service claims. */
module PageTally {
  import opened Options
  import opened RecordTally

  /** A page of records, the claimed total, and what tells where the page stands. */
  datatype Page<R, M> = Page(rows: seq<R>, total: nat, mark: M)

  const MAX_PAGE_SIZE: nat := 100
  const INVALID_SHAPE: string := "invalid_response_shape"

  /** Why reading stopped: the collection is read, the page limit is reached, or for the reason given. */
  datatype Stop = Done | AtLimit | Refused(reason: Exclusion)

  function Reasons(stop: Stop): set<Exclusion> {
    match stop
    case Done => {}
    case AtLimit => {PageLimit}
    case Refused(reason) => {reason}
  }

  lemma ReasonsOf(stop: Stop)
    ensures Reasons(stop) == match stop { case Done => {} case AtLimit => {PageLimit} case Refused(reason) => {reason} }
  {}

  /** Every element is an object. */
  predicate AllPresent<R>(elements: seq<Option<R>>) {
    forall i :: 0 <= i < |elements| ==> elements[i].Some?
  }

  function Values<R>(elements: seq<Option<R>>): (rows: seq<R>)
    requires AllPresent(elements)
    ensures |rows| == |elements|
  {
    seq(|elements|, i requires 0 <= i < |elements| => elements[i].value)
  }

  function Rows<R, M>(pages: seq<Page<R, M>>): seq<R> {
    if pages == [] then [] else Rows(pages[..|pages| - 1]) + pages[|pages| - 1].rows
  }

  /** The largest total seen. */
  function Total<R, M>(pages: seq<Page<R, M>>): nat {
    if pages == [] then 0
    else
      var before, last := Total(pages[..|pages| - 1]), pages[|pages| - 1].total;
      if before > last then before else last
  }

  predicate SameTotals<R, M>(pages: seq<Page<R, M>>) {
    forall i :: 0 <= i < |pages| ==> pages[i].total == pages[0].total
  }

  /** The tally of the rows of these pages, with the finding about their totals. */
  function Counted<T, R, M>(how: Reading<T, R>, initial: T, pages: seq<Page<R, M>>): Tally<T> {
    var t := TakeAll(how, Empty(initial), Rows(pages));
    if SameTotals(pages) then t else t.(exclusions := t.exclusions + {TotalChanged})
  }

  lemma {:induction false} TakeAllInTurn<T, R>(how: Reading<T, R>, t: Tally<T>, rows: seq<R>, more: seq<R>)
    ensures TakeAll(how, t, rows + more) == TakeAll(how, TakeAll(how, t, rows), more)
  {
    if more == [] {
      assert rows + more == rows;
    } else {
      assert (rows + more)[..|rows + more| - 1] == rows + more[..|more| - 1];
      TakeAllInTurn(how, t, rows, more[..|more| - 1]);
    }
  }

  /** Excluding one thing more does not change what is counted. */
  lemma {:induction false} TakeAllExcluding<T, R>(how: Reading<T, R>, t: Tally<T>, rows: seq<R>, extra: set<Exclusion>)
    ensures var plain := TakeAll(how, t, rows);
            TakeAll(how, t.(exclusions := t.exclusions + extra), rows) == plain.(exclusions := plain.exclusions + extra)
  {
    if rows != [] {
      TakeAllExcluding(how, t, rows[..|rows| - 1], extra);
    }
  }

  lemma {:induction false} SameTotalsIsTotal<R, M>(pages: seq<Page<R, M>>)
    requires pages != [] && SameTotals(pages)
    ensures Total(pages) == pages[0].total
  {
    var front := pages[..|pages| - 1];
    if front != [] {
      SameTotalsIsTotal(front);
    }
  }

  /** What the loop makes of a page: its total first, then its rows. */
  function CountPage<T, R, M>(how: Reading<T, R>, t: Tally<T>, expected: Option<nat>, page: Page<R, M>): Tally<T> {
    var changed := expected.Some? && expected.value != page.total;
    TakeAll(how, if changed then t.(exclusions := t.exclusions + {TotalChanged}) else t, page.rows)
  }

  function Expect(expected: Option<nat>, total: nat): Option<nat> {
    if expected.None? || expected.value < total then Some(total) else expected
  }

  lemma CountedGrows<T, R, M>(how: Reading<T, R>, initial: T, pages: seq<Page<R, M>>, page: Page<R, M>)
    ensures Counted(how, initial, pages + [page])
            == CountPage(how, Counted(how, initial, pages), if pages == [] then None else Some(Total(pages)), page)
  {
    var all := pages + [page];
    assert all[..|all| - 1] == pages;
    var plain := TakeAll(how, Empty(initial), Rows(pages));
    TakeAllInTurn(how, Empty(initial), Rows(pages), page.rows);
    TakeAllExcluding(how, plain, page.rows, {TotalChanged});
    if pages != [] {
      assert all[0] == pages[0];
      assert SameTotals(all) <==> SameTotals(pages) && page.total == pages[0].total by {
        assert all[|pages|] == page;
        assert forall i :: 0 <= i < |pages| ==> all[i] == pages[i];
      }
      if SameTotals(pages) {
        SameTotalsIsTotal(pages);
      } else {
        var counted := Counted(how, initial, pages);
        assert counted.(exclusions := counted.exclusions + {TotalChanged}) == counted;
      }
    }
  }

  lemma RowsGrow<R, M>(pages: seq<Page<R, M>>, page: Page<R, M>)
    ensures Rows(pages + [page]) == Rows(pages) + page.rows
    ensures Total(pages + [page]) == if Total(pages) > page.total then Total(pages) else page.total
  {}

  lemma CountedIsBounded<T, R, M>(how: Reading<T, R>, initial: T, pages: seq<Page<R, M>>)
    ensures Counted(how, initial, pages).included <= |Rows(pages)|
  {
    SummaryIsSumOfAccepted(how, initial, Rows(pages));
  }

  lemma ExpectsTotal<R, M>(pages: seq<Page<R, M>>, page: Page<R, M>)
    ensures Expect(if pages == [] then None else Some(Total(pages)), page.total) == Some(Total(pages + [page]))
  {
    RowsGrow(pages, page);
  }

  /** The total of a collection is the largest that some page claims. */
  lemma {:induction false} TotalIsLargest<R, M>(pages: seq<Page<R, M>>)
    ensures forall i :: 0 <= i < |pages| ==> pages[i].total <= Total(pages)
    ensures pages != [] ==> exists i :: 0 <= i < |pages| && pages[i].total == Total(pages)
  {
    if pages != [] {
      var front := pages[..|pages| - 1];
      TotalIsLargest(front);
      assert forall i :: 0 <= i < |front| ==> front[i] == pages[i];
      if front != [] && Total(pages) == Total(front) {
        var i :| 0 <= i < |front| && front[i].total == Total(front);
        assert pages[i].total == Total(pages);
      } else {
        assert pages[|pages| - 1].total == Total(pages);
      }
    }
  }
}
