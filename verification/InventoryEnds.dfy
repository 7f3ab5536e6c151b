/** Which pages of an inventory are read, and what the read comes to. */
module InventoryEnds {
  import opened Options
  import opened InventoryIds
  import opened InventoryPages

  /** The response holds this page: no more records than fit the page or the inventory, and a next page only under a
      cursor that is not blank and after some records. */
  predicate Shows(r: Response, blank: string -> bool, page: Page) {
    && r.records == Some(page.records) && r.totalRecords == Some(page.total)
    && r.pageSize.Some? && r.pageSize.value >= 1
    && |page.records| <= r.pageSize.value && |page.records| <= page.total
    && (match page.next
        case Some(cursor) => page.records != [] && r.hasNextPage == Some(true) && r.next == NextCursor.Text(cursor) && !blank(cursor)
        case None => r.hasNextPage == Some(false) && r.next == Absent)
  }

  lemma PageIsShown(r: Response, blank: string -> bool, page: Page)
    ensures ParsePage(r, blank) == Some(page) <==> Shows(r, blank, page)
  {}

  // ---------- why the read ends ----------

  /** The totals of these pages fit one of the modes. */
  predicate TotalsFit(pages: seq<Page>) {
    Stable(pages) || Remaining(pages)
  }

  predicate RecordsFit(nested: bool, pages: seq<Page>) {
    WellFormed(nested, All(pages)) && Distinct(Ids(nested, All(pages)))
  }

  /** A next page may be asked for, under a cursor that was not sent before. */
  predicate LeadsOn(initial: Option<string>, allPages: bool, pages: seq<Page>) {
    pages == [] || (allPages && pages[|pages| - 1].next.Some? && pages[|pages| - 1].next !in Sent(initial, pages))
  }

  /** The request after these pages is not answered by a page that fits them. */
  predicate Refuses(nested: bool, service: Service, blank: string -> bool, initial: Option<string>, pages: seq<Page>, why: Listing) {
    var reply := service(|pages|, if pages == [] then initial else pages[|pages| - 1].next);
    if reply.ReadFailed? then why == Failed
    else
      match ParsePage(reply.response, blank)
      case None => why == UnsupportedShape
      case Some(page) =>
        if !TotalsFit(pages + [page]) then why == InconsistentTotals
        else !RecordsFit(nested, pages + [page]) && why == InvalidRecords
  }

  /** These pages end like this. */
  predicate Ends(nested: bool, service: Service, blank: string -> bool, initial: Option<string>, allPages: bool, pages: seq<Page>, stop: Stop) {
    var last := |pages| - 1;
    match stop
    case AtEnd => pages != [] && pages[last].next.None?
    case OnePage => |pages| == 1 && pages[0].next.Some? && !allPages
    case AtLimit => |pages| == 50 && LeadsOn(initial, allPages, pages)
    case Refused(why) =>
      || (pages != [] && allPages && pages[last].next.Some? && pages[last].next in Sent(initial, pages) && why == NotAdvancing)
      || (|pages| < 50 && LeadsOn(initial, allPages, pages) && Refuses(nested, service, blank, initial, pages, why))
  }

  /** The pages answer one request after the other and fit together, each next one is asked for, and they end. */
  predicate IsRead(nested: bool, service: Service, blank: string -> bool, initial: Option<string>, allPages: bool, pages: seq<Page>, stop: Stop) {
    && Fits(nested, service, blank, initial, pages)
    && Led(initial, allPages, pages)
    && Ends(nested, service, blank, initial, allPages, pages, stop)
  }

  /** Every page was to be asked for after those before it. */
  predicate Led(initial: Option<string>, allPages: bool, pages: seq<Page>) {
    forall i :: 0 <= i < |pages| ==> LeadsOn(initial, allPages, pages[..i])
  }

  predicate Fits(nested: bool, service: Service, blank: string -> bool, initial: Option<string>, pages: seq<Page>) {
    Answered(service, blank, initial, pages) && |pages| <= 50 && TotalsFit(pages) && RecordsFit(nested, pages)
  }

  // ---------- the read is determined ----------

  /** What holds while the read goes on; the mode is that of the pages read. */
  predicate GoesOn(nested: bool, service: Service, blank: string -> bool, initial: Option<string>, allPages: bool, pages: seq<Page>, mode: Mode) {
    && Fits(nested, service, blank, initial, pages)
    && Led(initial, allPages, pages) && LeadsOn(initial, allPages, pages)
    && Told(mode, pages) && (pages != [] ==> pages[0].records != [])
  }

  /** A mode takes one page more exactly when the totals fit. */
  lemma ModeFits(mode: Mode, pages: seq<Page>, page: Page)
    requires Told(mode, pages) && (pages != [] ==> pages[0].records != [])
    ensures ModeAfter(mode, pages, page).Some? <==> TotalsFit(pages + [page])
    ensures ModeAfter(mode, pages, page).Some? ==> Told(ModeAfter(mode, pages, page).value, pages + [page])
  {
    hide All;
    var all := pages + [page];
    if pages == [] {
      assert all[..0] == [];
      assert All(all[..0]) == [] by {
        NothingInNoPages();
      }
    } else {
      StableGrows(pages, page);
      RemainingGrows(pages, page);
      if |pages| == 1 {
        OnePageFits(pages);
      } else {
        ModesExclude(pages);
      }
      hide Stable, Remaining;
      if ModeAfter(mode, pages, page).Some? {
        TotalsGrow(mode, pages, page);
      }
    }
  }

  lemma NothingInNoPages()
    ensures All([]) == []
  {}

  lemma OnePageFits(pages: seq<Page>)
    requires |pages| == 1
    ensures Stable(pages) && Remaining(pages)
  {
    assert pages[..0] == [];
  }

  lemma StableGrows(pages: seq<Page>, page: Page)
    requires pages != []
    ensures Stable(pages + [page]) <==> Stable(pages) && page.total == pages[0].total
  {
    var all := pages + [page];
    assert all[|pages|] == page;
    assert forall i :: 0 <= i < |pages| ==> all[i] == pages[i];
  }

  lemma RemainingGrows(pages: seq<Page>, page: Page)
    requires pages != []
    ensures Remaining(pages + [page]) <==> Remaining(pages) && page.total == pages[0].total - |All(pages)|
  {
    hide All;
    var all := pages + [page];
    assert all[|pages|] == page && all[..|pages|] == pages;
    assert forall i :: 0 <= i < |pages| ==> all[i] == pages[i] && all[..i] == pages[..i];
  }

  lemma RecordsFitExactly(nested: bool, pages: seq<Page>)
    ensures RecordsFit(nested, pages) <==> Collect(nested, {}, All(pages)).Some?
  {
    CollectsExactlyDistinctIds(nested, {}, All(pages));
  }

  lemma LastCursor(initial: Option<string>, pages: seq<Page>)
    ensures CursorFor(initial, pages) == if pages == [] then initial else pages[|pages| - 1].next
  {}

  lemma LedGrows(initial: Option<string>, allPages: bool, pages: seq<Page>, page: Page)
    requires Led(initial, allPages, pages) && LeadsOn(initial, allPages, pages)
    ensures Led(initial, allPages, pages + [page])
  {
    hide LeadsOn;
    var all := pages + [page];
    forall i | 0 <= i < |all|
      ensures LeadsOn(initial, allPages, all[..i])
    {
      assert all[..i] == pages[..i];
      assert i == |pages| ==> all[..i] == pages;
    }
  }

  lemma FitsGrows(nested: bool, service: Service, blank: string -> bool, initial: Option<string>, pages: seq<Page>, page: Page)
    requires Fits(nested, service, blank, initial, pages) && |pages| < 50 && IsAnswer(service, blank, initial, pages, page)
    requires TotalsFit(pages + [page]) && RecordsFit(nested, pages + [page])
    ensures Fits(nested, service, blank, initial, pages + [page])
  {
    AnsweredGrows(service, blank, initial, pages, page);
    hide Answered, TotalsFit, RecordsFit, IsAnswer;
  }

  lemma LeadsExactly(initial: Option<string>, allPages: bool, pages: seq<Page>, page: Page)
    ensures LeadsOn(initial, allPages, pages + [page])
            <==> allPages && page.next.Some? && page.next !in Sent(initial, pages + [page])
    ensures LeadsOn(initial, allPages, pages) && !allPages ==> pages == []
  {}

  lemma FirstPage(service: Service, blank: string -> bool, initial: Option<string>, pages: seq<Page>, page: Page)
    requires IsAnswer(service, blank, initial, pages, page)
    ensures page.next.Some? ==> page.records != []
  {}

  lemma FirstStays(pages: seq<Page>, page: Page)
    ensures var more := pages + [page]; more != [] && more[0] == if pages == [] then page else pages[0]
  {}

  lemma GoesOnSo(nested: bool, service: Service, blank: string -> bool, initial: Option<string>, allPages: bool, pages: seq<Page>, mode: Mode)
    requires Fits(nested, service, blank, initial, pages) && Led(initial, allPages, pages) && LeadsOn(initial, allPages, pages)
    requires Told(mode, pages) && pages != [] && pages[0].records != []
    ensures GoesOn(nested, service, blank, initial, allPages, pages, mode)
  {
    hide Fits, Led, LeadsOn, Told;
  }

  /** The read ends with this page. */
  lemma EndsHere(nested: bool, service: Service, blank: string -> bool, initial: Option<string>, allPages: bool, pages: seq<Page>, page: Page, stop: Stop)
    requires Fits(nested, service, blank, initial, pages + [page]) && Led(initial, allPages, pages + [page])
    requires LeadsOn(initial, allPages, pages)
    requires match stop
             case AtEnd => page.next.None?
             case OnePage => page.next.Some? && !allPages
             case AtLimit => false
             case Refused(why) => why == NotAdvancing && allPages && page.next.Some? && page.next in Sent(initial, pages + [page])
    ensures IsRead(nested, service, blank, initial, allPages, pages + [page], stop)
  {
    LeadsExactly(initial, allPages, pages, page);
    hide Fits, Led, LeadsOn, Sent, Refuses;
    var more := pages + [page];
    assert more[|more| - 1] == page;
  }

  /** A page that fits leads on, or ends the read. */
  lemma OneMore(nested: bool, service: Service, blank: string -> bool, initial: Option<string>, allPages: bool, pages: seq<Page>, mode: Mode, page: Page)
    requires GoesOn(nested, service, blank, initial, allPages, pages, mode) && |pages| < 50
    requires IsAnswer(service, blank, initial, pages, page)
    requires ModeAfter(mode, pages, page).Some? && RecordsFit(nested, pages + [page])
    ensures var more := pages + [page];
            if page.next.None? then IsRead(nested, service, blank, initial, allPages, more, AtEnd)
            else if !allPages then IsRead(nested, service, blank, initial, allPages, more, OnePage)
            else if page.next in Sent(initial, more) then IsRead(nested, service, blank, initial, allPages, more, Refused(NotAdvancing))
            else GoesOn(nested, service, blank, initial, allPages, more, ModeAfter(mode, pages, page).value)
  {
    ModeFits(mode, pages, page);
    FirstPage(service, blank, initial, pages, page);
    FitsGrows(nested, service, blank, initial, pages, page);
    LedGrows(initial, allPages, pages, page);
    LeadsExactly(initial, allPages, pages, page);
    GoesOnMeans(nested, service, blank, initial, allPages, pages, mode);
    hide *;
    var more := pages + [page];
    if page.next.None? {
      EndsHere(nested, service, blank, initial, allPages, pages, page, AtEnd);
    } else if !allPages {
      EndsHere(nested, service, blank, initial, allPages, pages, page, OnePage);
    } else if page.next in Sent(initial, more) {
      EndsHere(nested, service, blank, initial, allPages, pages, page, Refused(NotAdvancing));
    } else {
      FirstStays(pages, page);
      GoesOnSo(nested, service, blank, initial, allPages, more, ModeAfter(mode, pages, page).value);
    }
  }

  lemma EndsBefore(nested: bool, service: Service, blank: string -> bool, initial: Option<string>, allPages: bool, pages: seq<Page>, mode: Mode, stop: Stop)
    requires GoesOn(nested, service, blank, initial, allPages, pages, mode)
    requires if |pages| == 50 then stop == AtLimit else stop.Refused? && Refuses(nested, service, blank, initial, pages, stop.listing)
    ensures IsRead(nested, service, blank, initial, allPages, pages, stop)
  {
    FitsWithin(nested, service, blank, initial, pages);
    hide Fits, Led, LeadsOn, Told, Refuses;
  }

  lemma FitsWithin(nested: bool, service: Service, blank: string -> bool, initial: Option<string>, pages: seq<Page>)
    requires Fits(nested, service, blank, initial, pages)
    ensures |pages| <= 50
  {}

  lemma PageIsAnswer(service: Service, blank: string -> bool, initial: Option<string>, pages: seq<Page>, page: Page)
    requires var reply := service(|pages|, CursorFor(initial, pages)); reply.Body? && ParsePage(reply.response, blank) == Some(page)
    ensures IsAnswer(service, blank, initial, pages, page)
  {}

  lemma RefusesExactly(nested: bool, service: Service, blank: string -> bool, initial: Option<string>, pages: seq<Page>)
    ensures var reply := service(|pages|, CursorFor(initial, pages));
            if reply.ReadFailed? then Refuses(nested, service, blank, initial, pages, Failed)
            else
              match ParsePage(reply.response, blank)
              case None => Refuses(nested, service, blank, initial, pages, UnsupportedShape)
              case Some(page) =>
                && (!TotalsFit(pages + [page]) ==> Refuses(nested, service, blank, initial, pages, InconsistentTotals))
                && (TotalsFit(pages + [page]) && !RecordsFit(nested, pages + [page]) ==> Refuses(nested, service, blank, initial, pages, InvalidRecords))
  {
    LastCursor(initial, pages);
    hide ParsePage, CursorFor, TotalsFit, RecordsFit;
  }

  /** How the request after these pages is refused, when it is. */
  lemma RefusedFor(nested: bool, service: Service, blank: string -> bool, initial: Option<string>, pages: seq<Page>, mode: Mode)
    requires Told(mode, pages) && (pages != [] ==> pages[0].records != [])
    ensures var reply := service(|pages|, CursorFor(initial, pages));
            if reply.ReadFailed? then Refuses(nested, service, blank, initial, pages, Failed)
            else if ParsePage(reply.response, blank).None? then Refuses(nested, service, blank, initial, pages, UnsupportedShape)
            else
              var page := ParsePage(reply.response, blank).value;
              && IsAnswer(service, blank, initial, pages, page)
              && (ModeAfter(mode, pages, page).None? ==> Refuses(nested, service, blank, initial, pages, InconsistentTotals))
              && (ModeAfter(mode, pages, page).Some? && Collect(nested, {}, All(pages + [page])).None? ==>
                    Refuses(nested, service, blank, initial, pages, InvalidRecords))
              && (Collect(nested, {}, All(pages + [page])).Some? <==> RecordsFit(nested, pages + [page]))
  {
    hide *;
    RefusesExactly(nested, service, blank, initial, pages);
    var reply := service(|pages|, CursorFor(initial, pages));
    if reply.Body? && ParsePage(reply.response, blank).Some? {
      var page := ParsePage(reply.response, blank).value;
      ModeFits(mode, pages, page);
      RecordsFitExactly(nested, pages + [page]);
      PageIsAnswer(service, blank, initial, pages, page);
    }
  }

  lemma GoesOnMeans(nested: bool, service: Service, blank: string -> bool, initial: Option<string>, allPages: bool, pages: seq<Page>, mode: Mode)
    requires GoesOn(nested, service, blank, initial, allPages, pages, mode)
    ensures Fits(nested, service, blank, initial, pages) && Led(initial, allPages, pages) && LeadsOn(initial, allPages, pages)
    ensures Told(mode, pages) && (pages != [] ==> pages[0].records != []) && |pages| <= 50
  {}

  /** Whatever the service answers, the read ends as it says. */
  lemma {:induction false} ReadingEnds(nested: bool, service: Service, blank: string -> bool, initial: Option<string>, allPages: bool,
                                       pages: seq<Page>, mode: Mode)
    requires GoesOn(nested, service, blank, initial, allPages, pages, mode)
    ensures var (all, stop) := ReadFrom(nested, service, blank, initial, allPages, pages, mode);
            IsRead(nested, service, blank, initial, allPages, all, stop)
    decreases 50 - |pages|
  {
    GoesOnMeans(nested, service, blank, initial, allPages, pages, mode);
    ReadOn(nested, service, blank, initial, allPages, pages, mode);
    RefusedFor(nested, service, blank, initial, pages, mode);
    hide ReadFrom, ParsePage, CursorFor, Sent, Answered, TotalsFit, RecordsFit, Told, ModeAfter, Collect, All, IsAnswer, GoesOn, IsRead, Refuses;
    var reply := service(|pages|, CursorFor(initial, pages));
    if |pages| == 50 {
      EndsBefore(nested, service, blank, initial, allPages, pages, mode, AtLimit);
    } else if reply.ReadFailed? {
      EndsBefore(nested, service, blank, initial, allPages, pages, mode, Refused(Failed));
    } else if ParsePage(reply.response, blank).None? {
      EndsBefore(nested, service, blank, initial, allPages, pages, mode, Refused(UnsupportedShape));
    } else {
      var page := ParsePage(reply.response, blank).value;
      if ModeAfter(mode, pages, page).None? {
        EndsBefore(nested, service, blank, initial, allPages, pages, mode, Refused(InconsistentTotals));
      } else if Collect(nested, {}, All(pages + [page])).None? {
        EndsBefore(nested, service, blank, initial, allPages, pages, mode, Refused(InvalidRecords));
      } else {
        OneMore(nested, service, blank, initial, allPages, pages, mode, page);
        if allPages && page.next.Some? && page.next !in Sent(initial, pages + [page]) {
          ReadingEnds(nested, service, blank, initial, allPages, pages + [page], ModeAfter(mode, pages, page).value);
        }
      }
    }
  }

  lemma NothingYet(nested: bool, service: Service, blank: string -> bool, initial: Option<string>, allPages: bool)
    ensures GoesOn(nested, service, blank, initial, allPages, [], Undecided)
  {}

  lemma ListingSays(initial: Option<string>, pages: seq<Page>, stop: Stop)
    requires !stop.Refused? && pages != []
    ensures var r := Result(initial, pages, stop);
            && (r == TotalsNotReached <==> stop.AtEnd? && initial.None? && |All(pages)| != pages[0].total)
            && (r != TotalsNotReached ==> r.Loaded? && r.records == All(pages))
  {}

  lemma ListingRefused(initial: Option<string>, pages: seq<Page>, stop: Stop)
    ensures stop.Refused? ==> Result(initial, pages, stop) == stop.listing
  {}

  lemma EndsWithPages(nested: bool, service: Service, blank: string -> bool, initial: Option<string>, allPages: bool, pages: seq<Page>, stop: Stop)
    requires IsRead(nested, service, blank, initial, allPages, pages, stop) && !stop.Refused?
    ensures pages != []
  {}

  /** The pages that are read answer one request after the other and fit together, up to the first that ends the read. The
      listing is what refused a page or, where none was, all records, unless a read from the beginning to the end found
      more or fewer than were claimed. */
  lemma ReadIsEnded(nested: bool, service: Service, blank: string -> bool, initial: Option<string>, allPages: bool)
    ensures var (pages, stop) := ReadFrom(nested, service, blank, initial, allPages, [], Undecided);
            var r := Result(initial, pages, stop);
            && IsRead(nested, service, blank, initial, allPages, pages, stop)
            && (stop.Refused? ==> r == stop.listing)
            && (!stop.Refused? ==>
                  && pages != []
                  && (r == TotalsNotReached <==> stop.AtEnd? && initial.None? && |All(pages)| != pages[0].total)
                  && (r != TotalsNotReached ==> r.Loaded? && r.records == All(pages)))
  {
    hide *;
    NothingYet(nested, service, blank, initial, allPages);
    ReadingEnds(nested, service, blank, initial, allPages, [], Undecided);
    var (pages, stop) := ReadFrom(nested, service, blank, initial, allPages, [], Undecided);
    if !stop.Refused? {
      EndsWithPages(nested, service, blank, initial, allPages, pages, stop);
      ListingSays(initial, pages, stop);
    }
    ListingRefused(initial, pages, stop);
  }
}
