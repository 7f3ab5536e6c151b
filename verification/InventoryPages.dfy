/** Reading the document or folder inventory page by page. */
module InventoryPages {
  import opened Options
  import opened InventoryIds

  const MAX_PAGES: nat := 50

  /** The fields of a response; None where the value has the wrong type. A cursor that is absent or null is Absent. */
  datatype NextCursor = Absent | Text(text: string) | OtherValue
  datatype Response =
    Response(records: Option<seq<Record>>, hasNextPage: Option<bool>, pageSize: Option<int>, totalRecords: Option<int>, next: NextCursor)

  datatype Reply = ReadFailed | Body(response: Response)

  /** A page; its next cursor is None on the last one. */
  datatype Page = Page(records: seq<Record>, total: nat, next: Option<string>)

  function ParsePage(r: Response, blank: string -> bool): Option<Page> {
    if r.records.None? || r.hasNextPage.None? || r.pageSize.None? || r.pageSize.value < 1
       || r.totalRecords.None? || r.totalRecords.value < 0
       || |r.records.value| > r.pageSize.value || |r.records.value| > r.totalRecords.value
       || (r.hasNextPage.value && |r.records.value| == 0)
    then None
    else if r.hasNextPage.value then
      if r.next.Text? && !blank(r.next.text) then Some(Page(r.records.value, r.totalRecords.value, Some(r.next.text))) else None
    else if r.next.Absent? then Some(Page(r.records.value, r.totalRecords.value, None))
    else None
  }

  /** The inventory answers each request by its position in the read and the cursor sent. */
  type Service = (nat, Option<string>) -> Reply

  datatype Listing =
    | Failed
    | UnsupportedShape
    | InconsistentTotals
    | InvalidRecords
    | NotAdvancing
    | TotalsNotReached
    | Loaded(records: seq<Record>, total: nat, complete: bool, limitReached: bool)

  function All(pages: seq<Page>): seq<Record> {
    if pages == [] then [] else All(pages[..|pages| - 1]) + pages[|pages| - 1].records
  }

  /** Every page claims the total of the first. */
  predicate Stable(pages: seq<Page>) {
    forall i :: 0 <= i < |pages| ==> pages[i].total == pages[0].total
  }

  /** Every page claims what is left of the first page's total. */
  predicate Remaining(pages: seq<Page>) {
    forall i :: 0 <= i < |pages| ==> pages[i].total == pages[0].total - |All(pages[..i])|
  }

  // ---------- what the loop knows ----------

  function CursorFor(initial: Option<string>, before: seq<Page>): Option<string> {
    if before == [] then initial else before[|before| - 1].next
  }

  predicate IsAnswer(service: Service, blank: string -> bool, initial: Option<string>, before: seq<Page>, page: Page) {
    var reply := service(|before|, CursorFor(initial, before));
    reply.Body? && ParsePage(reply.response, blank) == Some(page)
  }

  /** Each page answers the request with the cursor of the page before it. */
  predicate Answered(service: Service, blank: string -> bool, initial: Option<string>, pages: seq<Page>) {
    forall i :: 0 <= i < |pages| ==> IsAnswer(service, blank, initial, pages[..i], pages[i])
  }

  /** The cursors sent with the requests for these pages. */
  function Sent(initial: Option<string>, pages: seq<Page>): seq<Option<string>> {
    seq(|pages|, i requires 0 <= i < |pages| => CursorFor(initial, pages[..i]))
  }

  /** No cursor is sent twice, and only the first request goes without one. */
  predicate Advances(initial: Option<string>, pages: seq<Page>) {
    && (forall i :: 0 < i < |pages| ==> Sent(initial, pages)[i].Some?)
    && (forall i, j :: 0 <= i < j < |pages| ==> Sent(initial, pages)[i] != Sent(initial, pages)[j])
  }

  lemma {:induction false} CollectInTurn(nested: bool, seen: set<string>, a: seq<Record>, b: seq<Record>)
    ensures Collect(nested, seen, a + b)
            == var first := Collect(nested, seen, a); if first.None? then None else Collect(nested, first.value, b)
    decreases |a|
  {
    if a == [] {
      assert a + b == b;
    } else {
      assert (a + b)[0] == a[0] && (a + b)[1..] == a[1..] + b;
      var r := a[0];
      if r.Record? && r.id != "" && r.id !in seen && r.wellShaped && CollectBelow(nested, seen + {r.id}, r).Some? {
        CollectInTurn(nested, CollectBelow(nested, seen + {r.id}, r).value, a[1..], b);
      }
    }
  }

  /** The modes by which later totals are told. */
  datatype Mode = Undecided | StableTotal | RemainingTotal

  predicate Told(mode: Mode, pages: seq<Page>) {
    match mode
    case Undecided => |pages| <= 1
    case StableTotal => |pages| > 1 && Stable(pages)
    case RemainingTotal => |pages| > 1 && Remaining(pages)
  }

  /** The mode after one more page, or None when its total fits no mode or not the one decided. */
  function NextMode(mode: Mode, first: nat, before: nat, total: nat): Option<Mode> {
    match mode
    case Undecided => if total == first then Some(StableTotal) else if total == first - before then Some(RemainingTotal) else None
    case StableTotal => if total == first then Some(mode) else None
    case RemainingTotal => if total == first - before then Some(mode) else None
  }

  lemma AllGrows(pages: seq<Page>, page: Page)
    ensures All(pages + [page]) == All(pages) + page.records
  {}

  lemma TotalsGrow(mode: Mode, pages: seq<Page>, page: Page)
    requires pages != [] && Told(mode, pages)
    requires NextMode(mode, pages[0].total, |All(pages)|, page.total).Some?
    ensures Told(NextMode(mode, pages[0].total, |All(pages)|, page.total).value, pages + [page])
  {
    var all := pages + [page];
    assert all[|pages|] == page && all[..|pages|] == pages;
    forall i | 0 <= i < |pages|
      ensures all[i] == pages[i] && all[..i] == pages[..i]
    {}
    if |pages| == 1 {
      assert pages[..0] == [];
    }
  }

  /** The two modes exclude each other as soon as there is a second page. */
  lemma ModesExclude(pages: seq<Page>)
    requires |pages| > 1 && pages[0].records != []
    ensures !(Stable(pages) && Remaining(pages))
  {
    assert pages[..1][..0] == [];
    assert All(pages[..1]) == pages[0].records;
  }

  lemma AnsweredGrows(service: Service, blank: string -> bool, initial: Option<string>, pages: seq<Page>, page: Page)
    requires Answered(service, blank, initial, pages) && IsAnswer(service, blank, initial, pages, page)
    ensures Answered(service, blank, initial, pages + [page])
    ensures Sent(initial, pages + [page]) == Sent(initial, pages) + [CursorFor(initial, pages)]
  {
    hide IsAnswer, CursorFor;
    var all := pages + [page];
    forall i | 0 <= i < |all|
      ensures IsAnswer(service, blank, initial, all[..i], all[i]) && all[..i] == pages[..i]
    {
      assert all[..i] == pages[..i];
      if i == |pages| {
        assert all[..i] == pages;
      }
    }
    assert pages[..|pages|] == pages;
  }

  lemma AdvancesGrows(initial: Option<string>, pages: seq<Page>, page: Page)
    requires Advances(initial, pages)
    requires Sent(initial, pages + [page]) == Sent(initial, pages) + [CursorFor(initial, pages)]
    requires pages != [] ==> CursorFor(initial, pages).Some? && CursorFor(initial, pages) !in Sent(initial, pages)
    ensures Advances(initial, pages + [page])
  {}

  /** Why the read ends: at the last page, after the one page asked for, at the page limit, or refused with a listing. */
  datatype Stop = AtEnd | OnePage | AtLimit | Refused(listing: Listing)

  function ModeAfter(mode: Mode, pages: seq<Page>, page: Page): Option<Mode> {
    if pages == [] then Some(mode) else NextMode(mode, pages[0].total, |All(pages)|, page.total)
  }

  /** The pages that are read after these, and why the read ends. */
  function ReadFrom(nested: bool, service: Service, blank: string -> bool, initial: Option<string>, allPages: bool,
                    pages: seq<Page>, mode: Mode): (seq<Page>, Stop)
    decreases MAX_PAGES - |pages|
  {
    if |pages| >= MAX_PAGES then (pages, AtLimit)
    else
      var reply := service(|pages|, CursorFor(initial, pages));
      if reply.ReadFailed? then (pages, Refused(Failed))
      else
        var page := ParsePage(reply.response, blank);
        if page.None? then (pages, Refused(UnsupportedShape))
        else if ModeAfter(mode, pages, page.value).None? then (pages, Refused(InconsistentTotals))
        else if Collect(nested, {}, All(pages + [page.value])).None? then (pages, Refused(InvalidRecords))
        else
          var more := pages + [page.value];
          if page.value.next.None? then (more, AtEnd)
          else if !allPages then (more, OnePage)
          else if page.value.next in Sent(initial, more) then (more, Refused(NotAdvancing))
          else ReadFrom(nested, service, blank, initial, allPages, more, ModeAfter(mode, pages, page.value).value)
  }

  /** What the read makes of the pages it ended with. */
  function Result(initial: Option<string>, pages: seq<Page>, stop: Stop): Listing {
    if stop.Refused? then stop.listing
    else if pages == [] then Failed
    else
      var complete := stop.AtEnd? && initial.None? && |All(pages)| == pages[0].total;
      if stop.AtEnd? && initial.None? && !complete then TotalsNotReached
      else Loaded(All(pages), pages[0].total, complete, stop.AtLimit?)
  }

  /** What a loaded listing says of the pages read: identities are distinct at every level, totals follow one of the
      modes and never both, and it is complete just when the read began at the beginning and reached the end. */
  predicate Reports(nested: bool, initial: Option<string>, allPages: bool, pages: seq<Page>, r: Listing)
    requires r.Loaded?
  {
    && pages != [] && r.records == All(pages) && r.total == pages[0].total
    && WellFormed(nested, r.records) && Distinct(Ids(nested, r.records))
    && (Stable(pages) || Remaining(pages)) && (|pages| > 1 ==> !(Stable(pages) && Remaining(pages)))
    && (r.complete <==> initial.None? && pages[|pages| - 1].next.None?)
    && (r.complete ==> |r.records| == r.total)
    && (r.limitReached <==> allPages && |pages| == 50 && pages[|pages| - 1].next.Some?)
  }

  method ReadInventory(nested: bool, service: Service, blank: string -> bool, initial: Option<string>, allPages: bool) returns (r: Listing)
    ensures var (pages, stop) := ReadFrom(nested, service, blank, initial, allPages, [], Undecided);
            && r == Result(initial, pages, stop)
            && Answered(service, blank, initial, pages) && Advances(initial, pages) && |pages| <= MAX_PAGES
            && (r.Loaded? ==> Reports(nested, initial, allPages, pages, r))
  {
    hide *;
    ghost var pages, stop;
    r, pages, stop := ReadPages(nested, service, blank, initial, allPages);
  }

  // ---------- the loop ----------

  ghost predicate InStep(nested: bool, service: Service, blank: string -> bool, initial: Option<string>, pages: seq<Page>,
                         seen: set<string>, mode: Mode)
  {
    && Answered(service, blank, initial, pages) && Advances(initial, pages)
    && Collect(nested, {}, All(pages)) == Some(seen)
    && Told(mode, pages)
  }

  lemma PageFollows(nested: bool, service: Service, blank: string -> bool, initial: Option<string>, pages: seq<Page>,
                    seen: set<string>, mode: Mode, page: Page)
    requires InStep(nested, service, blank, initial, pages, seen, mode) && IsAnswer(service, blank, initial, pages, page)
    requires pages != [] ==> NextMode(mode, pages[0].total, |All(pages)|, page.total).Some?
    requires pages != [] ==> CursorFor(initial, pages).Some? && CursorFor(initial, pages) !in Sent(initial, pages)
    requires Collect(nested, seen, page.records).Some?
    ensures InStep(nested, service, blank, initial, pages + [page], Collect(nested, seen, page.records).value,
                   if pages == [] then mode else NextMode(mode, pages[0].total, |All(pages)|, page.total).value)
    ensures Sent(initial, pages + [page]) == Sent(initial, pages) + [CursorFor(initial, pages)]
    ensures All(pages + [page]) == All(pages) + page.records
  {
    AnsweredGrows(service, blank, initial, pages, page);
    AdvancesGrows(initial, pages, page);
    AllGrows(pages, page);
    CollectInTurn(nested, {}, All(pages), page.records);
    if pages != [] {
      TotalsGrow(mode, pages, page);
    } else {
      assert All([]) == [];
    }
  }

  method ReadPages(nested: bool, service: Service, blank: string -> bool, initial: Option<string>, allPages: bool)
    returns (r: Listing, ghost pages: seq<Page>, ghost stop: Stop)
    ensures (pages, stop) == ReadFrom(nested, service, blank, initial, allPages, [], Undecided)
    ensures r == Result(initial, pages, stop)
    ensures Answered(service, blank, initial, pages) && Advances(initial, pages) && |pages| <= MAX_PAGES
    ensures r.Loaded? ==> Reports(nested, initial, allPages, pages, r)
  {
    hide Answered, Advances, Sent, CursorFor, IsAnswer, Collect, Told, ParsePage, All, NextMode, Stable, Remaining, WellFormed, Distinct, Ids, ReadFrom,
         Reports;
    var collector := new IdCollector();
    var all: seq<Record>, first: nat, mode, cursor := [], 0, Undecided, initial;
    var seenCursors: set<string> := if initial.Some? then {initial.value} else {};
    var limitReached, pagesFetched, atEnd := false, 0, false;
    pages := [];
    NothingRead(nested, service, blank, initial);
    while pagesFetched < MAX_PAGES
      invariant 0 <= pagesFetched == |pages| <= MAX_PAGES - 1
      invariant InStep(nested, service, blank, initial, pages, collector.seen, mode)
      invariant all == All(pages) && (pages != [] ==> first == pages[0].total && pages[0].records != [])
      invariant cursor == CursorFor(initial, pages)
      invariant pages != [] ==> cursor.Some? && cursor !in Sent(initial, pages)
      invariant forall c :: c in seenCursors <==> Some(c) in Sent(initial, pages) || cursor == Some(c)
      invariant !limitReached && (pages != [] ==> allPages)
      invariant ReadFrom(nested, service, blank, initial, allPages, pages, mode)
                == ReadFrom(nested, service, blank, initial, allPages, [], Undecided)
    {
      ReadOn(nested, service, blank, initial, allPages, pages, mode);
      var reply := service(pagesFetched, cursor);
      if reply.ReadFailed? {
        return Failed, pages, Refused(Failed);
      }
      var parsed := ParsePage(reply.response, blank);
      if parsed.None? {
        return UnsupportedShape, pages, Refused(UnsupportedShape);
      }
      var page := parsed.value;
      PageAnswers(service, blank, initial, pages, page);
      var next := if pagesFetched == 0 then Some(mode) else NextMode(mode, first, |all|, page.total);
      if next.None? {
        return InconsistentTotals, pages, Refused(InconsistentTotals);
      }
      ghost var seen := collector.seen;
      CollectsMore(nested, pages, seen, page);
      var ok := collector.CollectIds(nested, page.records);
      if !ok {
        return InvalidRecords, pages, Refused(InvalidRecords);
      }
      PageFollows(nested, service, blank, initial, pages, seen, mode, page);
      mode := next.value;
      first := if pagesFetched == 0 then page.total else first;
      all := all + page.records;
      pages := pages + [page];
      pagesFetched := pagesFetched + 1;
      stop := OnePage;
      if page.next.None? || !allPages {
        atEnd := page.next.None?;
        stop := if atEnd then AtEnd else OnePage;
        break;
      }
      if page.next.value in seenCursors {
        return NotAdvancing, pages, Refused(NotAdvancing);
      }
      NextCursorFor(initial, pages);
      if pagesFetched >= MAX_PAGES {
        ReadOn(nested, service, blank, initial, allPages, pages, mode);
        limitReached, stop := true, AtLimit;
        break;
      }
      seenCursors := seenCursors + {page.next.value};
      cursor := page.next;
    }
    var complete := initial.None? && atEnd && !limitReached && |all| == first;
    if initial.None? && atEnd && !limitReached && !complete {
      return TotalsNotReached, pages, stop;
    }
    r := Loaded(all, first, complete, limitReached);
    ReportsWhenLoaded(nested, service, blank, initial, allPages, pages, collector.seen, mode, stop, r);
  }

  /** A listing loaded from pages that were read to this stop. */
  lemma ReportsWhenLoaded(nested: bool, service: Service, blank: string -> bool, initial: Option<string>, allPages: bool, pages: seq<Page>,
                          seen: set<string>, mode: Mode, stop: Stop, r: Listing)
    requires InStep(nested, service, blank, initial, pages, seen, mode)
    requires r.Loaded? && r == Result(initial, pages, stop) && pages != [] && (|pages| > 1 ==> pages[0].records != [])
    requires !stop.Refused? && (stop.AtEnd? <==> pages[|pages| - 1].next.None?)
    requires stop.AtLimit? <==> allPages && |pages| == MAX_PAGES && pages[|pages| - 1].next.Some?
    ensures Reports(nested, initial, allPages, pages, r)
  {
    hide All, WellFormed, Distinct, Ids, Stable, Remaining, InStep;
    Known(nested, service, blank, initial, pages, seen, mode);
  }

  lemma CollectsMore(nested: bool, pages: seq<Page>, seen: set<string>, page: Page)
    requires Collect(nested, {}, All(pages)) == Some(seen)
    ensures Collect(nested, {}, All(pages + [page])) == Collect(nested, seen, page.records)
  {
    AllGrows(pages, page);
    CollectInTurn(nested, {}, All(pages), page.records);
  }

  lemma ReadOn(nested: bool, service: Service, blank: string -> bool, initial: Option<string>, allPages: bool, pages: seq<Page>, mode: Mode)
    ensures var rest, reply := ReadFrom(nested, service, blank, initial, allPages, pages, mode), service(|pages|, CursorFor(initial, pages));
            if |pages| >= MAX_PAGES then rest == (pages, AtLimit)
            else if reply.ReadFailed? then rest == (pages, Refused(Failed))
            else
              var page := ParsePage(reply.response, blank);
              if page.None? then rest == (pages, Refused(UnsupportedShape))
              else
                var more, next := pages + [page.value], ModeAfter(mode, pages, page.value);
                if next.None? then rest == (pages, Refused(InconsistentTotals))
                else if Collect(nested, {}, All(more)).None? then rest == (pages, Refused(InvalidRecords))
                else if page.value.next.None? then rest == (more, AtEnd)
                else if !allPages then rest == (more, OnePage)
                else if page.value.next in Sent(initial, more) then rest == (more, Refused(NotAdvancing))
                else rest == ReadFrom(nested, service, blank, initial, allPages, more, next.value)
  {}

  lemma PageAnswers(service: Service, blank: string -> bool, initial: Option<string>, pages: seq<Page>, page: Page)
    requires var reply := service(|pages|, CursorFor(initial, pages)); reply.Body? && ParsePage(reply.response, blank) == Some(page)
    ensures IsAnswer(service, blank, initial, pages, page)
    ensures page.next.Some? ==> page.records != []
  {}

  lemma NextCursorFor(initial: Option<string>, pages: seq<Page>)
    requires pages != []
    ensures CursorFor(initial, pages) == pages[|pages| - 1].next
  {}

  lemma Known(nested: bool, service: Service, blank: string -> bool, initial: Option<string>, pages: seq<Page>, seen: set<string>, mode: Mode)
    requires InStep(nested, service, blank, initial, pages, seen, mode)
    ensures Answered(service, blank, initial, pages) && Advances(initial, pages)
    ensures WellFormed(nested, All(pages)) && Distinct(Ids(nested, All(pages)))
    ensures pages != [] ==> Stable(pages) || Remaining(pages)
    ensures |pages| > 1 && pages[0].records != [] ==> !(Stable(pages) && Remaining(pages))
  {
    CollectsExactlyDistinctIds(nested, {}, All(pages));
    if |pages| == 1 {
      assert pages[..0] == [];
    } else if |pages| > 1 && pages[0].records != [] {
      ModesExclude(pages);
    }
  }

  lemma NothingRead(nested: bool, service: Service, blank: string -> bool, initial: Option<string>)
    ensures InStep(nested, service, blank, initial, [], {}, Undecided)
    ensures Sent(initial, []) == [] && CursorFor(initial, []) == initial && All([]) == []
  {}
}
