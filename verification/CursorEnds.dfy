/** Which pages of a collection are read under cursors, and why reading stops. */
module CursorEnds {
  import opened Options
  import opened RecordTally
  import opened PageTally
  import opened CursorCollection

  /** The response holds this page: objects only, no more of them than fit the page or the collection, none only in an
      empty collection, and a cursor exactly when there is a next page. */
  ghost predicate Shows<R>(r: Response<R>, page: CursorPage<R>) {
    && |r.records| == |page.rows| && (forall i :: 0 <= i < |page.rows| ==> r.records[i] == Some(page.rows[i]))
    && r.totalRecords == Some(page.total) && |page.rows| <= page.total
    && r.pageSize.Some? && 1 <= r.pageSize.value <= 100 && |page.rows| <= r.pageSize.value
    && (page.rows == [] ==> page.total == 0 && page.mark.None?)
    && (match page.mark
        case Some(cursor) => r.hasNextPage == Some(true) && r.next == Usable(cursor)
        case None => r.hasNextPage == Some(false) && r.next == Absent)
  }

  lemma PageIsShown<R>(reply: Reply<R>, page: CursorPage<R>)
    ensures ParsePage(reply) == Some(page) <==> reply.Body? && Shows(reply.response, page)
  {
    if reply.Body? && AllPresent(reply.response.records) {
      var values := Values(reply.response.records);
      assert forall i :: 0 <= i < |values| ==> values[i] == reply.response.records[i].value;
      if Shows(reply.response, page) {
        assert page.rows == values;
      }
    }
  }

  // ---------- why reading stops ----------

  ghost predicate CursorSeen<R>(before: seq<CursorPage<R>>, cursor: Option<string>) {
    exists i :: 0 <= i < |before| && before[i].mark == cursor
  }

  /** These pages end like this: with a page that has no next one, at the page limit, with a cursor that was followed
      before, or with a request that is not answered by a page. */
  ghost predicate Ends<R>(service: Service<R>, byNumber: bool, maxPages: nat, pages: seq<CursorPage<R>>, stop: Stop) {
    var last := |pages| - 1;
    match stop
    case Done => pages != [] && pages[last].mark.None?
    case AtLimit => |pages| == maxPages && (pages != [] ==> LeadsOn(byNumber, pages[..last], pages[last]))
    case Refused(reason) =>
      || (pages != [] && pages[last].mark.Some? && !byNumber && CursorSeen(pages[..last], pages[last].mark) && reason == CursorInvalid)
      || (|pages| < maxPages && (pages != [] ==> LeadsOn(byNumber, pages[..last], pages[last]))
          && var reply := service(|pages| + 1, if byNumber || pages == [] then None else pages[last].mark);
             ParsePage(reply).None? && reason == SubsequentPage(if reply.Failed? then reply.code else "invalid_response_shape"))
  }

  /** The pages answer one request after the other, each next one is asked for under a new cursor, and they end. */
  ghost predicate IsRead<R>(service: Service<R>, byNumber: bool, maxPages: nat, pages: seq<CursorPage<R>>, stop: Stop) {
    && Answered(service, byNumber, pages)
    && |pages| <= maxPages
    && (forall i :: 0 <= i < |pages| - 1 ==> LeadsOn(byNumber, pages[..i], pages[i]))
    && Ends(service, byNumber, maxPages, pages, stop)
  }

  /** The page after the first k, and whether it is the last. */
  lemma NextPage<R>(service: Service<R>, byNumber: bool, maxPages: nat, pages: seq<CursorPage<R>>, stop: Stop, k: nat)
    requires IsRead(service, byNumber, maxPages, pages, stop) && k < |pages|
    ensures ParsePage(service(|pages[..k]| + 1, CursorAfter(byNumber, pages[..k]))) == Some(pages[k])
    ensures pages[..k] + [pages[k]] == pages[..k + 1] && |pages[..k]| < maxPages
    ensures k + 1 < |pages| ==> LeadsOn(byNumber, pages[..k], pages[k])
    ensures k + 1 == |pages| && !LeadsOn(byNumber, pages[..k], pages[k]) ==>
              pages[..k + 1] == pages && stop == if pages[k].mark.None? then Done else Refused(CursorInvalid)
  {
    hide ParsePage, CursorAfter;
    assert IsAnswer(service, byNumber, pages[..k], pages[k]);
    assert |pages[..k]| == k;
    assert k + 1 == |pages| ==> pages[..k + 1] == pages && pages[..|pages| - 1] == pages[..k];
  }

  /** Where the last page leads on, either the limit is reached or the next request fails. */
  lemma ReadToEnd<R>(service: Service<R>, byNumber: bool, maxPages: nat, pages: seq<CursorPage<R>>, stop: Stop)
    requires IsRead(service, byNumber, maxPages, pages, stop)
    requires pages != [] ==> LeadsOn(byNumber, pages[..|pages| - 1], pages[|pages| - 1])
    ensures ReadFrom(service, byNumber, maxPages, pages) == (pages, stop)
  {
    ReadOn(service, byNumber, maxPages, pages);
    hide ReadFrom, ParsePage, Answered;
  }

  /** From any part of the pages on, reading comes to the same end. */
  lemma {:induction false} ReadOnTo<R>(service: Service<R>, byNumber: bool, maxPages: nat, pages: seq<CursorPage<R>>, stop: Stop, k: nat)
    requires IsRead(service, byNumber, maxPages, pages, stop) && k <= |pages|
    requires k == |pages| && pages != [] ==> LeadsOn(byNumber, pages[..k - 1], pages[k - 1])
    ensures ReadFrom(service, byNumber, maxPages, pages[..k]) == (pages, stop)
    decreases |pages| - k
  {
    hide *;
    if k < |pages| {
      var front := pages[..k];
      NextPage(service, byNumber, maxPages, pages, stop, k);
      ReadOn(service, byNumber, maxPages, front);
      LeadsToNext(byNumber, front, pages[k]);
      if LeadsOn(byNumber, front, pages[k]) {
        ReadOnTo(service, byNumber, maxPages, pages, stop, k + 1);
      }
    } else {
      assert pages[..k] == pages;
      ReadToEnd(service, byNumber, maxPages, pages, stop);
    }
  }

  lemma LeadsToNext<R>(byNumber: bool, before: seq<CursorPage<R>>, page: CursorPage<R>)
    ensures LeadsOn(byNumber, before, page) ==> page.mark.Some?
  {}

  /** Every page leads to a next one. */
  ghost predicate LeadOn<R>(byNumber: bool, pages: seq<CursorPage<R>>) {
    forall i :: 0 <= i < |pages| ==> LeadsOn(byNumber, pages[..i], pages[i])
  }

  lemma LeadOnGrows<R>(byNumber: bool, pages: seq<CursorPage<R>>, page: CursorPage<R>)
    requires LeadOn(byNumber, pages)
    ensures forall i :: 0 <= i < |pages + [page]| - 1 ==> LeadsOn(byNumber, (pages + [page])[..i], (pages + [page])[i])
    ensures LeadsOn(byNumber, pages, page) ==> LeadOn(byNumber, pages + [page])
    ensures (pages + [page])[..|pages|] == pages
  {
    hide LeadsOn;
    var more := pages + [page];
    assert more[..|pages|] == pages && more[|pages|] == page;
    forall i | 0 <= i < |pages|
      ensures LeadsOn(byNumber, more[..i], more[i])
    {
      assert more[..i] == pages[..i] && more[i] == pages[i];
    }
  }

  /** Where no next page is to be asked for, reading has ended. */
  lemma EndsHere<R>(service: Service<R>, byNumber: bool, maxPages: nat, pages: seq<CursorPage<R>>, page: CursorPage<R>, stop: Stop)
    requires LeadOn(byNumber, pages) && Answered(service, byNumber, pages + [page]) && |pages| < maxPages
    requires !LeadsOn(byNumber, pages, page) && stop == if page.mark.None? then Done else Refused(CursorInvalid)
    ensures IsRead(service, byNumber, maxPages, pages + [page], stop)
  {
    LeadOnGrows(byNumber, pages, page);
    hide Answered, LeadOn;
  }

  lemma EndsBefore<R>(service: Service<R>, byNumber: bool, maxPages: nat, pages: seq<CursorPage<R>>, stop: Stop)
    requires LeadOn(byNumber, pages) && Answered(service, byNumber, pages) && |pages| <= maxPages
    requires if |pages| == maxPages then stop == AtLimit
             else
               var reply := service(|pages| + 1, CursorAfter(byNumber, pages));
               ParsePage(reply).None? && stop == Refused(SubsequentPage(FailureCode(reply)))
    ensures IsRead(service, byNumber, maxPages, pages, stop)
  {
    hide Answered, ParsePage, LeadsOn;
  }

  lemma {:induction false} ReadingEnds<R>(service: Service<R>, byNumber: bool, maxPages: nat, pages: seq<CursorPage<R>>)
    requires Answered(service, byNumber, pages) && |pages| <= maxPages && LeadOn(byNumber, pages)
    ensures var (all, stop) := ReadFrom(service, byNumber, maxPages, pages); IsRead(service, byNumber, maxPages, all, stop)
    decreases maxPages - |pages|
  {
    hide *;
    ReadOn(service, byNumber, maxPages, pages);
    var reply := service(|pages| + 1, CursorAfter(byNumber, pages));
    if |pages| == maxPages || ParsePage(reply).None? {
      EndsBefore(service, byNumber, maxPages, pages,
                 if |pages| == maxPages then AtLimit else Refused(SubsequentPage(FailureCode(reply))));
    } else {
      var page := ParsePage(reply).value;
      AnsweredGrows(service, byNumber, pages, page);
      LeadsToNext(byNumber, pages, page);
      if LeadsOn(byNumber, pages, page) {
        LeadOnGrows(byNumber, pages, page);
        ReadingEnds(service, byNumber, maxPages, pages + [page]);
      } else {
        EndsHere(service, byNumber, maxPages, pages, page, if page.mark.None? then Done else Refused(CursorInvalid));
      }
    }
  }

  /** Reading is determined: it gives exactly the pages that are answered in turn and end, and how they end. */
  lemma ReadExactly<R>(service: Service<R>, byNumber: bool, maxPages: nat, pages: seq<CursorPage<R>>, stop: Stop)
    requires 1 <= maxPages
    ensures ReadFrom(service, byNumber, maxPages, []) == (pages, stop) <==> IsRead(service, byNumber, maxPages, pages, stop)
  {
    ReadingEnds(service, byNumber, maxPages, []);
    hide ReadFrom;
    if IsRead(service, byNumber, maxPages, pages, stop) {
      ReadOnTo(service, byNumber, maxPages, pages, stop, 0);
      assert pages[..0] == [];
    }
  }
}
