/** Which pages of a SCIM list are read, and why reading stops. */
module ScimEnds {
  import opened Options
  import opened RecordTally
  import opened PageTally
  import opened ScimCollection

  /** The response holds this page: objects only, as many as it says, inside the list, and none only when the list is
      empty. */
  ghost predicate Shows<R>(list: ListResponse<R>, page: ListPage<R>) {
    && |list.resources| == |page.rows| && (forall i :: 0 <= i < |page.rows| ==> list.resources[i] == Some(page.rows[i]))
    && list.itemsPerPage == Some(|page.rows|) && |page.rows| <= 100
    && list.totalResults == Some(page.total)
    && list.startIndex == Some(page.mark) && page.mark >= 1
    && (if page.rows == [] then page.total == 0 && page.mark == 1 else page.mark - 1 + |page.rows| <= page.total)
  }

  lemma PageIsShown<R>(reply: Reply<R>, page: ListPage<R>)
    ensures ParsePage(reply) == Some(page) <==> reply.Body? && Shows(reply.list, page)
  {
    if reply.Body? && AllPresent(reply.list.resources) {
      var values := Values(reply.list.resources);
      assert forall i :: 0 <= i < |values| ==> values[i] == reply.list.resources[i].value;
      if Shows(reply.list, page) {
        assert page.rows == values;
      }
    }
  }

  // ---------- why reading stops ----------

  /** As many rows count as the last page claims there are. */
  ghost predicate Reached<T, R>(how: Reading<T, R>, initial: T, pages: seq<ListPage<R>>) {
    pages != [] && |Accepted(how, initial, Rows(pages))| >= pages[|pages| - 1].total
  }

  /** These pages end like this: when enough rows count, at the page limit, or with a request that is not answered by the
      page at the position asked for. */
  ghost predicate Ends<T, R>(how: Reading<T, R>, initial: T, service: Service<R>, maxPages: nat, pages: seq<ListPage<R>>, stop: Stop) {
    match stop
    case Done => Reached(how, initial, pages)
    case AtLimit => !Reached(how, initial, pages) && |pages| == maxPages
    case Refused(reason) =>
      && !Reached(how, initial, pages) && |pages| < maxPages
      && var reply := service(|pages| + 1, 1 + |Rows(pages)|);
         match ParsePage(reply)
         case None => reason == SubsequentPage(if reply.Failed? then reply.code else "invalid_response_shape")
         case Some(page) => page.mark != 1 + |Rows(pages)| && reason == StartMismatch
  }

  /** The pages answer one request after the other, start where those before them end, and end as soon as they may. */
  ghost predicate IsRead<T, R>(how: Reading<T, R>, initial: T, service: Service<R>, maxPages: nat, pages: seq<ListPage<R>>, stop: Stop) {
    && Answered(service, pages)
    && |pages| <= maxPages
    && (forall i :: 0 <= i < |pages| ==> !Reached(how, initial, pages[..i]))
    && Ends(how, initial, service, maxPages, pages, stop)
  }

  lemma ReachedExactly<T, R>(how: Reading<T, R>, initial: T, pages: seq<ListPage<R>>)
    ensures Reached(how, initial, pages) <==> pages != [] && Counted(how, initial, pages).included >= pages[|pages| - 1].total
  {
    SummaryIsSumOfAccepted(how, initial, Rows(pages));
  }

  /** The page after the first k, and whether it is the last. */
  lemma NextPage<T, R>(how: Reading<T, R>, initial: T, service: Service<R>, maxPages: nat, pages: seq<ListPage<R>>, stop: Stop, k: nat)
    requires IsRead(how, initial, service, maxPages, pages, stop) && k < |pages|
    ensures ParsePage(service(|pages[..k]| + 1, 1 + |Rows(pages[..k])|)) == Some(pages[k]) && pages[k].mark == 1 + |Rows(pages[..k])|
    ensures pages[..k] + [pages[k]] == pages[..k + 1] && |pages[..k]| < maxPages
    ensures Reached(how, initial, pages[..k + 1]) <==> k + 1 == |pages| && stop == Done
  {
    hide ParsePage, Reached, Rows;
    assert IsAnswer(service, pages[..k], pages[k]);
    assert |pages[..k]| == k;
    if k + 1 == |pages| {
      assert pages[..k + 1] == pages;
    }
  }

  lemma ReadToEnd<T, R>(how: Reading<T, R>, initial: T, service: Service<R>, maxPages: nat, pages: seq<ListPage<R>>, stop: Stop)
    requires IsRead(how, initial, service, maxPages, pages, stop) && !Reached(how, initial, pages)
    ensures ReadFrom(how, initial, service, maxPages, pages) == (pages, stop)
  {
    ReadOn(how, initial, service, maxPages, pages);
    hide ReadFrom, ParsePage, Reached, Counted, Rows, Answered;
  }

  /** From any part of the pages on, reading comes to the same end. */
  lemma {:induction false} ReadOnTo<T, R>(how: Reading<T, R>, initial: T, service: Service<R>, maxPages: nat, pages: seq<ListPage<R>>, stop: Stop, k: nat)
    requires IsRead(how, initial, service, maxPages, pages, stop) && k <= |pages|
    requires !Reached(how, initial, pages[..k])
    ensures ReadFrom(how, initial, service, maxPages, pages[..k]) == (pages, stop)
    decreases |pages| - k
  {
    hide *;
    if k < |pages| {
      var front, more := pages[..k], pages[..k + 1];
      NextPage(how, initial, service, maxPages, pages, stop, k);
      ReachedExactly(how, initial, more);
      ReadOn(how, initial, service, maxPages, front);
      assert more[|more| - 1] == pages[k] && (k + 1 == |pages| ==> more == pages);
      if !Reached(how, initial, more) {
        ReadOnTo(how, initial, service, maxPages, pages, stop, k + 1);
      }
    } else {
      assert pages[..k] == pages;
      ReadToEnd(how, initial, service, maxPages, pages, stop);
    }
  }

  lemma {:induction false} ReadingEnds<T, R>(how: Reading<T, R>, initial: T, service: Service<R>, maxPages: nat, pages: seq<ListPage<R>>)
    requires Answered(service, pages) && |pages| <= maxPages
    requires forall i :: 0 <= i <= |pages| ==> !Reached(how, initial, pages[..i])
    ensures var (all, stop) := ReadFrom(how, initial, service, maxPages, pages); IsRead(how, initial, service, maxPages, all, stop)
    decreases maxPages - |pages|
  {
    ReadOn(how, initial, service, maxPages, pages);
    hide ReadFrom, ParsePage, Reached, Counted, Rows;
    assert pages[..|pages|] == pages;
    if |pages| < maxPages {
      var page := ParsePage(service(|pages| + 1, 1 + |Rows(pages)|));
      if page.Some? && page.value.mark == 1 + |Rows(pages)| {
        var more := pages + [page.value];
        AnsweredGrows(service, pages, page.value);
        assert more[..|more|] == more;
        forall i | 0 <= i <= |pages|
          ensures more[..i] == pages[..i]
        {}
        ReachedExactly(how, initial, more);
        if !Reached(how, initial, more) {
          ReadingEnds(how, initial, service, maxPages, more);
        }
      }
    }
  }

  /** Reading is determined: it gives exactly the pages that are answered in turn and end, and how they end. */
  lemma ReadExactly<T, R>(how: Reading<T, R>, initial: T, service: Service<R>, maxPages: nat, pages: seq<ListPage<R>>, stop: Stop)
    ensures ReadFrom(how, initial, service, maxPages, []) == (pages, stop) <==> IsRead(how, initial, service, maxPages, pages, stop)
  {
    ReadingEnds(how, initial, service, maxPages, []);
    hide ReadFrom;
    if IsRead(how, initial, service, maxPages, pages, stop) {
      assert pages[..0] == [];
      ReadOnTo(how, initial, service, maxPages, pages, stop, 0);
    }
  }
}
