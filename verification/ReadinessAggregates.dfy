/** The aggregates of the readiness report: sums over users, groups, tokens and schedules. */
module ReadinessAggregates {
  import opened Options
  import opened RecordTally
  import opened PageTally
  import ScimCollection
  import CursorCollection
  import LatestDelivery

  function Count<R>(rows: seq<R>, holds: R -> bool): nat {
    if rows == [] then 0 else Count(rows[..|rows| - 1], holds) + if holds(rows[|rows| - 1]) then 1 else 0
  }

  // ---------- users ----------

  datatype UserRow = UserRow(id: Option<string>, active: Option<bool>)
  datatype UserAggregate = UserAggregate(total: nat, active: nat, inactive: nat, statusUnknown: nat)

  function ConsumeUser(a: UserAggregate, row: UserRow): Option<UserAggregate> {
    var b := a.(total := a.total + 1);
    match row.active
    case Some(active) => Some(if active then b.(active := b.active + 1) else b.(inactive := b.inactive + 1))
    case None => Some(b.(statusUnknown := b.statusUnknown + 1))
  }

  const NO_USERS := UserAggregate(0, 0, 0, 0)

  function Users(): Reading<UserAggregate, UserRow> {
    Reading((row: UserRow) => row.id, ConsumeUser)
  }

  predicate AllKnown(rows: seq<UserRow>) {
    forall i :: 0 <= i < |rows| ==> rows[i].active.Some?
  }

  /** Each part counts the users of its status, and the parts add up to the number of users. */
  lemma {:induction false} UsersAddUp(rows: seq<UserRow>)
    ensures var sum := Sum(Users(), NO_USERS, rows);
            && sum.Some?
            && sum.value.total == |rows|
            && sum.value.active == Count(rows, (row: UserRow) => row.active == Some(true))
            && sum.value.inactive == Count(rows, (row: UserRow) => row.active == Some(false))
            && sum.value.active + sum.value.inactive + sum.value.statusUnknown == sum.value.total
            && (sum.value.statusUnknown == 0 <==> AllKnown(rows))
  {
    if rows != [] {
      var front, last := rows[..|rows| - 1], rows[|rows| - 1];
      assert rows == front + [last];
      hide AllKnown, Sum, Count;
      UsersAddUp(front);
      KnownGrows(front, last);
      SumGrows(Users(), NO_USERS, front, last);
      CountGrows(front, last, (row: UserRow) => row.active == Some(true));
      CountGrows(front, last, (row: UserRow) => row.active == Some(false));
    }
  }

  lemma CountGrows<R>(rows: seq<R>, last: R, holds: R -> bool)
    ensures Count(rows + [last], holds) == Count(rows, holds) + if holds(last) then 1 else 0
  {
    assert (rows + [last])[..|rows|] == rows;
  }

  lemma KnownGrows(rows: seq<UserRow>, last: UserRow)
    ensures AllKnown(rows + [last]) <==> AllKnown(rows) && last.active.Some?
  {
    var all := rows + [last];
    assert all[|rows|] == last;
    assert forall i :: 0 <= i < |rows| ==> all[i] == rows[i];
  }

  datatype Readiness = NotConfigured | Ready | ActionRequired | NotKnown

  /** Users are reported ready exactly when the list was read from its first position to its last, is not empty,
      and every user has a key of its own and a known state. */
  method UserReadiness(service: ScimCollection.Service<UserRow>, maxPages: nat)
    returns (r: ScimCollection.Outcome<UserAggregate>, state: Readiness, ghost pages: seq<ScimCollection.ListPage<UserRow>>)
    requires 1 <= maxPages
    ensures r.NotRead? <==> ScimCollection.ParsePage(service(1, 1)).None?
    ensures pages == ScimCollection.ReadFrom(Users(), NO_USERS, service, maxPages, []).0
    ensures r.Collected? ==>
              && Sum(Users(), NO_USERS, Accepted(Users(), NO_USERS, Rows(pages))) == Some(r.summary)
              && r.total == Total(pages) && (r.complete <==> ScimCollection.Reconciled(Users(), NO_USERS, pages, r.total))
              && r.summary.total == r.included <= r.total
              && r.summary.active + r.summary.inactive + r.summary.statusUnknown == r.included
    ensures state == Ready <==>
            && r.Collected? && r.total > 0
            && ScimCollection.Reconciled(Users(), NO_USERS, pages, r.total)
            && AllKnown(Rows(pages))
    ensures state == NotConfigured <==> r.Collected? && r.total == 0 && ScimCollection.Reconciled(Users(), NO_USERS, pages, 0)
    ensures state != ActionRequired
  {
    ghost var stop;
    r, pages, stop := ScimCollection.CollectScim(Users(), NO_USERS, service, maxPages);
    state := NotKnown;
    if r.Collected? {
      UsersAddUp(Accepted(Users(), NO_USERS, Rows(pages)));
      if r.complete {
        UsersAddUp(Rows(pages));
        NothingExcluded(Users(), NO_USERS, Rows(pages));
        SummaryIsSumOfAccepted(Users(), NO_USERS, Rows(pages));
        state := if r.total == 0 then NotConfigured else if r.summary.statusUnknown > 0 then NotKnown else Ready;
      }
    }
  }

  // ---------- tokens ----------

  datatype TokenRow = TokenRow(id: Option<string>, kind: Option<string>, enabled: Option<bool>)
  datatype TokenSummary = TokenSummary(total: nat, organization: nat, personal: nat, mcp: nat, other: nat, enabled: nat, disabled: nat)

  /** The kind is in lower case; a token without one, or without a state, is refused. */
  function ConsumeToken(a: TokenSummary, row: TokenRow): Option<TokenSummary> {
    if row.kind.None? || row.enabled.None? then None
    else
      var b := a.(total := a.total + 1);
      var c := if row.kind.value == "organization" then b.(organization := b.organization + 1)
               else if row.kind.value == "personal" then b.(personal := b.personal + 1)
               else if row.kind.value == "mcp" then b.(mcp := b.mcp + 1)
               else b.(other := b.other + 1);
      Some(if row.enabled.value then c.(enabled := c.enabled + 1) else c.(disabled := c.disabled + 1))
  }

  const NO_TOKENS := TokenSummary(0, 0, 0, 0, 0, 0, 0)

  function Tokens(): Reading<TokenSummary, TokenRow> {
    Reading((row: TokenRow) => row.id, ConsumeToken)
  }

  /** Whenever tokens are summed, each part counts the tokens of its kind or state; the parts of each add up to the number
      of tokens. */
  lemma {:induction false} TokensAddUp(rows: seq<TokenRow>)
    requires Sum(Tokens(), NO_TOKENS, rows).Some?
    ensures var sum := Sum(Tokens(), NO_TOKENS, rows).value;
            && sum.total == |rows|
            && sum.organization + sum.personal + sum.mcp + sum.other == sum.total
            && sum.enabled + sum.disabled == sum.total
            && sum.organization == Count(rows, (row: TokenRow) => row.kind == Some("organization"))
            && sum.personal == Count(rows, (row: TokenRow) => row.kind == Some("personal"))
            && sum.mcp == Count(rows, (row: TokenRow) => row.kind == Some("mcp"))
            && sum.enabled == Count(rows, (row: TokenRow) => row.enabled == Some(true))
            && sum.disabled == Count(rows, (row: TokenRow) => row.enabled == Some(false))
  {
    if rows != [] {
      var front, last := rows[..|rows| - 1], rows[|rows| - 1];
      TokensAddUp(front);
      assert rows == front + [last];
      CountGrows(front, last, (row: TokenRow) => row.kind == Some("organization"));
      CountGrows(front, last, (row: TokenRow) => row.kind == Some("personal"));
      CountGrows(front, last, (row: TokenRow) => row.kind == Some("mcp"));
      CountGrows(front, last, (row: TokenRow) => row.enabled == Some(true));
      CountGrows(front, last, (row: TokenRow) => row.enabled == Some(false));
      assert last.kind.Some? && last.enabled.Some?;
      hide Count;
    }
  }

  method TokenReadiness(service: CursorCollection.Service<TokenRow>, maxPages: nat)
    returns (r: CursorCollection.Outcome<TokenSummary>, state: Readiness, ghost pages: seq<CursorCollection.CursorPage<TokenRow>>)
    requires 1 <= maxPages
    ensures r.NotRead? <==> CursorCollection.ParsePage(service(1, None)).None?
    ensures pages == CursorCollection.ReadFrom(service, false, maxPages, []).0
    ensures r.Collected? ==>
              && Sum(Tokens(), NO_TOKENS, Accepted(Tokens(), NO_TOKENS, Rows(pages))) == Some(r.summary)
              && r.total == Total(pages) && (r.complete <==> CursorCollection.Reconciled(Tokens(), NO_TOKENS, pages, r.total))
              && r.summary.total == r.included
              && r.summary.organization + r.summary.personal + r.summary.mcp + r.summary.other == r.included
              && r.summary.enabled + r.summary.disabled == r.included
    ensures state == Ready <==> r.Collected? && r.total > 0 && CursorCollection.Reconciled(Tokens(), NO_TOKENS, pages, r.total)
    ensures state == NotConfigured <==> r.Collected? && r.total == 0 && CursorCollection.Reconciled(Tokens(), NO_TOKENS, pages, 0)
    ensures state != ActionRequired
  {
    ghost var stop;
    r, pages, stop := CursorCollection.CollectCursor(Tokens(), NO_TOKENS, service, false, maxPages);
    state := NotKnown;
    if r.Collected? {
      TokensAddUp(Accepted(Tokens(), NO_TOKENS, Rows(pages)));
      if r.complete {
        state := if r.total == 0 then NotConfigured else Ready;
      }
    }
  }

  // ---------- schedules ----------

  datatype Delivery = Success | Error | Canceled | NoDelivery | Unknown

  /** A schedule whose times and status could be read; `latest` is the time of the last completed delivery. */
  datatype ScheduleRow = ScheduleRow(id: Option<string>, readable: bool, paused: bool, systemDisabled: bool, status: Delivery, latest: Option<int>)
  /** The latest completed delivery is kept as it is printed. */
  datatype ScheduleSummary = ScheduleSummary(total: nat, active: nat, paused: nat, systemDisabled: nat,
                                             success: nat, error: nat, canceled: nat, none: nat, unknown: nat, latest: Option<string>)

  function ConsumeSchedule(a: ScheduleSummary, row: ScheduleRow): Option<ScheduleSummary> {
    if !row.readable then None
    else
      var b := a.(total := a.total + 1,
                  paused := a.paused + if row.paused then 1 else 0,
                  systemDisabled := a.systemDisabled + if row.systemDisabled then 1 else 0,
                  active := a.active + if !row.paused && !row.systemDisabled then 1 else 0);
      var c := match row.status
        case Success => b.(success := b.success + 1)
        case Error => b.(error := b.error + 1)
        case Canceled => b.(canceled := b.canceled + 1)
        case NoDelivery => b.(none := b.none + 1)
        case Unknown => b.(unknown := b.unknown + 1);
      Some(c.(latest := LatestDelivery.Later(c.latest, row.latest)))
  }

  const NO_SCHEDULES := ScheduleSummary(0, 0, 0, 0, 0, 0, 0, 0, 0, None)

  function Schedules(): Reading<ScheduleSummary, ScheduleRow> {
    Reading((row: ScheduleRow) => row.id, ConsumeSchedule)
  }

  /** A schedule with this delivery status; one with this activity, of which a schedule may have two. */
  function Delivered(status: Delivery): ScheduleRow -> bool {
    (row: ScheduleRow) => row.status == status
  }

  function Doing(paused: bool, systemDisabled: bool): ScheduleRow -> bool {
    (row: ScheduleRow) => row.paused == paused && row.systemDisabled == systemDisabled
  }

  lemma OneSchedule(a: ScheduleSummary, row: ScheduleRow)
    requires row.readable
    ensures var b := ConsumeSchedule(a, row).value;
            && b.total == a.total + 1
            && b.success == a.success + (if Delivered(Success)(row) then 1 else 0)
            && b.error == a.error + (if Delivered(Error)(row) then 1 else 0)
            && b.canceled == a.canceled + (if Delivered(Canceled)(row) then 1 else 0)
            && b.none == a.none + (if Delivered(NoDelivery)(row) then 1 else 0)
            && b.unknown == a.unknown + (if Delivered(Unknown)(row) then 1 else 0)
            && b.active == a.active + (if Doing(false, false)(row) then 1 else 0)
            && b.paused == a.paused + (if Doing(true, false)(row) then 1 else 0) + (if Doing(true, true)(row) then 1 else 0)
            && b.systemDisabled == a.systemDisabled + (if Doing(false, true)(row) then 1 else 0) + (if Doing(true, true)(row) then 1 else 0)
  {
    hide LatestDelivery.Later;
  }

  /** Each delivery part counts the schedules of its status. */
  predicate CountsDeliveries(sum: ScheduleSummary, rows: seq<ScheduleRow>) {
    && sum.success == Count(rows, Delivered(Success))
    && sum.error == Count(rows, Delivered(Error))
    && sum.canceled == Count(rows, Delivered(Canceled))
    && sum.none == Count(rows, Delivered(NoDelivery))
    && sum.unknown == Count(rows, Delivered(Unknown))
  }

  /** A schedule that is both paused and disabled counts in both parts. */
  predicate CountsActivity(sum: ScheduleSummary, rows: seq<ScheduleRow>) {
    && sum.active == Count(rows, Doing(false, false))
    && sum.paused == Count(rows, Doing(true, false)) + Count(rows, Doing(true, true))
    && sum.systemDisabled == Count(rows, Doing(false, true)) + Count(rows, Doing(true, true))
  }

  /** The delivery parts make up all schedules, and the activity parts count those in two of them twice. */
  predicate PartsAddUp(sum: ScheduleSummary, rows: seq<ScheduleRow>) {
    && sum.total == |rows|
    && sum.success + sum.error + sum.canceled + sum.none + sum.unknown == sum.total
    && sum.active + sum.paused + sum.systemDisabled == sum.total + Count(rows, Doing(true, true))
  }

  lemma PartsGrow(a: ScheduleSummary, b: ScheduleSummary, rows: seq<ScheduleRow>, last: ScheduleRow)
    requires last.readable && ConsumeSchedule(a, last) == Some(b)
    ensures CountsDeliveries(a, rows) ==> CountsDeliveries(b, rows + [last])
    ensures CountsActivity(a, rows) ==> CountsActivity(b, rows + [last])
    ensures PartsAddUp(a, rows) ==> PartsAddUp(b, rows + [last])
  {
    OneSchedule(a, last);
    ActivitiesExclude(last);
    hide ConsumeSchedule, Count, Delivered, Doing;
    CountGrows(rows, last, Delivered(Success));
    CountGrows(rows, last, Delivered(Error));
    CountGrows(rows, last, Delivered(Canceled));
    CountGrows(rows, last, Delivered(NoDelivery));
    CountGrows(rows, last, Delivered(Unknown));
    CountGrows(rows, last, Doing(false, false));
    CountGrows(rows, last, Doing(true, false));
    CountGrows(rows, last, Doing(false, true));
    CountGrows(rows, last, Doing(true, true));
  }

  /** A schedule has one delivery status, and one of the four activities. */
  lemma ActivitiesExclude(row: ScheduleRow)
    ensures (if Delivered(Success)(row) then 1 else 0) + (if Delivered(Error)(row) then 1 else 0) + (if Delivered(Canceled)(row) then 1 else 0)
            + (if Delivered(NoDelivery)(row) then 1 else 0) + (if Delivered(Unknown)(row) then 1 else 0) == 1
    ensures (if Doing(false, false)(row) then 1 else 0) + (if Doing(true, false)(row) then 1 else 0) + (if Doing(false, true)(row) then 1 else 0)
            + (if Doing(true, true)(row) then 1 else 0) == 1
  {}

  lemma NoSchedules(rows: seq<ScheduleRow>)
    requires rows == []
    ensures Sum(Schedules(), NO_SCHEDULES, rows) == Some(NO_SCHEDULES)
    ensures CountsDeliveries(NO_SCHEDULES, rows) && CountsActivity(NO_SCHEDULES, rows) && PartsAddUp(NO_SCHEDULES, rows)
  {
    assert forall holds: ScheduleRow -> bool :: Count(rows, holds) == 0;
    hide Count, ConsumeSchedule, Delivered, Doing;
  }

  lemma LastSchedule(rows: seq<ScheduleRow>, last: ScheduleRow)
    ensures var a, b := Sum(Schedules(), NO_SCHEDULES, rows), Sum(Schedules(), NO_SCHEDULES, rows + [last]);
            b.Some? ==> a.Some? && last.readable && ConsumeSchedule(a.value, last) == b
  {
    hide LatestDelivery.Later;
    SumGrows(Schedules(), NO_SCHEDULES, rows, last);
  }

  /** Each part counts the schedules of its status or activity. The delivery parts add up to the number of schedules; the
      activity parts need not: a schedule may be both paused and disabled, and then counts in two parts. */
  lemma {:induction false} SchedulesAddUp(rows: seq<ScheduleRow>)
    requires Sum(Schedules(), NO_SCHEDULES, rows).Some?
    ensures var sum := Sum(Schedules(), NO_SCHEDULES, rows).value;
            CountsDeliveries(sum, rows) && CountsActivity(sum, rows) && PartsAddUp(sum, rows)
  {
    hide *;
    if rows == [] {
      NoSchedules(rows);
    } else {
      var front, last := rows[..|rows| - 1], rows[|rows| - 1];
      assert rows == front + [last];
      LastSchedule(front, last);
      SchedulesAddUp(front);
      PartsGrow(Sum(Schedules(), NO_SCHEDULES, front).value, Sum(Schedules(), NO_SCHEDULES, rows).value, front, last);
    }
  }

  lemma DeliveriesAddUp(rows: seq<ScheduleRow>, sum: ScheduleSummary)
    requires Sum(Schedules(), NO_SCHEDULES, rows) == Some(sum)
    ensures sum.total == |rows| && sum.success + sum.error + sum.canceled + sum.none + sum.unknown == |rows|
  {
    SchedulesAddUp(rows);
    hide Sum, CountsDeliveries, CountsActivity, Count, Doing;
  }

  function TimesOf(rows: seq<ScheduleRow>): (times: seq<Option<int>>)
    ensures |times| == |rows| && forall i :: 0 <= i < |rows| ==> times[i] == rows[i].latest
  {
    seq(|rows|, i requires 0 <= i < |rows| => rows[i].latest)
  }

  lemma {:induction false} LatestIsFolded(rows: seq<ScheduleRow>)
    requires Sum(Schedules(), NO_SCHEDULES, rows).Some?
    ensures Sum(Schedules(), NO_SCHEDULES, rows).value.latest == LatestDelivery.LatestOf(TimesOf(rows))
  {
    hide LatestDelivery.Later;
    if rows != [] {
      var front, last := rows[..|rows| - 1], rows[|rows| - 1];
      LatestIsFolded(front);
      assert TimesOf(rows)[..|front|] == TimesOf(front);
      assert last.readable;
    }
  }

  /** `latest` is the greatest of all printed times; when some time is of a year of four digits, it shows the greatest time
      exactly when none is of a later year. */
  lemma LatestIsGreatest(rows: seq<ScheduleRow>)
    requires Sum(Schedules(), NO_SCHEDULES, rows).Some?
    ensures var latest, times := Sum(Schedules(), NO_SCHEDULES, rows).value.latest, TimesOf(rows);
            && (latest.None? <==> forall i :: 0 <= i < |rows| ==> rows[i].latest.None?)
            && (latest.Some? ==> LatestDelivery.GreatestText(times, latest.value))
            && ((exists t :: Some(t) in times && LatestDelivery.FourDigits(t)) ==>
                  && latest.Some?
                  && (LatestDelivery.ShowsGreatest(times, latest.value) <==> LatestDelivery.NoLaterYear(times)))
  {
    hide Sum, LatestDelivery.LatestOf, LatestDelivery.FourDigits, LatestDelivery.GreatestText, LatestDelivery.ShowsGreatest,
         LatestDelivery.NoLaterYear;
    var times := TimesOf(rows);
    LatestIsFolded(rows);
    LatestDelivery.LatestIsGreatestText(times);
    assert (forall i :: 0 <= i < |rows| ==> rows[i].latest.None?) <==> forall i :: 0 <= i < |times| ==> times[i].None?;
    if t :| Some(t) in times && LatestDelivery.FourDigits(t) {
      LatestDelivery.LatestIsLatestIffFourDigits(times, t);
    }
  }

  method ScheduleReadiness(service: CursorCollection.Service<ScheduleRow>, maxPages: nat)
    returns (r: CursorCollection.Outcome<ScheduleSummary>, state: Readiness, ghost pages: seq<CursorCollection.CursorPage<ScheduleRow>>)
    requires 1 <= maxPages
    ensures r.NotRead? <==> CursorCollection.ParsePage(service(1, None)).None?
    ensures pages == CursorCollection.ReadFrom(service, true, maxPages, []).0
    ensures r.Collected? ==>
              && Sum(Schedules(), NO_SCHEDULES, Accepted(Schedules(), NO_SCHEDULES, Rows(pages))) == Some(r.summary)
              && r.total == Total(pages) && (r.complete <==> CursorCollection.Reconciled(Schedules(), NO_SCHEDULES, pages, r.total))
              && r.summary.total == r.included
              && r.summary.success + r.summary.error + r.summary.canceled + r.summary.none + r.summary.unknown == r.included
    ensures state == Ready <==>
            && r.Collected? && r.total > 0
            && CursorCollection.Reconciled(Schedules(), NO_SCHEDULES, pages, r.total)
            && r.summary.systemDisabled == 0 && r.summary.error == 0 && r.summary.unknown == 0
    ensures state == ActionRequired <==>
            && r.Collected? && r.total > 0
            && CursorCollection.Reconciled(Schedules(), NO_SCHEDULES, pages, r.total)
            && (r.summary.systemDisabled > 0 || r.summary.error > 0)
    ensures state == NotConfigured <==> r.Collected? && r.total == 0 && CursorCollection.Reconciled(Schedules(), NO_SCHEDULES, pages, 0)
  {
    hide *;
    ghost var stop;
    r, pages, stop := CursorCollection.CollectCursor(Schedules(), NO_SCHEDULES, service, true, maxPages);
    state := NotKnown;
    if r.Collected? {
      DeliveriesAddUp(Accepted(Schedules(), NO_SCHEDULES, Rows(pages)), r.summary);
      if r.complete {
        state := if r.total == 0 then NotConfigured
                 else if r.summary.systemDisabled > 0 || r.summary.error > 0 then ActionRequired
                 else if r.summary.unknown > 0 then NotKnown else Ready;
      }
    }
  }
}
