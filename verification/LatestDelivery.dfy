/** The latest of some times, kept as it is printed and compared as a text. */
module LatestDelivery {
  import opened Options
  import opened IsoTime
  import opened TextOrder
  import IsoOrder

  function Later(latest: Option<string>, time: Option<int>): Option<string> {
    if time.Some? && (latest.None? || Before(latest.value, ToIso(time.value))) then Some(ToIso(time.value)) else latest
  }

  function LatestOf(times: seq<Option<int>>): Option<string> {
    if times == [] then None else Later(LatestOf(times[..|times| - 1]), times[|times| - 1])
  }

  predicate NotAfter(a: string, b: string) {
    Compare(a, b) <= 0
  }

  /** One of the printed times, and none comes after it. */
  ghost predicate GreatestText(times: seq<Option<int>>, text: string) {
    (exists t :: Some(t) in times && ToIso(t) == text) && forall t :: Some(t) in times ==> NotAfter(ToIso(t), text)
  }

  lemma {:induction false} LatestIsGreatestText(times: seq<Option<int>>)
    ensures LatestOf(times).None? <==> forall i :: 0 <= i < |times| ==> times[i].None?
    ensures LatestOf(times).Some? ==> GreatestText(times, LatestOf(times).value)
  {
    hide Later, GreatestText;
    if times != [] {
      var front, last := times[..|times| - 1], times[|times| - 1];
      LatestIsGreatestText(front);
      assert times == front + [last];
      OneMoreTime(front, last, LatestOf(front));
    }
  }

  lemma TextsAreOrdered(a: string, b: string, c: string)
    ensures NotAfter(a, b) && NotAfter(b, c) ==> NotAfter(a, c)
    ensures NotAfter(a, a)
    ensures Before(a, b) ==> NotAfter(a, b)
    ensures !Before(a, b) ==> NotAfter(b, a)
  {
    CompareIsAntisymmetric(a, b);
    if Before(a, b) && Before(b, c) {
      BeforeIsTransitive(a, b, c);
    }
  }

  lemma OneMoreTime(times: seq<Option<int>>, last: Option<int>, latest: Option<string>)
    requires latest.None? <==> forall i :: 0 <= i < |times| ==> times[i].None?
    requires latest.Some? ==> GreatestText(times, latest.value)
    ensures var next, all := Later(latest, last), times + [last];
            && (next.None? <==> forall i :: 0 <= i < |all| ==> all[i].None?)
            && (next.Some? ==> GreatestText(all, next.value))
  {
    hide GreatestText, ToIso, Before;
    var next, all := Later(latest, last), times + [last];
    assert forall i :: 0 <= i < |times| ==> all[i] == times[i];
    assert all[|times|] == last;
    if latest.None? {
      if last.Some? {
        FirstTime(times, last.value);
      }
    } else if last.None? {
      NoTime(times, latest.value);
    } else {
      AnotherTime(times, last.value, latest.value);
    }
  }

  lemma FirstTime(times: seq<Option<int>>, t: int)
    requires forall i :: 0 <= i < |times| ==> times[i].None?
    ensures GreatestText(times + [Some(t)], ToIso(t))
  {
    hide ToIso, NotAfter;
    TextsAreOrdered(ToIso(t), ToIso(t), ToIso(t));
    assert Some(t) in times + [Some(t)];
  }

  lemma NoTime(times: seq<Option<int>>, text: string)
    requires GreatestText(times, text)
    ensures GreatestText(times + [None], text)
  {
    hide ToIso, NotAfter;
    var t :| Some(t) in times && ToIso(t) == text;
    assert Some(t) in times + [None];
  }

  lemma AnotherTime(times: seq<Option<int>>, t: int, text: string)
    requires GreatestText(times, text)
    ensures GreatestText(times + [Some(t)], if Before(text, ToIso(t)) then ToIso(t) else text)
  {
    hide ToIso, NotAfter, Before;
    var next, all := if Before(text, ToIso(t)) then ToIso(t) else text, times + [Some(t)];
    TextsAreOrdered(text, ToIso(t), ToIso(t));
    TextsAreOrdered(next, next, next);
    forall u | Some(u) in all
      ensures NotAfter(ToIso(u), next)
    {
      TextsAreOrdered(ToIso(u), text, next);
    }
    var u :| Some(u) in times && ToIso(u) == text;
    assert Some(u) in all && Some(t) in all;
  }

  // ---------- the greatest time ----------

  /** The text is that of the greatest time. */
  ghost predicate ShowsGreatest(times: seq<Option<int>>, text: string) {
    exists t :: Some(t) in times && ToIso(t) == text && forall u :: Some(u) in times ==> u <= t
  }

  predicate FourDigits(time: int) {
    IsoOrder.FourDigits(MomentOf(time))
  }

  /** No time is of a year of more than four digits. */
  ghost predicate NoLaterYear(times: seq<Option<int>>) {
    forall u :: Some(u) in times ==> MomentOf(u).date.year <= 9999
  }

  /** When some time is of a year of four digits, the latest text shows the greatest time exactly when none is of a later
      year. */
  lemma LatestIsLatestIffFourDigits(times: seq<Option<int>>, some: int)
    requires Some(some) in times && FourDigits(some)
    ensures LatestOf(times).Some? && (ShowsGreatest(times, LatestOf(times).value) <==> NoLaterYear(times))
  {
    hide LatestOf, ToIso, MomentOf, FourDigits, NotAfter;
    LatestIsGreatestText(times);
    var i :| 0 <= i < |times| && times[i] == Some(some);
    GreatestOrLaterYear(times, LatestOf(times).value, some);
  }

  lemma GreatestOrLaterYear(times: seq<Option<int>>, text: string, some: int)
    requires GreatestText(times, text) && Some(some) in times && FourDigits(some)
    ensures ShowsGreatest(times, text) <==> NoLaterYear(times)
  {
    hide ToIso, MomentOf, FourDigits, NotAfter;
    if NoLaterYear(times) {
      var t :| Some(t) in times && ToIso(t) == text;
      GreatestHasFourDigits(t, some);
      forall u | Some(u) in times
        ensures u <= t
      {
        AgainstGreatest(t, u);
      }
    }
    if ShowsGreatest(times, text) {
      var t :| Some(t) in times && ToIso(t) == text && forall u :: Some(u) in times ==> u <= t;
      GreatestHasFourDigits(t, some);
      forall u | Some(u) in times
        ensures MomentOf(u).date.year <= 9999
      {
        AgainstGreatest(t, u);
      }
    }
  }

  lemma GreatestHasFourDigits(t: int, some: int)
    requires FourDigits(some) && NotAfter(ToIso(some), ToIso(t))
    ensures FourDigits(t)
  {
    hide ToIso, MomentOf, Compare;
    if !FourDigits(t) {
      IsoOrder.SignedComesFirst(t, some);
      CompareIsAntisymmetric(ToIso(t), ToIso(some));
    }
  }

  /** A time of which the text does not come after that of a year of four digits is no later, unless its year has more
      digits. */
  lemma AgainstGreatest(t: int, u: int)
    requires FourDigits(t) && NotAfter(ToIso(u), ToIso(t))
    ensures MomentOf(u).date.year <= 9999 <==> u <= t
  {
    hide ToIso, Compare, MomentOf;
    if FourDigits(u) {
      IsoOrder.TextOrderIsTimeOrder(u, t);
    } else {
      IsoOrder.SignedComesFirst(u, t);
      if MomentOf(u).date.year > 9999 {
        IsoOrder.YearOrder(t, u);
      } else {
        IsoOrder.YearOrder(u, t);
      }
    }
  }

  /** A time of year 10000 or later gives way to any of a year of four digits. */
  lemma LatestMayBeEarlier(t: int, u: int)
    requires MomentOf(t).date.year > 9999 && FourDigits(u)
    ensures u < t && LatestOf([Some(t), Some(u)]) == Some(ToIso(u))
  {
    hide ToIso, MomentOf, Before;
    IsoOrder.YearOrder(u, t);
    IsoOrder.SignedComesFirst(t, u);
    assert [Some(t), Some(u)][..1] == [Some(t)] && [Some(t)][..0] == [];
    assert LatestOf([Some(t)]) == Some(ToIso(t));
  }
}
