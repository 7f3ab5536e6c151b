/** Printed times compared as texts: the order of their times, as long as their years have four digits. */
module IsoOrder {
  import opened Options
  import opened CivilDate
  import opened Decimals
  import opened IsoTime
  import opened TextOrder

  function Sign(n: int): int {
    if n < 0 then -1 else if n == 0 then 0 else 1
  }

  /** Of two texts that start with as many characters, the first parts decide unless they are equal. */
  lemma {:induction false} CompareParts(a: string, b: string, x: string, y: string)
    requires |a| == |b|
    ensures Compare(a + x, b + y) == if a == b then Compare(x, y) else Compare(a, b)
  {
    if a == [] {
      assert a + x == x && b + y == y;
    } else {
      assert (a + x)[1..] == a[1..] + x && (b + y)[1..] == b[1..] + y;
      assert (a + x)[0] == a[0] && (b + y)[0] == b[0];
      assert a == [a[0]] + a[1..] && b == [b[0]] + b[1..];
      CompareParts(a[1..], b[1..], x, y);
    }
  }

  lemma CompareDigits(a: nat, b: nat)
    requires a < 10 && b < 10
    ensures Compare([DigitChar(a)], [DigitChar(b)]) == Sign(a - b)
  {}

  /** Numbers of as many digits compare as texts as they do. */
  lemma {:induction false} ComparePadded(a: nat, b: nat, width: nat)
    requires a < Power10(width) && b < Power10(width)
    ensures Compare(Padded(a, width), Padded(b, width)) == Sign(a - b)
  {
    if width > 0 {
      ComparePadded(a / 10, b / 10, width - 1);
      CompareParts(Padded(a / 10, width - 1), Padded(b / 10, width - 1), [DigitChar(a % 10)], [DigitChar(b % 10)]);
      CompareDigits(a % 10, b % 10);
      hide Compare;
    }
  }

  // ---------- one field after the other ----------

  /** The texts before these fields are as long and compare to c; together with the fields they compare to the result. */
  lemma NextField(p: string, q: string, c: int, a: nat, b: nat, width: nat, separator: string)
    requires |p| == |q| && Compare(p, q) == c && a < Power10(width) && b < Power10(width)
    ensures |p + Padded(a, width) + separator| == |q + Padded(b, width) + separator|
    ensures Compare(p + Padded(a, width) + separator, q + Padded(b, width) + separator) == if c != 0 then c else Sign(a - b)
  {
    hide Compare, Padded, Power10;
    CompareParts(p, q, Padded(a, width), Padded(b, width));
    ComparePadded(a, b, width);
    CompareParts(p + Padded(a, width), q + Padded(b, width), separator, separator);
  }

  /** The first difference of two moments. */
  function Difference(a: Moment, b: Moment): int {
    if a.date.year != b.date.year then a.date.year - b.date.year
    else if a.date.month != b.date.month then a.date.month - b.date.month
    else if a.date.day != b.date.day then a.date.day - b.date.day
    else if a.hour != b.hour then a.hour - b.hour
    else if a.minute != b.minute then a.minute - b.minute
    else if a.second != b.second then a.second - b.second
    else a.milli - b.milli
  }

  predicate FourDigits(m: Moment) {
    IsMoment(m) && 0 <= m.date.year <= 9999
  }

  lemma CompareMoments(a: Moment, b: Moment)
    requires FourDigits(a) && FourDigits(b)
    ensures Compare(IsoText(FieldsOf(a)), IsoText(FieldsOf(b))) == Sign(Difference(a, b))
  {
    Powers();
    hide Compare, Padded, Power10, IsDate;
    var y, z := "" + Padded(a.date.year, 4) + "-", "" + Padded(b.date.year, 4) + "-";
    assert y == Padded(a.date.year, 4) + "-" && z == Padded(b.date.year, 4) + "-";
    NextField("", "", 0, a.date.year, b.date.year, 4, "-");
    MonthsAreSmall(a.date);
    MonthsAreSmall(b.date);
    var c1 := Sign(a.date.year - b.date.year);
    NextField(y, z, c1, a.date.month, b.date.month, 2, "-");
    var c2 := if c1 != 0 then c1 else Sign(a.date.month - b.date.month);
    y, z := y + Padded(a.date.month, 2) + "-", z + Padded(b.date.month, 2) + "-";
    NextField(y, z, c2, a.date.day, b.date.day, 2, "T");
    var c3 := if c2 != 0 then c2 else Sign(a.date.day - b.date.day);
    y, z := y + Padded(a.date.day, 2) + "T", z + Padded(b.date.day, 2) + "T";
    NextField(y, z, c3, a.hour, b.hour, 2, ":");
    var c4 := if c3 != 0 then c3 else Sign(a.hour - b.hour);
    y, z := y + Padded(a.hour, 2) + ":", z + Padded(b.hour, 2) + ":";
    NextField(y, z, c4, a.minute, b.minute, 2, ":");
    var c5 := if c4 != 0 then c4 else Sign(a.minute - b.minute);
    y, z := y + Padded(a.minute, 2) + ":", z + Padded(b.minute, 2) + ":";
    NextField(y, z, c5, a.second, b.second, 2, ".");
    var c6 := if c5 != 0 then c5 else Sign(a.second - b.second);
    y, z := y + Padded(a.second, 2) + ".", z + Padded(b.second, 2) + ".";
    NextField(y, z, c6, a.milli, b.milli, 3, "Z");
    assert IsoText(FieldsOf(a)) == y + Padded(a.milli, 3) + "Z";
    assert IsoText(FieldsOf(b)) == z + Padded(b.milli, 3) + "Z";
  }

  lemma MonthsAreSmall(d: Date)
    requires IsDate(d)
    ensures 1 <= d.month <= 12 && 1 <= d.day <= 31
  {}

  // ---------- moments in the order of their times ----------

  lemma EarlierDay(a: Date, b: Date)
    requires IsDate(a) && IsDate(b)
    requires a.year < b.year || (a.year == b.year && (a.month < b.month || (a.month == b.month && a.day < b.day)))
    ensures DayNumber(a) < DayNumber(b)
  {
    hide DayFromYear, DaysBefore, MonthLength;
    if a.year < b.year {
      DateIsInItsYear(a);
      DateIsInItsYear(b);
      LaterYearsStartLater(a.year, b.year);
    } else if a.month < b.month {
      LaterMonthsStartLater(a.year, a.month, b.month);
      MonthEnds(a.year, a.month);
    }
  }

  lemma MonthEnds(y: int, month: int)
    requires 1 <= month <= 12
    ensures DaysBefore(y, month + 1) == DaysBefore(y, month) + MonthLength(y, month)
  {}

  lemma EarlierInDay(a: Moment, b: Moment)
    requires IsMoment(a) && IsMoment(b) && a.date == b.date && Difference(a, b) < 0
    ensures TimeInDay(a) < TimeInDay(b)
  {}

  lemma DayIsShort(m: Moment)
    requires IsMoment(m)
    ensures 0 <= TimeInDay(m) < MS_PER_DAY
  {}

  lemma EarlierTime(a: Moment, b: Moment)
    requires IsMoment(a) && IsMoment(b) && Difference(a, b) < 0
    ensures TimeOf(a) < TimeOf(b)
  {
    hide DayNumber, TimeInDay, IsDate;
    DayIsShort(a);
    DayIsShort(b);
    if a.date == b.date {
      EarlierInDay(a, b);
    } else {
      EarlierDay(a.date, b.date);
    }
  }

  lemma TimeOrder(a: Moment, b: Moment)
    requires IsMoment(a) && IsMoment(b)
    ensures Sign(TimeOf(a) - TimeOf(b)) == Sign(Difference(a, b))
  {
    hide TimeOf, IsDate;
    if Difference(a, b) < 0 {
      EarlierTime(a, b);
    } else if Difference(a, b) > 0 {
      EarlierTime(b, a);
    }
  }

  /** Printed times of four-digit years compare as texts as the times do. */
  lemma TextOrderIsTimeOrder(t: int, u: int)
    requires FourDigits(MomentOf(t)) && FourDigits(MomentOf(u))
    ensures Compare(ToIso(t), ToIso(u)) == Sign(t - u)
  {
    hide Compare, IsoText, FieldsOf, Difference, IsMoment;
    CompareMoments(MomentOf(t), MomentOf(u));
    TimeOrder(MomentOf(t), MomentOf(u));
  }

  lemma YearOrder(t: int, u: int)
    requires MomentOf(t).date.year < MomentOf(u).date.year
    ensures t < u
  {
    EarlierTime(MomentOf(t), MomentOf(u));
  }

  /** Every other printed time starts with a sign, and comes before those of four-digit years. */
  lemma SignedComesFirst(t: int, u: int)
    requires !FourDigits(MomentOf(t)) && FourDigits(MomentOf(u))
    ensures Before(ToIso(t), ToIso(u))
  {
    var a, b := ToIso(t), ToIso(u);
    assert a[0] == '-' || a[0] == '+';
    assert b[0] == Padded(MomentOf(u).date.year, 4)[0];
    hide ToIso, Padded;
    assert a[0] < b[0];
  }
}
