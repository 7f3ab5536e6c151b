/** Time values and their ISO printing: sections 21.4.1.18 and 21.4.4.36 of ECMA-262. */
module IsoTime {
  import opened Options
  import opened CivilDate
  import opened Decimals

  datatype Moment = Moment(date: Date, hour: int, minute: int, second: int, milli: int)

  predicate IsMoment(m: Moment) {
    IsDate(m.date) && 0 <= m.hour < 24 && 0 <= m.minute < 60 && 0 <= m.second < 60 && 0 <= m.milli < 1000
  }

  function TimeInDay(m: Moment): int {
    ((m.hour * 60 + m.minute) * 60 + m.second) * 1000 + m.milli
  }

  function TimeOf(m: Moment): int
    requires IsMoment(m)
  {
    DayNumber(m.date) * MS_PER_DAY + TimeInDay(m)
  }

  function MomentOf(t: int): (m: Moment)
    ensures IsMoment(m) && TimeOf(m) == t
  {
    var ms := t % MS_PER_DAY;
    var seconds := ms / 1000;
    var minutes := seconds / 60;
    TimeSplits(ms);
    Moment(DateFromDay(t / MS_PER_DAY), minutes / 60, minutes % 60, seconds % 60, ms % 1000)
  }

  lemma TimeSplits(ms: int)
    requires 0 <= ms < MS_PER_DAY
    ensures 0 <= ms / 1000 / 60 / 60 < 24
    ensures ms == ((ms / 1000 / 60 / 60 * 60 + ms / 1000 / 60 % 60) * 60 + ms / 1000 % 60) * 1000 + ms % 1000
  {}

  lemma MomentsAreTimes(a: Moment, b: Moment)
    requires IsMoment(a) && IsMoment(b) && TimeOf(a) == TimeOf(b)
    ensures a == b
  {
    SameDay(DayNumber(a.date), TimeInDay(a), DayNumber(b.date), TimeInDay(b));
    DatesAreDays(a.date, b.date);
  }

  lemma SameDay(d: int, r: int, e: int, s: int)
    requires 0 <= r < MS_PER_DAY && 0 <= s < MS_PER_DAY && d * MS_PER_DAY + r == e * MS_PER_DAY + s
    ensures d == e && r == s
  {}

  // ---------- printing ----------

  datatype Fields = Fields(year: string, month: string, day: string, hour: string, minute: string, second: string, milli: string)

  predicate Shaped(f: Fields) {
    && |f.year| == 4 && |f.month| == 2 && |f.day| == 2 && |f.hour| == 2 && |f.minute| == 2 && |f.second| == 2 && |f.milli| == 3
    && AllDigits(f.year) && AllDigits(f.month) && AllDigits(f.day) && AllDigits(f.hour) && AllDigits(f.minute)
    && AllDigits(f.second) && AllDigits(f.milli)
  }

  function IsoText(f: Fields): string {
    f.year + "-" + f.month + "-" + f.day + "T" + f.hour + ":" + f.minute + ":" + f.second + "." + f.milli + "Z"
  }

  function FieldsOf(m: Moment): (f: Fields)
    requires IsMoment(m) && 0 <= m.date.year
    ensures Shaped(f)
  {
    Fields(Padded(m.date.year, 4), Padded(m.date.month, 2), Padded(m.date.day, 2),
           Padded(m.hour, 2), Padded(m.minute, 2), Padded(m.second, 2), Padded(m.milli, 3))
  }

  /** Years outside 0 to 9999 are printed with a sign and six digits. */
  function ToIso(t: int): string {
    var m := MomentOf(t);
    if 0 <= m.date.year <= 9999 then IsoText(FieldsOf(m))
    else
      var year := if m.date.year < 0 then -m.date.year else m.date.year;
      var rest := FieldsOf(m.(date := m.date.(year := if IsLeap(m.date.year) then 2000 else 2001)));
      (if m.date.year < 0 then "-" else "+") + Padded(year, 6) + "-" + rest.month + "-" + rest.day
      + "T" + rest.hour + ":" + rest.minute + ":" + rest.second + "." + rest.milli + "Z"
  }

  lemma IsoTextInjective(f: Fields, g: Fields)
    requires Shaped(f) && Shaped(g) && IsoText(f) == IsoText(g)
    ensures f == g
  {
    var a, b := IsoText(f), IsoText(g);
    assert a[0..4] == f.year && b[0..4] == g.year;
    assert a[5..7] == f.month && b[5..7] == g.month;
    assert a[8..10] == f.day && b[8..10] == g.day;
    assert a[11..13] == f.hour && b[11..13] == g.hour;
    assert a[14..16] == f.minute && b[14..16] == g.minute;
    assert a[17..19] == f.second && b[17..19] == g.second;
    assert a[20..23] == f.milli && b[20..23] == g.milli;
  }

  /** The printed fields of a four-digit year determine the moment. */
  lemma FieldsDetermine(a: Moment, b: Moment)
    requires IsMoment(a) && 0 <= a.date.year <= 9999 && IsMoment(b) && 0 <= b.date.year <= 9999
    requires FieldsOf(a) == FieldsOf(b)
    ensures a == b
  {
    Powers();
    PaddedInjective(a.date.year, b.date.year, 4);
    PaddedInjective(a.date.month, b.date.month, 2);
    PaddedInjective(a.date.day, b.date.day, 2);
    PaddedInjective(a.hour, b.hour, 2);
    PaddedInjective(a.minute, b.minute, 2);
    PaddedInjective(a.second, b.second, 2);
    PaddedInjective(a.milli, b.milli, 3);
  }

  lemma Powers()
    ensures Power10(2) == 100 && Power10(3) == 1000 && Power10(4) == 10000 && Power10(5) == 100000
  {}

  /** Only four-digit years print with 24 characters. */
  lemma ShortMeansFourDigits(t: int)
    ensures |ToIso(t)| == 24 <==> 0 <= MomentOf(t).date.year <= 9999
  {}

  // ---------- parsing ----------

  /** The printed form of a moment in a four-digit year. */
  ghost predicate Prints(m: Moment, text: string) {
    IsMoment(m) && 0 <= m.date.year <= 9999 && IsoText(FieldsOf(m)) == text
  }

  /** Parsing gives back the time of a printed moment. For any other text the result is left to the
      implementation, here the parameter `other`. */
  ghost function DateParse(other: string -> Option<int>, text: string): Option<int> {
    if exists m :: Prints(m, text) then
      var m :| Prints(m, text);
      Some(TimeOf(m))
    else other(text)
  }

  lemma ParsePrinted(other: string -> Option<int>, m: Moment)
    requires IsMoment(m) && 0 <= m.date.year <= 9999
    ensures DateParse(other, IsoText(FieldsOf(m))) == Some(TimeOf(m))
  {
    var text := IsoText(FieldsOf(m));
    assert Prints(m, text);
    forall other | Prints(other, text)
      ensures other == m
    {
      IsoTextInjective(FieldsOf(other), FieldsOf(m));
      FieldsDetermine(other, m);
    }
  }

  /** A text is its own reprinting exactly when it prints a moment, whatever the implementation accepts besides. */
  lemma RoundTripIffPrinted(other: string -> Option<int>, f: Fields)
    requires Shaped(f)
    ensures (DateParse(other, IsoText(f)).Some? && ToIso(DateParse(other, IsoText(f)).value) == IsoText(f))
            <==> exists m :: IsMoment(m) && 0 <= m.date.year <= 9999 && FieldsOf(m) == f
  {
    var parsed := DateParse(other, IsoText(f));
    hide DateParse, ToIso, IsoText, FieldsOf, IsMoment;
    if m :| IsMoment(m) && 0 <= m.date.year <= 9999 && FieldsOf(m) == f {
      PrintedComesBack(other, m);
    }
    if parsed.Some? && ToIso(parsed.value) == IsoText(f) {
      var m := IsPrinted(parsed.value, f);
    }
  }

  lemma PrintedComesBack(other: string -> Option<int>, m: Moment)
    requires IsMoment(m) && 0 <= m.date.year <= 9999
    ensures DateParse(other, IsoText(FieldsOf(m))).Some? && ToIso(DateParse(other, IsoText(FieldsOf(m))).value) == IsoText(FieldsOf(m))
  {
    ParsePrinted(other, m);
    MomentsAreTimes(m, MomentOf(TimeOf(m)));
    hide DateParse, IsoText, FieldsOf;
  }

  lemma IsPrinted(t: int, f: Fields) returns (m: Moment)
    requires Shaped(f) && ToIso(t) == IsoText(f)
    ensures IsMoment(m) && 0 <= m.date.year <= 9999 && FieldsOf(m) == f
  {
    m := MomentOf(t);
    ShortMeansFourDigits(t);
    IsoTextInjective(FieldsOf(m), f);
  }
}
