/** Dated names of review branches: their recogniser, and their creation beside names already taken. */
module BranchNames {
  import opened Options
  import opened CivilDate
  import opened Decimals
  import opened IsoTime
  import RequestIdentity

  const PREFIX: string := "omnikit-topics-"
  const LAST_TIME: int := 253402300799999
  const LAST_ORDINAL: int := 1000

  /** What a dated name spells: the fields of a time and perhaps an ordinal. */
  datatype Parts = Parts(fields: Fields, ordinal: Option<string>)

  predicate OrdinalShaped(s: string) {
    1 <= |s| <= 5 && AllDigits(s) && s[0] != '0'
  }

  function Stamp(f: Fields): string {
    PREFIX + f.year + "-" + f.month + "-" + f.day + "-" + f.hour + "-" + f.minute + "-" + f.second + "-" + f.milli + "-utc"
  }

  /** One stamp, spelled out. */
  lemma StampOfMoment()
    ensures Stamp(Fields("1970", "02", "03", "04", "05", "06", "007")) == "omnikit-topics-1970-02-03-04-05-06-007-utc"
  {}

  function Suffix(ordinal: Option<string>): string {
    if ordinal.Some? then "-" + ordinal.value else ""
  }

  /** The slices of a text at the positions where a dated name has its fields. */
  function FieldsAt(v: string): Fields
    requires |v| >= 42
  {
    Fields(v[15..19], v[20..22], v[23..25], v[26..28], v[29..31], v[32..34], v[35..38])
  }

  /** The pattern of dated names, with its groups. */
  function Match(v: string): (p: Option<Parts>)
    ensures p.Some? ==> Shaped(p.value.fields) && (p.value.ordinal.Some? ==> OrdinalShaped(p.value.ordinal.value))
  {
    if !(|v| >= 42 && v[..15] == PREFIX && v[19] == v[22] == v[25] == v[28] == v[31] == v[34] == '-' && v[38..42] == "-utc"
         && Shaped(FieldsAt(v)))
    then None
    else if |v| == 42 then Some(Parts(FieldsAt(v), None))
    else if v[42] == '-' && OrdinalShaped(v[43..]) then Some(Parts(FieldsAt(v), Some(v[43..])))
    else None
  }

  lemma MatchSpells(v: string)
    requires Match(v).Some?
    ensures v == Stamp(Match(v).value.fields) + Suffix(Match(v).value.ordinal)
  {
    StampSlices(v);
  }

  lemma StampSlices(v: string)
    requires |v| >= 42 && v[..15] == PREFIX && v[19] == v[22] == v[25] == v[28] == v[31] == v[34] == '-' && v[38..42] == "-utc"
    ensures v[..42] == Stamp(FieldsAt(v))
  {
    hide Shaped;
    Joined(v, 15, 19);
    Dash(v, 19);
    Joined(v, 20, 22);
    Dash(v, 22);
    Joined(v, 23, 25);
    Dash(v, 25);
    Joined(v, 26, 28);
    Dash(v, 28);
    Joined(v, 29, 31);
    Dash(v, 31);
    Joined(v, 32, 34);
    Dash(v, 34);
    Joined(v, 35, 38);
    Joined(v, 38, 42);
  }

  lemma Joined(v: string, i: nat, k: nat)
    requires i <= k <= |v|
    ensures v[..i] + v[i..k] == v[..k]
  {}

  lemma Dash(v: string, i: nat)
    requires i < |v| && v[i] == '-'
    ensures v[..i] + "-" == v[..i + 1]
  {}

  lemma SlicesOfStamp(f: Fields, v: string)
    requires Shaped(f) && |v| >= 42 && v[..42] == Stamp(f)
    ensures v[..15] == PREFIX && v[19] == v[22] == v[25] == v[28] == v[31] == v[34] == '-' && v[38..42] == "-utc"
    ensures FieldsAt(v) == f
  {
    var s := v[..42];
    assert s[..15] == PREFIX && s[15..19] == f.year && s[20..22] == f.month && s[23..25] == f.day;
    assert s[26..28] == f.hour && s[29..31] == f.minute && s[32..34] == f.second;
    assert s[35..38] == f.milli && s[38..42] == "-utc";
    assert s[19] == s[22] == s[25] == s[28] == s[31] == s[34] == '-';
    hide *;
    SliceOfFront(v, 42, 0, 15);
    SliceOfFront(v, 42, 15, 19);
    SliceOfFront(v, 42, 20, 22);
    SliceOfFront(v, 42, 23, 25);
    SliceOfFront(v, 42, 26, 28);
    SliceOfFront(v, 42, 29, 31);
    SliceOfFront(v, 42, 32, 34);
    SliceOfFront(v, 42, 35, 38);
    SliceOfFront(v, 42, 38, 42);
  }

  lemma SliceOfFront(v: string, n: nat, i: nat, k: nat)
    requires i <= k <= n <= |v|
    ensures v[i..k] == v[..n][i..k]
  {}

  lemma SpelledMatches(p: Parts)
    requires Shaped(p.fields) && (p.ordinal.Some? ==> OrdinalShaped(p.ordinal.value))
    ensures Match(Stamp(p.fields) + Suffix(p.ordinal)) == Some(p)
  {
    var stamp, v := Stamp(p.fields), Stamp(p.fields) + Suffix(p.ordinal);
    assert |stamp| == 42 && v[..42] == stamp;
    hide Stamp, Shaped, OrdinalShaped;
    SlicesOfStamp(p.fields, v);
    if p.ordinal.Some? {
      assert v == (stamp + "-") + p.ordinal.value;
      assert |stamp + "-"| == 43;
      assert v[43..] == p.ordinal.value;
    }
  }

  /** The recogniser of dated names. What the date parser makes of other texts is the parameter `other`. */
  ghost predicate IsTimestampName(other: string -> Option<int>, v: string) {
    match Match(v)
    case None => false
    case Some(p) =>
      if p.ordinal.Some? && Read(p.ordinal.value) < 2 then false
      else
        var time := DateParse(other, IsoText(p.fields));
        time.Some? && ToIso(time.value) == IsoText(p.fields)
  }

  // ---------- the names themselves ----------

  predicate NameYear(m: Moment) {
    IsMoment(m) && 0 <= m.date.year <= 9999
  }

  predicate NameOrdinal(ordinal: Option<int>) {
    ordinal.Some? ==> 2 <= ordinal.value <= 99999
  }

  function OrdinalText(ordinal: Option<int>): Option<string>
    requires NameOrdinal(ordinal)
  {
    if ordinal.Some? then Some(Decimal(ordinal.value)) else None
  }

  /** The name of a moment, with the ordinal when there is one. */
  function Name(m: Moment, ordinal: Option<int>): string
    requires NameYear(m) && NameOrdinal(ordinal)
  {
    Stamp(FieldsOf(m)) + Suffix(OrdinalText(ordinal))
  }

  predicate Names(v: string, m: Moment, ordinal: Option<int>) {
    NameYear(m) && NameOrdinal(ordinal) && v == Name(m, ordinal)
  }

  /** The recogniser accepts exactly the names of real moments of years 0 to 9999, alone or with an ordinal
      from 2 to 99999, whatever the date parser makes of other texts. */
  lemma RecognisesExactlyNames(other: string -> Option<int>, v: string)
    ensures IsTimestampName(other, v) <==> exists m, ordinal :: Names(v, m, ordinal)
  {
    if m, ordinal :| Names(v, m, ordinal) {
      NameIsRecognised(other, m, ordinal);
    }
    if IsTimestampName(other, v) {
      RecognisedIsName(other, v);
    }
  }

  lemma NameMatches(m: Moment, ordinal: Option<int>)
    requires NameYear(m) && NameOrdinal(ordinal)
    ensures Match(Name(m, ordinal)) == Some(Parts(FieldsOf(m), OrdinalText(ordinal)))
    ensures ordinal.Some? ==> Read(Decimal(ordinal.value)) == ordinal.value
  {
    if ordinal.Some? {
      Powers();
      DecimalReads(ordinal.value);
      DecimalLength(ordinal.value, 5);
    }
    hide Stamp, Match, Shaped, FieldsOf;
    SpelledMatches(Parts(FieldsOf(m), OrdinalText(ordinal)));
  }

  lemma NameIsRecognised(other: string -> Option<int>, m: Moment, ordinal: Option<int>)
    requires NameYear(m) && NameOrdinal(ordinal)
    ensures IsTimestampName(other, Name(m, ordinal))
  {
    hide Name, Match, FieldsOf, IsoText, ToIso, DateParse, Shaped, IsMoment;
    NameMatches(m, ordinal);
    RoundTripIffPrinted(other, FieldsOf(m));
  }

  lemma RecognisedIsName(other: string -> Option<int>, v: string)
    requires IsTimestampName(other, v)
    ensures exists m, ordinal :: Names(v, m, ordinal)
  {
    hide Match, FieldsOf, IsoText, ToIso, DateParse, Shaped, IsMoment, Stamp;
    MatchSpells(v);
    var p := Match(v).value;
    RoundTripIffPrinted(other, p.fields);
    var m :| IsMoment(m) && 0 <= m.date.year <= 9999 && FieldsOf(m) == p.fields;
    if p.ordinal.Some? {
      OrdinalReads(p.ordinal.value);
      assert Names(v, m, Some(Read(p.ordinal.value)));
    } else {
      assert Names(v, m, None);
    }
  }

  lemma OrdinalReads(s: string)
    requires OrdinalShaped(s)
    ensures Decimal(Read(s)) == s && 0 < Read(s) <= 99999
  {
    Powers();
    ReadDecimal(s);
    DecimalLength(Read(s), 5);
  }

  /** A name determines its creation time and its ordinal. */
  lemma NameDetermines(v: string, a: Moment, i: Option<int>, b: Moment, j: Option<int>)
    requires Names(v, a, i) && Names(v, b, j)
    ensures IsMoment(a) && a == b && i == j
  {
    NameMatches(a, i);
    NameMatches(b, j);
    hide Name, Match, FieldsOf, IsMoment;
    FieldsDetermine(a, b);
  }

  // ---------- creation ----------

  /** The characters T, colon and dot become hyphens. */
  function Hyphenated(s: string): (r: string)
    ensures |r| == |s| && forall i :: 0 <= i < |s| ==> r[i] == if s[i] == 'T' || s[i] == ':' || s[i] == '.' then '-' else s[i]
  {
    seq(|s|, i requires 0 <= i < |s| => if s[i] == 'T' || s[i] == ':' || s[i] == '.' then '-' else s[i])
  }

  function ZoneSpelled(s: string): string {
    if s != "" && s[|s| - 1] == 'Z' then s[..|s| - 1] + "-utc" else s
  }

  function BaseName(createdAt: int): string {
    PREFIX + ZoneSpelled(Hyphenated(ToIso(createdAt)))
  }

  /** Text that lower-casing leaves alone. */
  predicate Plain(s: string) {
    forall i :: 0 <= i < |s| ==> s[i] == '-' || IsDigit(s[i]) || 'a' <= s[i] <= 'z'
  }

  /** Lower-casing is given by the platform: only its effect on plain text is fixed. */
  ghost predicate Lowers(lower: string -> string) {
    forall s :: Plain(s) ==> lower(s) == s
  }

  datatype Creation = Created(name: string) | InvalidTime | NoneFree

  function Lowered(lower: string -> string, names: seq<string>): set<string> {
    set i | 0 <= i < |names| :: lower(names[i])
  }

  /** Some occupied name equals this one but for case. */
  predicate Taken(lower: string -> string, occupied: seq<string>, name: string) {
    exists i :: 0 <= i < |occupied| && lower(occupied[i]) == lower(name)
  }

  /** The candidates in the order they are tried: the plain name first, then ordinals from 2. */
  function Numbered(base: string, ordinal: nat): string {
    base + "-" + Decimal(ordinal)
  }

  function Candidate(createdAt: int, k: nat): string {
    if k == 0 then BaseName(createdAt) else Numbered(BaseName(createdAt), k + 1)
  }

  function Try(k: nat): Option<int> {
    if k == 0 then None else Some(k + 1)
  }

  predicate AllTaken(lower: string -> string, createdAt: int, occupied: seq<string>, count: nat) {
    forall k :: 0 <= k < count ==> Taken(lower, occupied, Candidate(createdAt, k))
  }

  predicate FirstFree(lower: string -> string, createdAt: int, occupied: seq<string>, k: nat) {
    !Taken(lower, occupied, Candidate(createdAt, k)) && AllTaken(lower, createdAt, occupied, k)
  }

  method CreateName(lower: string -> string, createdAt: int, occupied: seq<string>) returns (r: Creation)
    requires Lowers(lower)
    ensures r.InvalidTime? <==> !(0 <= createdAt <= LAST_TIME)
    ensures r.NoneFree? ==> AllTaken(lower, createdAt, occupied, 1000) && |Lowered(lower, occupied)| >= 1000
    ensures r.Created? ==> exists k :: 0 <= k < 1000 && FirstFree(lower, createdAt, occupied, k) && r.name == Candidate(createdAt, k)
  {
    hide BaseName, Numbered, Lowered, Lowers, AllTaken, FirstFree, Candidate;
    if createdAt < 0 || createdAt > LAST_TIME {
      return InvalidTime;
    }
    var base := BaseName(createdAt);
    var taken := Lowered(lower, occupied);
    TryCandidate(lower, createdAt, occupied, 0);
    if base !in taken {
      return Created(base);
    }
    var ordinal := 2;
    while ordinal <= LAST_ORDINAL
      invariant 2 <= ordinal <= LAST_ORDINAL + 1
      invariant AllTaken(lower, createdAt, occupied, ordinal - 1)
    {
      var candidate := Numbered(base, ordinal);
      TryCandidate(lower, createdAt, occupied, ordinal - 1);
      if candidate !in taken {
        return Created(candidate);
      }
      ordinal := ordinal + 1;
    }
    if |taken| < LAST_ORDINAL {
      SomeCandidateIsFree(lower, createdAt, occupied);
    }
    return NoneFree;
  }

  lemma TryCandidate(lower: string -> string, createdAt: int, occupied: seq<string>, k: nat)
    requires Lowers(lower) && 0 <= createdAt <= LAST_TIME && k < LAST_ORDINAL
    requires k > 0 ==> AllTaken(lower, createdAt, occupied, k)
    ensures Candidate(createdAt, k) == if k == 0 then BaseName(createdAt) else Numbered(BaseName(createdAt), k + 1)
    ensures if Candidate(createdAt, k) in Lowered(lower, occupied) then AllTaken(lower, createdAt, occupied, k + 1)
            else FirstFree(lower, createdAt, occupied, k)
  {
    hide BaseName, Numbered, Lowered, Taken, Lowers;
    CandidateTaken(lower, createdAt, occupied, k);
  }

  lemma CandidateTaken(lower: string -> string, createdAt: int, occupied: seq<string>, k: nat)
    requires Lowers(lower) && 0 <= createdAt <= LAST_TIME && k < LAST_ORDINAL
    ensures Candidate(createdAt, k) in Lowered(lower, occupied) <==> Taken(lower, occupied, Candidate(createdAt, k))
  {
    hide Candidate, Plain;
    CandidateIsPlain(createdAt, k);
  }

  /** The last time that may be used is the last millisecond of year 9999. */
  lemma TimesOfNames(t: int)
    ensures 0 <= t <= LAST_TIME <==> 1970 <= MomentOf(t).date.year <= 9999
  {
    var d := MomentOf(t).date;
    DateIsInItsYear(d);
    assert DayNumber(d) == t / MS_PER_DAY by {
      var m := MomentOf(t);
      SameDay(DayNumber(d), TimeInDay(m), t / MS_PER_DAY, t % MS_PER_DAY);
    }
    assert DayFromYear(1970) == 0 && DayFromYear(10000) == 2932897;
    hide DayNumber;
    if d.year < 1970 {
      LaterYearsStartLater(d.year, 1970);
    } else if d.year > 1970 {
      LaterYearsStartLater(1970, d.year);
    }
    if d.year < 10000 {
      LaterYearsStartLater(d.year, 10000);
    } else if d.year > 10000 {
      LaterYearsStartLater(10000, d.year);
    }
  }

  /** The replacements turn the printed time into the stamp of its fields. */
  lemma BaseIsStamp(f: Fields)
    requires Shaped(f)
    ensures PREFIX + ZoneSpelled(Hyphenated(IsoText(f))) == Stamp(f)
  {
    var s := f.year + "-" + f.month + "-" + f.day + "-" + f.hour + "-" + f.minute + "-" + f.second + "-" + f.milli;
    assert Stamp(f) == PREFIX + (s + "-utc");
    assert Hyphenated(IsoText(f)) == s + "Z";
  }

  lemma BaseIsName(createdAt: int)
    requires 0 <= MomentOf(createdAt).date.year <= 9999
    ensures BaseName(createdAt) == Stamp(FieldsOf(MomentOf(createdAt)))
  {
    hide Stamp, IsoText, FieldsOf, MomentOf, ZoneSpelled, Hyphenated, Shaped, IsMoment, TimeOf;
    BaseIsStamp(FieldsOf(MomentOf(createdAt)));
    assert ToIso(createdAt) == IsoText(FieldsOf(MomentOf(createdAt)));
  }

  lemma CandidateIsName(createdAt: int, k: nat)
    requires 0 <= createdAt <= LAST_TIME && k < LAST_ORDINAL
    ensures Names(Candidate(createdAt, k), MomentOf(createdAt), Try(k))
  {
    TimesOfNames(createdAt);
    hide BaseName, Stamp, Decimal, FieldsOf, MomentOf, Shaped, IsMoment, TimeOf;
    BaseIsName(createdAt);
    if k > 0 {
      var base := BaseName(createdAt);
      assert base + "-" + Decimal(k + 1) == base + ("-" + Decimal(k + 1));
    } else {
      assert BaseName(createdAt) + "" == BaseName(createdAt);
    }
  }

  lemma CandidateIsPlain(createdAt: int, k: nat)
    requires 0 <= createdAt <= LAST_TIME && k < LAST_ORDINAL
    ensures Plain(Candidate(createdAt, k))
  {
    hide Candidate, Stamp, FieldsOf, MomentOf;
    CandidateIsName(createdAt, k);
    StampIsPlain(FieldsOf(MomentOf(createdAt)));
    if k > 0 {
      assert Plain(Decimal(k + 1));
    }
  }

  lemma StampIsPlain(f: Fields)
    requires Shaped(f)
    ensures Plain(Stamp(f))
  {}

  // ---------- main results of creation ----------

  /** Fewer than a thousand occupied names leave a candidate free. */
  lemma SomeCandidateIsFree(lower: string -> string, createdAt: int, occupied: seq<string>)
    requires Lowers(lower) && 0 <= createdAt <= LAST_TIME
    requires |Lowered(lower, occupied)| < LAST_ORDINAL
    ensures !AllTaken(lower, createdAt, occupied, LAST_ORDINAL)
  {
    hide Candidate, Taken, Lowered;
    if AllTaken(lower, createdAt, occupied, LAST_ORDINAL) {
      forall k | 0 <= k < LAST_ORDINAL
        ensures Candidate(createdAt, k) in Lowered(lower, occupied)
      {
        CandidateTaken(lower, createdAt, occupied, k);
      }
      CandidatesFill(createdAt, LAST_ORDINAL, Lowered(lower, occupied));
    }
  }

  /** n candidates are n different names. */
  lemma {:induction false} CandidatesFill(createdAt: int, n: nat, names: set<string>)
    requires 0 <= createdAt <= LAST_TIME && n <= LAST_ORDINAL
    requires forall k :: 0 <= k < n ==> Candidate(createdAt, k) in names
    ensures |names| >= n
  {
    hide Candidate;
    if n > 0 {
      var last := Candidate(createdAt, n - 1);
      forall k | 0 <= k < n - 1
        ensures Candidate(createdAt, k) in names - {last}
      {
        CandidatesDiffer(createdAt, k, n - 1);
      }
      CandidatesFill(createdAt, n - 1, names - {last});
    }
  }

  lemma CandidatesDiffer(createdAt: int, j: nat, k: nat)
    requires 0 <= createdAt <= LAST_TIME && j < k < LAST_ORDINAL
    ensures Candidate(createdAt, j) != Candidate(createdAt, k)
  {
    hide Candidate, Names, MomentOf;
    CandidateIsName(createdAt, j);
    CandidateIsName(createdAt, k);
    if Candidate(createdAt, j) == Candidate(createdAt, k) {
      NameDetermines(Candidate(createdAt, j), MomentOf(createdAt), Try(j), MomentOf(createdAt), Try(k));
    }
  }

  /** Every name that may be created is recognised, and names its creation time and no other. */
  lemma CreatedNamesAreRecognised(other: string -> Option<int>, createdAt: int, k: nat)
    requires 0 <= createdAt <= LAST_TIME && k < LAST_ORDINAL
    ensures IsTimestampName(other, Candidate(createdAt, k))
    ensures forall m, ordinal :: Names(Candidate(createdAt, k), m, ordinal) ==> IsMoment(m) && TimeOf(m) == createdAt
  {
    hide Candidate, Names, IsTimestampName, TimeOf;
    CandidateIsName(createdAt, k);
    RecognisesExactlyNames(other, Candidate(createdAt, k));
    var moment := MomentOf(createdAt);
    hide MomentOf, IsMoment;
    forall m, ordinal | Names(Candidate(createdAt, k), m, ordinal)
      ensures IsMoment(m) && TimeOf(m) == createdAt
    {
      NameDetermines(Candidate(createdAt, k), m, ordinal, moment, Try(k));
    }
  }

  // ---------- historical names ----------

  /** The pattern of historical names: the prefix and a UUID of version 4, in any case. */
  predicate IsLegacyName(v: string) {
    var lower := RequestIdentity.Lower(v);
    |v| == 51 && lower[..15] == PREFIX && RequestIdentity.IsUuid(lower[15..]) && lower[29] == '4'
  }

  ghost predicate IsBranchName(other: string -> Option<int>, v: string) {
    IsLegacyName(v) || IsTimestampName(other, v)
  }

  ghost predicate IsBranchNameForPlan(other: string -> Option<int>, v: string, plan: string) {
    IsTimestampName(other, v) || (IsLegacyName(v) && v == PREFIX + plan)
  }

  /** The two kinds of names are disjoint: a name is good for every plan exactly when it is dated, and otherwise
      for at most one plan, which a historical name spells out. */
  lemma PlansOfName(other: string -> Option<int>, v: string)
    ensures IsLegacyName(v) ==> !IsTimestampName(other, v)
    ensures IsTimestampName(other, v) <==> forall plan :: IsBranchNameForPlan(other, v, plan)
    ensures IsBranchName(other, v) && v[..15] == PREFIX <==> exists plan :: IsBranchNameForPlan(other, v, plan)
    ensures forall p, q :: p != q && IsBranchNameForPlan(other, v, p) && IsBranchNameForPlan(other, v, q) ==> IsTimestampName(other, v)
  {
    hide Shaped, ToIso, IsoText, DateParse, RequestIdentity.IsUuid;
    if IsTimestampName(other, v) {
      assert v[..15] == PREFIX;
      assert |v| <= 48;
      assert IsBranchNameForPlan(other, v, "");
    } else {
      assert |PREFIX + ""| != 51;
      assert !IsBranchNameForPlan(other, v, "");
      forall p | v == PREFIX + p
        ensures p == v[15..]
      {}
      if IsBranchName(other, v) && v[..15] == PREFIX {
        assert v == PREFIX + v[15..];
        assert IsBranchNameForPlan(other, v, v[15..]);
      }
    }
  }

  const CAPITALS: string := "OMNIKIT-TOPICS-"

  lemma CapitalsInLower()
    ensures RequestIdentity.Lower(CAPITALS) == PREFIX && |CAPITALS| == |PREFIX| == 15
  {}

  lemma LowerJoined(a: string, b: string)
    ensures RequestIdentity.Lower(a + b) == RequestIdentity.Lower(a) + RequestIdentity.Lower(b)
  {}

  lemma LegacyWhenLower(v: string, id: string)
    requires RequestIdentity.Lower(v) == PREFIX + id && RequestIdentity.IsUuid(id) && id[14] == '4'
    ensures IsLegacyName(v)
  {
    var lower := RequestIdentity.Lower(v);
    assert lower[..15] == PREFIX && lower[15..] == id && lower[29] == id[14];
    hide RequestIdentity.Lower;
  }

  /** A historical name whose prefix is in capitals is recognised, and belongs to no plan. */
  lemma CapitalsBelongToNoPlan(other: string -> Option<int>, id: string)
    requires RequestIdentity.IsUuid(id) && id[14] == '4'
    ensures IsBranchName(other, CAPITALS + id) && forall plan :: !IsBranchNameForPlan(other, CAPITALS + id, plan)
  {
    var v := CAPITALS + id;
    CapitalsInLower();
    LowerJoined(CAPITALS, id);
    RequestIdentity.UuidIsPlain(id);
    LegacyWhenLower(v, id);
    PlansOfName(other, v);
    hide RequestIdentity.IsUuid, RequestIdentity.Lower, IsTimestampName, IsLegacyName;
    assert v[0] == 'O' && PREFIX[0] == 'o';
    assert v[..15] != PREFIX;
  }
}
