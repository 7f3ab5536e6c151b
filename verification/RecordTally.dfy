/** Counting the records of a collection: which are taken, which are excluded, and what is summed over them. */
module RecordTally {
  import opened Options

  datatype Exclusion =
    | InvalidRecords
    | DuplicateRecords
    | TotalChanged
    | StartMismatch
    | CursorInvalid
    | EndedBeforeTotal
    | PageLimit
    | NotReconciled
    | SubsequentPage(code: string)

  /** How records of type R are identified and summed into a T; a record may be refused either way. */
  datatype Reading<!T, !R> = Reading(key: R -> Option<string>, consume: (T, R) -> Option<T>)

  datatype Tally<T> = Tally(seen: set<string>, summary: T, included: nat, exclusions: set<Exclusion>)

  function Empty<T>(initial: T): Tally<T> {
    Tally({}, initial, 0, {})
  }

  function Take<T, R>(how: Reading<T, R>, t: Tally<T>, row: R): Tally<T> {
    match how.key(row)
    case None => t.(exclusions := t.exclusions + {InvalidRecords})
    case Some(k) =>
      if k in t.seen then t.(exclusions := t.exclusions + {DuplicateRecords})
      else
        match how.consume(t.summary, row)
        case None => t.(seen := t.seen + {k}, exclusions := t.exclusions + {InvalidRecords})
        case Some(s) => Tally(t.seen + {k}, s, t.included + 1, t.exclusions)
  }

  function TakeAll<T, R>(how: Reading<T, R>, t: Tally<T>, rows: seq<R>): Tally<T> {
    if rows == [] then t else Take(how, TakeAll(how, t, rows[..|rows| - 1]), rows[|rows| - 1])
  }

  method TakeRows<T, R>(how: Reading<T, R>, t: Tally<T>, rows: seq<R>) returns (r: Tally<T>)
    ensures r == TakeAll(how, t, rows)
  {
    r := t;
    for i := 0 to |rows|
      invariant r == TakeAll(how, t, rows[..i])
    {
      assert rows[..i + 1][..i] == rows[..i];
      r := Take(how, r, rows[i]);
    }
    assert rows[..|rows|] == rows;
  }

  // ---------- what a tally means ----------

  ghost predicate DistinctKeys<T, R>(how: Reading<T, R>, rows: seq<R>) {
    && (forall i :: 0 <= i < |rows| ==> how.key(rows[i]).Some?)
    && (forall i, j :: 0 <= i < j < |rows| ==> how.key(rows[i]) != how.key(rows[j]))
  }

  /** The sum over all rows, when none is refused. */
  function Sum<T, R>(how: Reading<T, R>, initial: T, rows: seq<R>): Option<T> {
    if rows == [] then Some(initial)
    else
      match Sum(how, initial, rows[..|rows| - 1])
      case None => None
      case Some(s) => how.consume(s, rows[|rows| - 1])
  }

  /** The rows that count, in order. */
  function Accepted<T, R>(how: Reading<T, R>, initial: T, rows: seq<R>): seq<R> {
    if rows == [] then []
    else
      var front := rows[..|rows| - 1];
      var t := TakeAll(how, Empty(initial), front);
      if Take(how, t, rows[|rows| - 1]).included > t.included then Accepted(how, initial, front) + [rows[|rows| - 1]]
      else Accepted(how, initial, front)
  }

  ghost predicate KeysIn<T, R>(how: Reading<T, R>, rows: seq<R>, seen: set<string>) {
    forall row :: row in rows ==> how.key(row).Some? && how.key(row).value in seen
  }

  /** The summary is the sum over exactly the rows that count; they have different keys, and `included` is their number. */
  lemma {:induction false} SummaryIsSumOfAccepted<T, R>(how: Reading<T, R>, initial: T, rows: seq<R>)
    ensures var t, taken := TakeAll(how, Empty(initial), rows), Accepted(how, initial, rows);
            && Sum(how, initial, taken) == Some(t.summary)
            && |taken| == t.included <= |rows|
            && DistinctKeys(how, taken) && KeysIn(how, taken, t.seen)
  {
    hide DistinctKeys, KeysIn, Take;
    if rows == [] {
      NothingTaken(how, initial);
    } else {
      var front, last := rows[..|rows| - 1], rows[|rows| - 1];
      SummaryIsSumOfAccepted(how, initial, front);
      AcceptedGrows(how, initial, front, last);
      assert rows == front + [last];
      hide TakeAll, Accepted, Sum;
      TakeKeepsSum(how, initial, TakeAll(how, Empty(initial), front), Accepted(how, initial, front), last);
    }
  }

  lemma NothingTaken<T, R>(how: Reading<T, R>, initial: T)
    ensures Sum(how, initial, []) == Some(initial) && DistinctKeys(how, []) && KeysIn(how, [], {})
  {}

  /** What taking one row does. */
  lemma TakeMeans<T, R>(how: Reading<T, R>, t: Tally<T>, row: R)
    ensures var next := Take(how, t, row);
            && t.seen <= next.seen && t.included <= next.included <= t.included + 1
            && (next.included > t.included <==> IsTaken(how, t, row))
            && (IsTaken(how, t, row) ==>
                  how.key(row).value in next.seen && Some(next.summary) == how.consume(t.summary, row) && next.exclusions == t.exclusions)
            && (!IsTaken(how, t, row) ==> next.summary == t.summary && next.exclusions != {})
            && next.exclusions <= t.exclusions + {InvalidRecords, DuplicateRecords}
  {}

  predicate IsTaken<T, R>(how: Reading<T, R>, t: Tally<T>, row: R) {
    how.key(row).Some? && how.key(row).value !in t.seen && how.consume(t.summary, row).Some?
  }

  lemma TakeKeepsSum<T, R>(how: Reading<T, R>, initial: T, t: Tally<T>, taken: seq<R>, last: R)
    requires Sum(how, initial, taken) == Some(t.summary) && |taken| == t.included
    requires DistinctKeys(how, taken) && KeysIn(how, taken, t.seen)
    ensures var next := Take(how, t, last);
            var more := taken + if next.included > t.included then [last] else [];
            && Sum(how, initial, more) == Some(next.summary) && |more| == next.included <= t.included + 1
            && DistinctKeys(how, more) && KeysIn(how, more, next.seen)
  {
    hide *;
    var next := Take(how, t, last);
    TakeMeans(how, t, last);
    MoreSeen(how, taken, t.seen, next.seen);
    if next.included > t.included {
      SumGrows(how, initial, taken, last);
      NewKey(how, taken, t, next.seen, last);
    } else {
      assert taken + [] == taken;
    }
  }

  lemma MoreSeen<T, R>(how: Reading<T, R>, rows: seq<R>, seen: set<string>, more: set<string>)
    requires KeysIn(how, rows, seen) && seen <= more
    ensures KeysIn(how, rows, more)
  {}

  lemma NewKey<T, R>(how: Reading<T, R>, rows: seq<R>, t: Tally<T>, seen: set<string>, last: R)
    requires DistinctKeys(how, rows) && KeysIn(how, rows, t.seen) && IsTaken(how, t, last)
    requires t.seen <= seen && how.key(last).value in seen
    ensures DistinctKeys(how, rows + [last]) && KeysIn(how, rows + [last], seen)
  {
    KeysGrow(how, rows, last);
    assert forall i :: 0 <= i < |rows| ==> rows[i] in rows;
    assert forall row :: row in rows + [last] ==> row in rows || row == last;
    hide DistinctKeys;
  }

  lemma AcceptedGrows<T, R>(how: Reading<T, R>, initial: T, front: seq<R>, last: R)
    ensures var t, rows := TakeAll(how, Empty(initial), front), front + [last];
            && TakeAll(how, Empty(initial), rows) == Take(how, t, last)
            && Accepted(how, initial, rows)
               == Accepted(how, initial, front) + if Take(how, t, last).included > t.included then [last] else []
  {
    assert (front + [last])[..|front|] == front;
    hide Take;
  }

  lemma SumGrows<T, R>(how: Reading<T, R>, initial: T, rows: seq<R>, last: R)
    ensures Sum(how, initial, rows + [last])
            == match Sum(how, initial, rows) case None => None case Some(s) => how.consume(s, last)
  {
    assert (rows + [last])[..|rows|] == rows;
  }

  lemma {:induction false} SeenAreKeys<T, R>(how: Reading<T, R>, initial: T, rows: seq<R>)
    ensures forall k :: k in TakeAll(how, Empty(initial), rows).seen <==> exists i :: 0 <= i < |rows| && how.key(rows[i]) == Some(k)
  {
    if rows != [] {
      SeenAreKeys(how, initial, rows[..|rows| - 1]);
    }
  }

  lemma KeysGrow<T, R>(how: Reading<T, R>, rows: seq<R>, last: R)
    ensures DistinctKeys(how, rows + [last])
            <==> DistinctKeys(how, rows) && how.key(last).Some? && !exists i :: 0 <= i < |rows| && how.key(rows[i]) == how.key(last)
  {
    var all := rows + [last];
    assert forall i :: 0 <= i < |rows| ==> all[i] == rows[i];
    assert all[|rows|] == last;
  }

  /** Nothing is excluded exactly when every row has a key of its own and none is refused. */
  lemma {:induction false} NothingExcluded<T, R>(how: Reading<T, R>, initial: T, rows: seq<R>)
    ensures var t := TakeAll(how, Empty(initial), rows);
            && (t.exclusions == {} <==> DistinctKeys(how, rows) && Sum(how, initial, rows).Some?)
            && (t.exclusions == {} <==> t.included == |rows|)
            && (t.exclusions == {} ==> Sum(how, initial, rows) == Some(t.summary))
            && t.exclusions <= {InvalidRecords, DuplicateRecords}
  {
    hide DistinctKeys, KeysIn, Take, IsTaken;
    if rows == [] {
      NothingTaken(how, initial);
    } else {
      var front, last := rows[..|rows| - 1], rows[|rows| - 1];
      var t := TakeAll(how, Empty(initial), front);
      NothingExcluded(how, initial, front);
      SummaryIsSumOfAccepted(how, initial, front);
      AcceptedGrows(how, initial, front, last);
      SumGrows(how, initial, front, last);
      assert rows == front + [last];
      hide TakeAll, Accepted, Sum;
      TakeMeans(how, t, last);
      if t.exclusions == {} {
        TakenIffNew(how, initial, front, last);
      }
      DistinctFront(how, front, last);
    }
  }

  lemma DistinctFront<T, R>(how: Reading<T, R>, rows: seq<R>, last: R)
    ensures DistinctKeys(how, rows + [last]) ==> DistinctKeys(how, rows)
  {
    KeysGrow(how, rows, last);
  }

  lemma TakenIffNew<T, R>(how: Reading<T, R>, initial: T, rows: seq<R>, last: R)
    requires DistinctKeys(how, rows)
    ensures var t := TakeAll(how, Empty(initial), rows);
            IsTaken(how, t, last) <==> DistinctKeys(how, rows + [last]) && how.consume(t.summary, last).Some?
  {
    SeenAreKeys(how, initial, rows);
    KeysGrow(how, rows, last);
    hide DistinctKeys, TakeAll;
  }

  // ---------- why a record is left out ----------

  /** Row i has no key, or is the first with its key and refused after the rows before it. */
  predicate IsInvalid<T, R>(how: Reading<T, R>, initial: T, rows: seq<R>, i: nat) {
    && i < |rows|
    && (how.key(rows[i]).None?
        || ((forall j :: 0 <= j < i ==> how.key(rows[j]) != how.key(rows[i]))
            && how.consume(TakeAll(how, Empty(initial), rows[..i]).summary, rows[i]).None?))
  }

  /** Row i has the key of a row before it, whether that one counted or was refused. */
  predicate IsRepeated<T, R>(how: Reading<T, R>, rows: seq<R>, i: nat) {
    i < |rows| && how.key(rows[i]).Some? && exists j :: 0 <= j < i && how.key(rows[j]) == how.key(rows[i])
  }

  ghost predicate SomeInvalid<T, R>(how: Reading<T, R>, initial: T, rows: seq<R>) {
    exists i :: IsInvalid(how, initial, rows, i)
  }

  ghost predicate SomeRepeated<T, R>(how: Reading<T, R>, rows: seq<R>) {
    exists i :: IsRepeated(how, rows, i)
  }

  lemma InvalidGrows<T, R>(how: Reading<T, R>, initial: T, rows: seq<R>, last: R)
    ensures SomeInvalid(how, initial, rows + [last])
            <==> SomeInvalid(how, initial, rows) || IsInvalid(how, initial, rows + [last], |rows|)
    ensures SomeRepeated(how, rows + [last]) <==> SomeRepeated(how, rows) || IsRepeated(how, rows + [last], |rows|)
  {
    hide TakeAll;
    var all := rows + [last];
    forall i: nat | i < |rows|
      ensures IsInvalid(how, initial, all, i) <==> IsInvalid(how, initial, rows, i)
      ensures IsRepeated(how, all, i) <==> IsRepeated(how, rows, i)
    {
      assert all[..i] == rows[..i];
      assert forall j :: 0 <= j <= i ==> all[j] == rows[j];
    }
    hide IsInvalid, IsRepeated;
    if SomeInvalid(how, initial, rows) {
      var i :| IsInvalid(how, initial, rows, i);
      InvalidIsARow(how, initial, rows, i);
      assert IsInvalid(how, initial, all, i);
    }
    if SomeInvalid(how, initial, all) {
      var i :| IsInvalid(how, initial, all, i);
      InvalidIsARow(how, initial, all, i);
      assert i == |rows| || IsInvalid(how, initial, rows, i);
    }
    if SomeRepeated(how, rows) {
      var i :| IsRepeated(how, rows, i);
      RepeatedIsARow(how, rows, i);
      assert IsRepeated(how, all, i);
    }
    if SomeRepeated(how, all) {
      var i :| IsRepeated(how, all, i);
      RepeatedIsARow(how, all, i);
      assert i == |rows| || IsRepeated(how, rows, i);
    }
  }

  lemma InvalidIsARow<T, R>(how: Reading<T, R>, initial: T, rows: seq<R>, i: nat)
    requires IsInvalid(how, initial, rows, i)
    ensures i < |rows|
  {}

  lemma RepeatedIsARow<T, R>(how: Reading<T, R>, rows: seq<R>, i: nat)
    requires IsRepeated(how, rows, i)
    ensures i < |rows|
  {}

  /** What one row adds to the findings and to the rows that count. */
  lemma LastRow<T, R>(how: Reading<T, R>, initial: T, rows: seq<R>, last: R)
    ensures var all, t := rows + [last], TakeAll(how, Empty(initial), rows);
            var invalid, repeated := IsInvalid(how, initial, all, |rows|), IsRepeated(how, all, |rows|);
            && !(invalid && repeated)
            && (Take(how, t, last).included > t.included <==> !invalid && !repeated)
            && Take(how, t, last).exclusions
               == t.exclusions + (if invalid then {InvalidRecords} else {}) + (if repeated then {DuplicateRecords} else {})
  {
    SeenAreKeys(how, initial, rows);
    hide TakeAll;
    var all := rows + [last];
    assert all[..|rows|] == rows && all[|rows|] == last;
    assert forall j :: 0 <= j < |rows| ==> all[j] == rows[j];
  }

  /** A record is reported invalid, or repeated, exactly when one is. */
  lemma {:induction false} ExclusionsExactly<T, R>(how: Reading<T, R>, initial: T, rows: seq<R>)
    ensures var t := TakeAll(how, Empty(initial), rows);
            && (InvalidRecords in t.exclusions <==> SomeInvalid(how, initial, rows))
            && (DuplicateRecords in t.exclusions <==> SomeRepeated(how, rows))
  {
    hide SomeInvalid, SomeRepeated, Take;
    if rows == [] {
      NothingExcludedYet(how, initial);
    } else {
      var front, last := rows[..|rows| - 1], rows[|rows| - 1];
      assert rows == front + [last];
      ExclusionsExactly(how, initial, front);
      AcceptedGrows(how, initial, front, last);
      hide TakeAll, IsInvalid, IsRepeated;
      LastRow(how, initial, front, last);
      InvalidGrows(how, initial, front, last);
    }
  }

  lemma NothingExcludedYet<T, R>(how: Reading<T, R>, initial: T)
    ensures !SomeInvalid(how, initial, []) && !SomeRepeated(how, [])
  {}

  /** A row counts exactly when it is neither. */
  lemma CountsExactly<T, R>(how: Reading<T, R>, initial: T, rows: seq<R>, last: R)
    ensures var all := rows + [last];
            Accepted(how, initial, all)
            == Accepted(how, initial, rows)
               + if IsInvalid(how, initial, all, |rows|) || IsRepeated(how, all, |rows|) then [] else [last]
  {
    AcceptedGrows(how, initial, rows, last);
    LastRow(how, initial, rows, last);
    hide Accepted, IsInvalid, IsRepeated, Take, TakeAll;
  }
}
