/** What every mutator of an identity number does to the record it holds,
    as a function of the old record: each validates its argument, replaces
    some fields, and recomputes the check digit. A failure leaves the
    record as it was (except in the date setter, which runs three setters
    one after another). */
module Rules {
  import opened Wrappers
  import opened Calendar
  import opened Codec
  import opened Arith

  /** True when a 29 February would be moved into a year that has none. */
  predicate LosesLeapDay(d: Date, year: int) {
    d.month == 2 && d.day == 29 && !IsLeap(year)
  }

  /** The record moved to date `d` and sequence `sequence` with the sex
      kept: the century digit is recomputed for the new year and the check
      digit refreshed. */
  function Moved(r: Rec, d: Date, sequence: int): (v: Rec)
    requires ValidRec(r) && ValidDate(d) && 1800 <= d.year <= 2199 && 0 <= sequence <= 999
    ensures ValidRec(v) && v.date == d && v.sequence == sequence && IsMale(v) == IsMale(r)
  {
    var century := CalculateCentury(d.year, IsMale(r));
    assert 1 <= century <= 8 && (d.year - 1800) / 100 == (century - 1) / 2;
    WithChecksum(Rec(century, d, sequence, r.checksum))
  }

  /** The century setter: a digit in 1..8, the two-digit year kept under the
      new era, and the new digit's parity taken as the sex. */
  function CenturySet(r: Rec, century: int): (res: Result<Rec>)
    requires ValidRec(r)
    ensures !(1 <= century <= 8) ==> res == Err(CenturyOutOfRange)
    ensures res.Ok? <==> 1 <= century <= 8 && !LosesLeapDay(r.date, CalculateYear(century, r.date.year))
    ensures res.Err? && 1 <= century <= 8 ==> res.error == InvalidDate
    ensures res.Ok? ==>
      && ValidRec(res.value)
      && res.value.century == century
      && res.value.date.year % 100 == r.date.year % 100
      && res.value.date.month == r.date.month
      && res.value.date.day == r.date.day
      && res.value.sequence == r.sequence
  {
    if !(1 <= century <= 8) then Err(CenturyOutOfRange)
    else
      var year := CalculateYear(century, r.date.year);
      YearOfCentury(century, r.date.year % 100);
      match ReplaceYear(r.date, year)
      case None => Err(InvalidDate)
      case Some(d) => Ok(WithChecksum(Rec(century, d, r.sequence, r.checksum)))
  }

  /** The year setter: a year in 1800..2199, the sex kept, the century digit
      recomputed for the new year. */
  function YearSet(r: Rec, year: int): (res: Result<Rec>)
    requires ValidRec(r)
    ensures !(1800 <= year <= 2199) ==> res == Err(YearOutOfRange)
    ensures res.Ok? <==> 1800 <= year <= 2199 && !LosesLeapDay(r.date, year)
    ensures res.Err? && 1800 <= year <= 2199 ==> res.error == InvalidDate
    ensures res.Ok? ==>
      && ValidRec(res.value)
      && res.value.date == Date(year, r.date.month, r.date.day)
      && res.value.sequence == r.sequence
      && IsMale(res.value) == IsMale(r)
  {
    if !(1800 <= year <= 2199) then Err(YearOutOfRange)
    else match ReplaceYear(r.date, year)
      case None => Err(InvalidDate)
      case Some(d) => Ok(Moved(r, d, r.sequence))
  }

  /** The month setter: only the month (and the check digit) change, and only
      when the day still exists in that month. */
  function MonthSet(r: Rec, month: int): (res: Result<Rec>)
    requires ValidRec(r)
    ensures res.Ok? <==> 1 <= month <= 12 && r.date.day <= DaysInMonth(r.date.year, month)
    ensures res.Err? ==> res.error == InvalidDate
    ensures res.Ok? ==>
      && ValidRec(res.value)
      && res.value == r.(date := r.date.(month := month), checksum := res.value.checksum)
  {
    match ReplaceMonth(r.date, month)
    case None => Err(InvalidDate)
    case Some(d) => Ok(WithChecksum(r.(date := d)))
  }

  /** The day setter: only the day (and the check digit) change, and only
      to a day of the record's month. */
  function DaySet(r: Rec, day: int): (res: Result<Rec>)
    requires ValidRec(r)
    ensures res.Ok? <==> 1 <= day <= DaysInMonth(r.date.year, r.date.month)
    ensures res.Err? ==> res.error == InvalidDate
    ensures res.Ok? ==>
      && ValidRec(res.value)
      && res.value == r.(date := r.date.(day := day), checksum := res.value.checksum)
  {
    match ReplaceDay(r.date, day)
    case None => Err(InvalidDate)
    case Some(d) => Ok(WithChecksum(r.(date := d)))
  }

  /** The sequence setter: a sequence in 0..999; nothing else but the check digit changes. */
  function SequenceSet(r: Rec, sequence: int): (res: Result<Rec>)
    requires ValidRec(r)
    ensures res.Ok? <==> 0 <= sequence <= 999
    ensures res.Err? ==> res.error == SequenceOutOfRange
    ensures res.Ok? ==>
      && ValidRec(res.value)
      && res.value == r.(sequence := sequence, checksum := res.value.checksum)
  {
    if !(0 <= sequence <= 999) then Err(SequenceOutOfRange)
    else Ok(WithChecksum(r.(sequence := sequence)))
  }

  /** The outcome of an operation that may stop half-way, and the record it leaves. */
  datatype Step = Step(outcome: Outcome, rec: Rec)

  /** The date setter as the library runs it: the year setter, then the
      month setter, then the day setter; a failing step leaves the earlier
      steps applied. */
  function DateSetSequential(r: Rec, d: Date): (st: Step)
    requires ValidRec(r) && ValidDate(d)
    ensures ValidRec(st.rec)
    ensures st.outcome.Pass? <==>
      && 1800 <= d.year <= 2199
      && r.date.day <= DaysInMonth(d.year, r.date.month)
      && r.date.day <= DaysInMonth(d.year, d.month)
    ensures st.outcome.Pass? ==>
      st.rec.date == d && st.rec.sequence == r.sequence && IsMale(st.rec) == IsMale(r)
    ensures !(1800 <= d.year <= 2199) ==> st == Step(Fail(YearOutOfRange), r)
    ensures 1800 <= d.year <= 2199 && LosesLeapDay(r.date, d.year) ==> st == Step(Fail(InvalidDate), r)
    ensures 1800 <= d.year <= 2199 && !LosesLeapDay(r.date, d.year) && st.outcome.Fail? ==>
      st == Step(Fail(InvalidDate), YearSet(r, d.year).value)
  {
    match YearSet(r, d.year)
    case Err(e) => Step(Fail(e), r)
    case Ok(r1) =>
      match MonthSet(r1, d.month)
      case Err(e) => Step(Fail(e), r1)
      case Ok(r2) =>
        match DaySet(r2, d.day)
        case Err(e) => Step(Fail(e), r2)
        case Ok(r3) => Step(Pass, r3)
  }

  /** The date setter as documented: the whole date at once, the sex kept
      and the century digit recomputed; it fails only for a year outside
      1800..2199. */
  function DateSet(r: Rec, d: Date): (res: Result<Rec>)
    requires ValidRec(r) && ValidDate(d)
    ensures res.Ok? <==> 1800 <= d.year <= 2199
    ensures res.Err? ==> res.error == YearOutOfRange
    ensures res.Ok? ==>
      && ValidRec(res.value)
      && res.value.date == d
      && res.value.sequence == r.sequence
      && IsMale(res.value) == IsMale(r)
  {
    if !(1800 <= d.year <= 2199) then Err(YearOutOfRange)
    else Ok(Moved(r, d, r.sequence))
  }

  /** Whenever the three-step setter succeeds it agrees with the whole-date setter. */
  lemma DateSetAgrees(r: Rec, d: Date)
    requires ValidRec(r) && ValidDate(d) && DateSetSequential(r, d).outcome.Pass?
    ensures DateSet(r, d) == Ok(DateSetSequential(r, d).rec)
  {
    var a, b := DateSet(r, d).value, DateSetSequential(r, d).rec;
    CenturyFromYear(a);
    CenturyFromYear(b);
    SameFieldsSameRec(a, b);
  }

  /** Moving the 31st of January to a February date: the three-step setter
      changes the year, then fails on the 31st of February, while the whole
      date is valid and the whole-date setter accepts it. */
  lemma DateSetSequentialFails(r: Rec)
    requires ValidRec(r) && r.date == Date(1970, 1, 31)
    ensures DateSetSequential(r, Date(1972, 2, 28)) == Step(Fail(InvalidDate), YearSet(r, 1972).value)
    ensures DateSetSequential(r, Date(1972, 2, 28)).rec.date == Date(1972, 1, 31)
    ensures DateSet(r, Date(1972, 2, 28)).Ok?
  {
    var r1 := YearSet(r, 1972).value;
    assert MonthSet(r1, 2).Err?;
  }

  // ---------------------------------------------------------------------
  // Negation

  /** Sex inversion through the century setter: an odd digit goes up by one,
      an even one down by one. */
  function Negated(r: Rec): (res: Result<Rec>)
    requires ValidRec(r)
    ensures res.Ok? ==> ValidRec(res.value)
  {
    if IsMale(r) then CenturySet(r, r.century + 1) else CenturySet(r, r.century - 1)
  }

  /** Inversion never fails on a valid record; it keeps the date and
      sequence, moves the century digit to its partner in the same era and
      flips the sex. */
  lemma NegatedSpec(r: Rec)
    requires ValidRec(r)
    ensures Negated(r).Ok?
    ensures Negated(r).value.date == r.date && Negated(r).value.sequence == r.sequence
    ensures Negated(r).value.century == (if IsMale(r) then r.century + 1 else r.century - 1)
    ensures IsMale(Negated(r).value) == !IsMale(r)
  {
    var c := if IsMale(r) then r.century + 1 else r.century - 1;
    YearFromCentury(r);
    assert CalculateYear(c, r.date.year) == r.date.year;
  }

  /** Inverting twice gives the record back. */
  lemma NegatedTwice(r: Rec)
    requires ValidRec(r)
    ensures Negated(r).Ok? && Negated(Negated(r).value) == Ok(r)
  {
    NegatedSpec(r);
    var n := Negated(r).value;
    NegatedSpec(n);
    SameFieldsSameRec(Negated(n).value, r);
  }

  // ---------------------------------------------------------------------
  // Creation

  /** The factory: year, then sequence, are validated; the century digit is
      the era's odd digit plus one for a female; the record is then read back
      from its value with the check digit recomputed. It fails exactly for a
      year outside 1800..2199 (checked first) or a sequence outside 0..999,
      and otherwise gives the valid record of that date, sequence and sex. */
  function Created(female: bool, d: Date, sequence: int): (res: Result<Rec>)
    requires ValidDate(d)
    ensures res.Ok? <==> 1800 <= d.year <= 2199 && 0 <= sequence <= 999
    ensures !(1800 <= d.year <= 2199) ==> res == Err(YearOutOfRange)
    ensures 1800 <= d.year <= 2199 && !(0 <= sequence <= 999) ==> res == Err(SequenceOutOfRange)
    ensures res.Ok? ==>
      && ValidRec(res.value)
      && res.value.date == d
      && res.value.sequence == sequence
      && IsFemale(res.value) == female
      && res.value.century == CalculateCentury(d.year, !female)
  {
    if !(1800 <= d.year <= 2199) then Err(YearOutOfRange)
    else if !(0 <= sequence <= 999) then Err(SequenceOutOfRange)
    else
      var era, f := (d.year - 1800) / 100, if female then 1 else 0;
      var century := era * 2 + 1 + f;
      DivModOf(century, era + f, 1 - f, 2);
      DivModOf(century - 1, era, f, 2);
      EncodeDecode(Rec(century, d, sequence, 0));
      ValidateFormat(ToInt(Rec(century, d, sequence, 0)), true)
  }

  // ---------------------------------------------------------------------
  // Stepping

  /** Where a record stands in birth order: day ordinal, then sequence. */
  function Position(r: Rec): (p: int)
    requires ValidDate(r.date)
  {
    ToOrdinal(r.date) * 1000 + r.sequence
  }

  /** Position of 1800-01-01 with sequence 0, the first identity number of a sex. */
  const FirstPosition := 657072000
  /** Position of 2199-12-31 with sequence 999, the last identity number of a sex. */
  const LastPosition := 803168999

  lemma BoundaryOrdinals()
    ensures ToOrdinal(Date(1800, 1, 1)) * 1000 == FirstPosition
    ensures ToOrdinal(Date(2199, 12, 31)) * 1000 + 999 == LastPosition
  {
  }

  /** Every valid record lies between the first and the last position. */
  lemma PositionInRange(r: Rec)
    requires ValidRec(r)
    ensures FirstPosition <= Position(r) <= LastPosition
  {
    YearRangeByOrdinal(r.date, 1800, 2199);
    BoundaryOrdinals();
  }

  /** A position names one date and one sequence. */
  lemma PositionFields(r: Rec, d: Date, sequence: int)
    requires ValidDate(r.date) && 0 <= r.sequence <= 999
    requires ValidDate(d) && 0 <= sequence <= 999
    requires Position(r) == ToOrdinal(d) * 1000 + sequence
    ensures r.date == d && r.sequence == sequence
  {
    DivModOf(Position(r), ToOrdinal(r.date), r.sequence, 1000);
    DivModOf(Position(r), ToOrdinal(d), sequence, 1000);
    OrdinalInjective(r.date, d);
  }

  /** Two valid records of the same sex at the same position are equal. */
  lemma PositionDetermines(a: Rec, b: Rec)
    requires ValidRec(a) && ValidRec(b) && IsMale(a) == IsMale(b) && Position(a) == Position(b)
    ensures a == b
  {
    PositionFields(a, b.date, b.sequence);
    CenturyFromYear(a);
    CenturyFromYear(b);
    SameFieldsSameRec(a, b);
  }

  /** Carrying the thousands of `r.sequence + n` into the day ordinal moves
      the position by `n`. */
  lemma CarryPosition(r: Rec, n: int, days: int, sequence: int)
    requires ValidDate(r.date) && days == (r.sequence + n) / 1000 && sequence == (r.sequence + n) % 1000
    ensures Position(r) + n == (ToOrdinal(r.date) + days) * 1000 + sequence
  {
  }

  /** A date that date arithmetic produced is in 1800..2199 exactly when its
      ordinal lies between those of the first and last days of that span. */
  lemma LandedYears(date: Option<Date>)
    requires date.Some? ==> ValidDate(date.value)
    ensures date.Some? ==>
      (1800 <= date.value.year <= 2199 <==>
       ToOrdinal(Date(1800, 1, 1)) <= ToOrdinal(date.value) <= ToOrdinal(Date(2199, 12, 31)))
  {
    if date.Some? {
      YearRangeByOrdinal(date.value, 1800, 2199);
    }
  }

  /** Adding `n`: the sequence moves by `n` modulo 1000 and carries whole
      days into the date; the new year must be in 1800..2199; the sex is kept
      and the century digit recomputed. The result is `n` positions further
      on, and it exists exactly when that position is inside the valid span;
      date arithmetic overflows only when the new date would leave the
      years 1..9999. */
  function Added(r: Rec, n: int): (res: Result<Rec>)
    requires ValidRec(r)
    ensures res.Ok? <==> FirstPosition <= Position(r) + n <= LastPosition
    ensures res.Ok? ==>
      ValidRec(res.value) && Position(res.value) == Position(r) + n && IsMale(res.value) == IsMale(r)
    ensures res == Err(DateOverflow) <==> !(1000 <= Position(r) + n < (MaxOrdinal + 1) * 1000)
    ensures res.Err? ==> res.error == YearOutOfRange || res.error == DateOverflow
  {
    var days, sequence := (r.sequence + n) / 1000, (r.sequence + n) % 1000;
    CarryPosition(r, n, days, sequence);
    BoundaryOrdinals();
    LandedYears(AddDays(r.date, days));
    match AddDays(r.date, days)
    case None => Err(DateOverflow)
    case Some(d) =>
      if !(1800 <= d.year <= 2199) then Err(YearOutOfRange)
      else Ok(Moved(r, d, sequence))
  }

  /** Adding is pinned down by its contract: an outcome and a record that
      meet it are those of `Added`. */
  lemma AddedByPosition(r: Rec, n: int, outcome: Outcome, r': Rec)
    requires ValidRec(r)
    requires outcome.Pass? <==> FirstPosition <= Position(r) + n <= LastPosition
    requires outcome.Pass? ==> ValidRec(r') && IsMale(r') == IsMale(r) && Position(r') == Position(r) + n
    requires outcome.Fail? ==> r' == r
    requires outcome == Fail(DateOverflow) <==> !(1000 <= Position(r) + n < (MaxOrdinal + 1) * 1000)
    requires outcome.Fail? ==> outcome.error == YearOutOfRange || outcome.error == DateOverflow
    ensures outcome == Added(r, n).Status() && r' == Added(r, n).GetOr(r)
  {
    if outcome.Pass? {
      PositionDetermines(r', Added(r, n).value);
    }
  }

  /** What is known of adding `a` is known of adding any `b` equal to it;
      lets a caller match `Added` terms whose amounts are equal only by
      arithmetic. */
  lemma AddedSameAmount(r: Rec, a: int, b: int, outcome: Outcome, r': Rec)
    requires ValidRec(r) && a == b
    requires outcome == Added(r, a).Status() && r' == Added(r, a).GetOr(r)
    ensures outcome == Added(r, b).Status() && r' == Added(r, b).GetOr(r)
  {
  }

  /** Steps of one never overflow the date: iteration only ends by a range failure. */
  lemma StepNeverOverflows(r: Rec, n: int)
    requires ValidRec(r) && -1 <= n <= 1
    ensures Added(r, n) != Err(DateOverflow)
  {
    PositionInRange(r);
  }

  /** Subtracting what was added gives the record back. */
  lemma AddedInverse(r: Rec, n: int)
    requires ValidRec(r) && Added(r, n).Ok?
    ensures Added(Added(r, n).value, -n) == Ok(r)
  {
    var p := Added(r, n).value;
    PositionInRange(r);
    PositionDetermines(Added(p, -n).value, r);
  }

  /** Within a day, adding one is the same as setting the next sequence number. */
  lemma AddedWithinDay(r: Rec)
    requires ValidRec(r) && r.sequence < 999
    ensures Added(r, 1) == SequenceSet(r, r.sequence + 1)
  {
    var e := SequenceSet(r, r.sequence + 1).value;
    PositionInRange(r);
    assert Position(r) + 1 <= LastPosition by {
      DivModOf(Position(r), ToOrdinal(r.date), r.sequence, 1000);
      DivModOf(LastPosition, LastPosition / 1000, 999, 1000);
    }
    var v := Added(r, 1).value;
    assert v.date == r.date && v.sequence == r.sequence + 1 by {
      PositionFields(v, r.date, r.sequence + 1);
    }
    CenturyFromYear(v);
    CenturyFromYear(r);
    SameFieldsSameRec(v, e);
  }

  /** Adding one to the last number of a day moves to sequence 0 of the
      next day, here across a change of century digit. */
  lemma AddedCarriesIntoNextYear(r: Rec)
    requires ValidRec(r) && IsMale(r) && r.date == Date(1999, 12, 31) && r.sequence == 999
    ensures Added(r, 1).Ok?
    ensures Added(r, 1).value.date == Date(2000, 1, 1)
    ensures Added(r, 1).value.sequence == 0
    ensures Added(r, 1).value.century == 5
    ensures IsMale(Added(r, 1).value)
  {
    var next := Date(2000, 1, 1);
    assert ToOrdinal(next) == ToOrdinal(r.date) + 1 by {
      YearStep(1999);
    }
    assert Added(r, 1).Ok? by {
      PositionInRange(r);
      BoundaryOrdinals();
      OrdinalBounds(next, 1800, 2199);
    }
    var v := Added(r, 1).value;
    assert v.date == next && v.sequence == 0 by {
      PositionFields(v, next, 0);
    }
    CenturyFromYear(v);
    assert v.century == CalculateCentury(2000, true) == 5;
  }

  // ---------------------------------------------------------------------
  // Enumeration

  /** `rs` is a run of valid records of one sex at consecutive positions
      from `start`, going up or going down. */
  ghost predicate Run(rs: seq<Rec>, male: bool, start: int, up: bool)
    decreases |rs|
  {
    |rs| == 0 ||
    (&& ValidRec(rs[0])
     && IsMale(rs[0]) == male
     && Position(rs[0]) == start
     && Run(rs[1..], male, if up then start + 1 else start - 1, up))
  }

  /** Every element of a run is valid, of the run's sex, and `i` positions
      from its start. */
  lemma {:induction false} RunAt(rs: seq<Rec>, male: bool, start: int, up: bool, i: int)
    requires Run(rs, male, start, up) && 0 <= i < |rs|
    ensures ValidRec(rs[i]) && IsMale(rs[i]) == male
    ensures Position(rs[i]) == (if up then start + i else start - i)
    decreases i
  {
    if i > 0 {
      var next := if up then start + 1 else start - 1;
      RunAt(rs[1..], male, next, up, i - 1);
      assert rs[1..][i - 1] == rs[i];
      assert Position(rs[i]) == (if up then next + (i - 1) else next - (i - 1));
    }
  }

  /** Every element of a run is valid. */
  lemma RunValid(rs: seq<Rec>, male: bool, start: int, up: bool)
    requires Run(rs, male, start, up)
    ensures forall i :: 0 <= i < |rs| ==> ValidRec(rs[i])
  {
    forall i | 0 <= i < |rs| {
      RunAt(rs, male, start, up, i);
    }
  }

  /** A record in front of a run that continues from its position is a run. */
  lemma RunCons(r: Rec, rest: seq<Rec>, male: bool, up: bool)
    requires ValidRec(r) && IsMale(r) == male
    requires Run(rest, male, if up then Position(r) + 1 else Position(r) - 1, up)
    ensures Run([r] + rest, male, Position(r), up)
  {
    assert ([r] + rest)[1..] == rest;
  }

  /** The values forward iteration yields from `r`: `r` itself while adding
      one still succeeds, then the same from the next record; one value for
      each position from `r` up to, but not including, the last one. */
  function Ascending(r: Rec): (rs: seq<Rec>)
    requires ValidRec(r)
    ensures |rs| == LastPosition - Position(r)
    decreases LastPosition - Position(r)
  {
    PositionInRange(r);
    match Added(r, 1)
    case Err(_) => []
    case Ok(p) => [r] + Ascending(p)
  }

  /** The values forward iteration yields are the records of the sex of `r`
      at consecutive positions from `r` upwards. */
  lemma {:induction false} AscendingRun(r: Rec)
    requires ValidRec(r)
    ensures Run(Ascending(r), IsMale(r), Position(r), true)
    decreases LastPosition - Position(r)
  {
    PositionInRange(r);
    if Added(r, 1).Ok? {
      var p := Added(r, 1).value;
      AscendingRun(p);
      RunCons(r, Ascending(p), IsMale(r), true);
    }
  }

  /** The values reverse iteration yields from `r`: `r` itself while
      subtracting one still succeeds, then the same from the previous record;
      one value for each position from `r` down to, but not including, the
      first one. */
  function Descending(r: Rec): (rs: seq<Rec>)
    requires ValidRec(r)
    ensures |rs| == Position(r) - FirstPosition
    decreases Position(r) - FirstPosition
  {
    PositionInRange(r);
    match Added(r, -1)
    case Err(_) => []
    case Ok(p) => [r] + Descending(p)
  }

  /** The values reverse iteration yields are the records of the sex of `r`
      at consecutive positions from `r` downwards. */
  lemma {:induction false} DescendingRun(r: Rec)
    requires ValidRec(r)
    ensures Run(Descending(r), IsMale(r), Position(r), false)
    decreases Position(r) - FirstPosition
  {
    PositionInRange(r);
    if Added(r, -1).Ok? {
      var p := Added(r, -1).value;
      DescendingRun(p);
      RunCons(r, Descending(p), IsMale(r), false);
    }
  }

  /** The descending run of a record is the record followed by the run of
      the record one position below it, of the same sex. */
  lemma DescendingFrom(r: Rec, p: Rec)
    requires ValidRec(r) && ValidRec(p) && IsMale(p) == IsMale(r) && Position(p) == Position(r) - 1
    ensures Descending(r) == [r] + Descending(p)
  {
    PositionInRange(p);
    assert Added(r, -1).Ok?;
    var q := Added(r, -1).value;
    PositionDetermines(q, p);
    assert Descending(r) == [r] + Descending(q);
  }

  /** Moving one element from the front of the rest to the end of the prefix. */
  lemma ConcatShift<T>(a: seq<T>, x: T, b: seq<T>)
    ensures a + ([x] + b) == (a + [x]) + b
  {
  }

  /** Forward iteration from the last day of 2199 yields the numbers up to,
      but not including, sequence 999; reverse iteration from the first day
      of 1800 yields the numbers down to, but not including, sequence 0. */
  lemma EnumerationEnds(r: Rec)
    requires ValidRec(r)
    ensures r.date == Date(2199, 12, 31) ==> |Ascending(r)| == 999 - r.sequence
    ensures r.date == Date(1800, 1, 1) ==> |Descending(r)| == r.sequence
  {
    BoundaryOrdinals();
  }
}
