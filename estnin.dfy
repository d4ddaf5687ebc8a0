/** The identity-number object: it holds one record and changes it in
    place. Readers and comparisons go through the eleven-digit value; every
    setter validates, writes the new fields and then recomputes the check
    digit; adding steps through birth order; iteration copies the object
    and steps it. Each method is proved against the function in `Rules`
    that says what it does to the record. */
module EstNinClass {
  import opened Wrappers
  import opened Calendar
  import opened Codec
  import opened Rules
  import opened Checksum

  class EstNin {
    /** Century digit, birth date, sequence and check digit. */
    var rec: Rec

    ghost predicate Valid()
      reads this
    {
      ValidRec(rec)
    }

    /** An object holding a record already known to be valid. */
    constructor Of(r: Rec)
      requires ValidRec(r)
      ensures Valid() && rec == r
    {
      rec := r;
    }

    /** Reading an integer into a new object; it fails exactly as reading does. */
    static method Parse(v: int, setChecksum: bool) returns (res: Result<EstNin>)
      ensures res.Err? <==> ValidateFormat(v, setChecksum).Err?
      ensures res.Err? ==> res.error == ValidateFormat(v, setChecksum).error
      ensures res.Ok? ==>
        && fresh(res.value)
        && res.value.Valid()
        && res.value.rec == ValidateFormat(v, setChecksum).value
    {
      var decoded := ValidateFormat(v, setChecksum);
      if decoded.Err? {
        return Err(decoded.error);
      }
      DecodeSound(v, setChecksum);
      var n := new EstNin.Of(decoded.value);
      res := Ok(n);
    }

    /** Creating from sex, birth date and sequence: the year and the sequence
        are checked, the century digit computed, and the record read back
        from its value with the check digit recomputed. */
    static method Create(female: bool, d: Date, sequence: int) returns (res: Result<EstNin>)
      requires ValidDate(d)
      ensures res.Err? <==> Created(female, d, sequence).Err?
      ensures res.Err? ==> res.error == Created(female, d, sequence).error
      ensures res.Ok? ==>
        && fresh(res.value)
        && res.value.Valid()
        && res.value.rec == Created(female, d, sequence).value
    {
      if !(1800 <= d.year <= 2199) {
        return Err(YearOutOfRange);
      }
      if !(0 <= sequence <= 999) {
        return Err(SequenceOutOfRange);
      }
      var century := (d.year - 1800) / 100 * 2 + 1 + (if female then 1 else 0);
      assert Created(female, d, sequence) == ValidateFormat(ToInt(Rec(century, d, sequence, 0)), true);
      res := Parse(ToInt(Rec(century, d, sequence, 0)), true);
    }

    /** The eleven-digit value; reading it back gives this record. */
    function Value(): (v: int)
      reads this
      requires Valid()
      ensures Min <= v <= Max
      ensures ValidateFormat(v, false) == Ok(rec)
    {
      ValidRecInRange(rec);
      EncodeDecode(rec);
      ToInt(rec)
    }

    /** A new object read back from this one's value. */
    method Clone() returns (c: EstNin)
      requires Valid()
      ensures fresh(c) && c.Valid() && c.rec == rec
    {
      c := new EstNin.Of(ValidateFormat(Value(), false).value);
    }

    /** Value order is field order: century digit, date, sequence, check digit. */
    predicate Less(other: EstNin)
      reads this, other
      requires Valid() && other.Valid()
      ensures Less(other) <==> KeyLess(rec, other.rec)
    {
      IntOrder(rec, other.rec);
      Value() < other.Value()
    }

    predicate LessOrEqual(other: EstNin)
      reads this, other
      requires Valid() && other.Valid()
      ensures LessOrEqual(other) <==> KeyLess(rec, other.rec) || rec == other.rec
    {
      IntOrder(rec, other.rec);
      ToIntEqual(rec, other.rec);
      Value() <= other.Value()
    }

    /** Equal values are equal records. */
    predicate Equal(other: EstNin)
      reads this, other
      requires Valid() && other.Valid()
      ensures Equal(other) <==> rec == other.rec
    {
      ToIntEqual(rec, other.rec);
      Value() == other.Value()
    }

    /** A male holds the odd century digit of his birth year. */
    predicate Male()
      reads this
      requires Valid()
      ensures Male() <==> rec.century == CalculateCentury(rec.date.year, true)
    {
      CenturyFromYear(rec);
      rec.century % 2 == 1
    }

    /** A female holds the even century digit of her birth year. */
    predicate Female()
      reads this
      requires Valid()
      ensures Female() <==> rec.century == CalculateCentury(rec.date.year, false)
    {
      CenturyFromYear(rec);
      rec.century % 2 == 0
    }

    /** Recomputes the check digit from the other fields. */
    method UpdateChecksum()
      requires Shaped(rec)
      modifies this
      ensures rec == WithChecksum(old(rec))
    {
      rec := rec.(checksum := CalculateChecksum(ToInt(rec)));
    }

    /** The century setter. */
    method SetCentury(century: int) returns (outcome: Outcome)
      requires Valid()
      modifies this
      ensures Valid()
      ensures outcome == CenturySet(old(rec), century).Status()
      ensures rec == CenturySet(old(rec), century).GetOr(old(rec))
    {
      if !(1 <= century <= 8) {
        return Fail(CenturyOutOfRange);
      }
      var year := CalculateYear(century, rec.date.year);
      var date := ReplaceYear(rec.date, year);
      if date.None? {
        return Fail(InvalidDate);
      }
      YearOfCentury(century, rec.date.year % 100);
      rec := rec.(century := century, date := date.value);
      UpdateChecksum();
      outcome := Pass;
    }

    /** The year setter. */
    method SetYear(year: int) returns (outcome: Outcome)
      requires Valid()
      modifies this
      ensures Valid()
      ensures outcome == YearSet(old(rec), year).Status()
      ensures rec == YearSet(old(rec), year).GetOr(old(rec))
    {
      if !(1800 <= year <= 2199) {
        return Fail(YearOutOfRange);
      }
      var date := ReplaceYear(rec.date, year);
      if date.None? {
        return Fail(InvalidDate);
      }
      var century := CalculateCentury(year, IsMale(rec));
      rec := rec.(century := century, date := date.value);
      UpdateChecksum();
      outcome := Pass;
    }

    /** The month setter. */
    method SetMonth(month: int) returns (outcome: Outcome)
      requires Valid()
      modifies this
      ensures Valid()
      ensures outcome == MonthSet(old(rec), month).Status()
      ensures rec == MonthSet(old(rec), month).GetOr(old(rec))
    {
      var date := ReplaceMonth(rec.date, month);
      if date.None? {
        return Fail(InvalidDate);
      }
      rec := rec.(date := date.value);
      UpdateChecksum();
      outcome := Pass;
    }

    /** The day setter. */
    method SetDay(day: int) returns (outcome: Outcome)
      requires Valid()
      modifies this
      ensures Valid()
      ensures outcome == DaySet(old(rec), day).Status()
      ensures rec == DaySet(old(rec), day).GetOr(old(rec))
    {
      var date := ReplaceDay(rec.date, day);
      if date.None? {
        return Fail(InvalidDate);
      }
      rec := rec.(date := date.value);
      UpdateChecksum();
      outcome := Pass;
    }

    /** The sequence setter. */
    method SetSequence(sequence: int) returns (outcome: Outcome)
      requires Valid()
      modifies this
      ensures Valid()
      ensures outcome == SequenceSet(old(rec), sequence).Status()
      ensures rec == SequenceSet(old(rec), sequence).GetOr(old(rec))
    {
      if !(0 <= sequence <= 999) {
        return Fail(SequenceOutOfRange);
      }
      rec := rec.(sequence := sequence);
      UpdateChecksum();
      outcome := Pass;
    }

    /** The date setter as the library runs it: the year, month and day
        setters in turn, stopping at the first that fails and keeping what
        the earlier ones wrote. */
    method SetDateInSteps(d: Date) returns (outcome: Outcome)
      requires Valid() && ValidDate(d)
      modifies this
      ensures Valid()
      ensures Step(outcome, rec) == DateSetSequential(old(rec), d)
    {
      outcome := SetYear(d.year);
      if outcome.Fail? {
        return;
      }
      outcome := SetMonth(d.month);
      if outcome.Fail? {
        return;
      }
      outcome := SetDay(d.day);
    }

    /** The date setter as documented: the whole date written at once, the
        year checked, the sex kept and the century digit recomputed. */
    method SetDate(d: Date) returns (outcome: Outcome)
      requires Valid() && ValidDate(d)
      modifies this
      ensures Valid()
      ensures outcome == DateSet(old(rec), d).Status()
      ensures rec == DateSet(old(rec), d).GetOr(old(rec))
    {
      if !(1800 <= d.year <= 2199) {
        return Fail(YearOutOfRange);
      }
      var century := CalculateCentury(d.year, IsMale(rec));
      CenturyOfYear(d.year, IsMale(rec));
      rec := rec.(century := century, date := d);
      UpdateChecksum();
      outcome := Pass;
    }

    /** Sex inversion through the century setter; it cannot fail. */
    method Negate()
      requires Valid()
      modifies this
      ensures Valid()
      ensures Negated(old(rec)) == Ok(rec)
      ensures rec.date == old(rec.date) && rec.sequence == old(rec.sequence)
      ensures IsMale(rec) == !IsMale(old(rec))
    {
      var r := rec;
      NegatedSpec(r);
      var outcome: Outcome;
      if IsMale(r) {
        outcome := SetCentury(r.century + 1);
        assert Negated(r) == CenturySet(r, r.century + 1);
      } else {
        outcome := SetCentury(r.century - 1);
        assert Negated(r) == CenturySet(r, r.century - 1);
      }
    }

    /** Adding `n` in place: the sequence moves by `n`, carrying whole days
        into the date; the sex is kept and the century digit recomputed. */
    method Add(n: int) returns (outcome: Outcome)
      requires Valid()
      modifies this
      ensures Valid()
      ensures outcome == Added(old(rec), n).Status()
      ensures rec == Added(old(rec), n).GetOr(old(rec))
    {
      var r := rec;
      var days, sequence := (r.sequence + n) / 1000, (r.sequence + n) % 1000;
      var date := AddDays(r.date, days);
      CarryPosition(r, n, days, sequence);
      BoundaryOrdinals();
      LandedYears(date);
      if date.None? {
        outcome := Fail(DateOverflow);
      } else if !(1800 <= date.value.year <= 2199) {
        outcome := Fail(YearOutOfRange);
      } else {
        var d := date.value;
        CenturyOfYear(d.year, IsMale(r));
        rec := Rec(CalculateCentury(d.year, IsMale(r)), d, sequence, r.checksum);
        UpdateChecksum();
        outcome := Pass;
      }
      AddedByPosition(r, n, outcome, rec);
    }

    /** Subtracting `n` is adding `-n`. */
    method Sub(n: int) returns (outcome: Outcome)
      requires Valid()
      modifies this
      ensures Valid()
      ensures outcome == Added(old(rec), -n).Status()
      ensures rec == Added(old(rec), -n).GetOr(old(rec))
    {
      var r := rec;
      var m := -n;
      outcome := Add(m);
      AddedSameAmount(r, m, -n, outcome, rec);
    }

    /** One step of forward iteration: a copy of the current number, after
        which this object moves on by one; nothing once adding one fails.
        Repeated, it yields `Ascending` of the starting record. */
    method Next() returns (value: Option<EstNin>)
      requires Valid()
      modifies this
      ensures Valid() && IsMale(rec) == IsMale(old(rec))
      ensures value.Some? <==> Ascending(old(rec)) != []
      ensures value.Some? ==> fresh(value.value) && value.value.Valid() && value.value.rec == old(rec)
      ensures value.Some? ==> rec == Added(old(rec), 1).value
      ensures value.None? ==> rec == old(rec)
      ensures Ascending(old(rec)) == (if value.Some? then [old(rec)] + Ascending(rec) else [])
    {
      var copy := Clone();
      // a step of one never overflows the date, so every failure here is a range error
      StepNeverOverflows(rec, 1);
      var outcome := Add(1);
      if outcome.Pass? {
        value := Some(copy);
      } else {
        value := None;
      }
    }

    /** `self -= 1` with the range failure caught: whether the object moved
        back one position; it stays put exactly on the first number of its sex. */
    method StepBack() returns (moved: bool)
      requires Valid()
      modifies this
      ensures Valid() && IsMale(rec) == IsMale(old(rec))
      ensures moved <==> Position(old(rec)) > FirstPosition
      ensures moved ==> Position(rec) == Position(old(rec)) - 1
      ensures !moved ==> rec == old(rec)
    {
      var r := rec;
      PositionInRange(r);
      StepNeverOverflows(r, -1);
      var outcome := Sub(1);
      moved := outcome.Pass?;
    }

    /** New objects holding the given records, in order. */
    static method Copies(recs: seq<Rec>) returns (items: seq<EstNin>)
      requires forall i :: 0 <= i < |recs| ==> ValidRec(recs[i])
      ensures |items| == |recs|
      ensures forall i :: 0 <= i < |items| ==>
        fresh(items[i]) && items[i].Valid() && items[i].rec == recs[i]
    {
      items := [];
      while |items| < |recs|
        invariant |items| <= |recs|
        invariant forall i :: 0 <= i < |items| ==>
          fresh(items[i]) && items[i].Valid() && items[i].rec == recs[i]
      {
        var c := new EstNin.Of(recs[|items|]);
        items := items + [c];
      }
    }

    /** The walk of reverse iteration: the current number is taken and the
        object moved back by one, until moving back fails. What is taken is
        `Descending` of the starting record, and the object is left on the
        first number of its sex. */
    method WalkBack() returns (recs: seq<Rec>)
      requires Valid()
      modifies this
      ensures Valid() && IsMale(rec) == IsMale(old(rec)) && Position(rec) == FirstPosition
      ensures recs == Descending(old(rec))
    {
      recs := [];
      ghost var all := Descending(rec);
      while true
        invariant ValidRec(rec) && IsMale(rec) == IsMale(old(rec))
        invariant recs + Descending(rec) == all
        decreases Position(rec) - FirstPosition
      {
        var r := rec;
        PositionInRange(r);
        var moved := StepBack();
        if !moved {
          assert Descending(rec) == [];
          break;
        }
        DescendingFrom(r, rec);
        ConcatShift(recs, r, Descending(rec));
        recs := recs + [r];
      }
    }

    /** Reverse iteration run to the end: the numbers the walk back takes,
        handed out as new objects. */
    method Reversed() returns (items: seq<EstNin>)
      requires Valid()
      modifies this
      ensures Valid() && IsMale(rec) == IsMale(old(rec)) && Position(rec) == FirstPosition
      ensures |items| == |Descending(old(rec))|
      ensures forall i :: 0 <= i < |items| ==>
        fresh(items[i]) && items[i].Valid() && items[i].rec == Descending(old(rec))[i]
    {
      var start := rec;
      var recs := WalkBack();
      DescendingRun(start);
      RunValid(recs, IsMale(start), Position(start), false);
      items := Copies(recs);
    }
  }
}
