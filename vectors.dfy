/** Concrete values from the library's documentation and tests, worked
    through the model. */
module Vectors {
  import opened Wrappers
  import opened Calendar
  import opened Checksum
  import opened Codec
  import opened Rules

  // ---------------------------------------------------------------------
  // Check digits of the values below

  /** Check digit of 10001010002 with century digit 2. */
  lemma ChecksumCenturyTwo()
    ensures CalculateChecksum(20001010003) == 3
  {
    DigitsStep(20); DigitsStep(200); DigitsStep(2000); DigitsStep(20001); DigitsStep(200010);
    DigitsStep(2000101); DigitsStep(20001010); DigitsStep(200010100); DigitsStep(2000101000);
    DigitsStep(20001010003);
    assert Digits(20001010003) == [2, 0, 0, 0, 1, 0, 1, 0, 0, 0, 3];
    assert WeightedSum([2, 0, 0, 0, 1, 0, 1, 0, 0, 0, 3], FirstWeights) == 14;
  }

  /** Check digit of 10001010002 moved to the year 2000. */
  lemma ChecksumYear2000()
    ensures CalculateChecksum(50001010006) == 6
  {
    DigitsStep(50); DigitsStep(500); DigitsStep(5000); DigitsStep(50001); DigitsStep(500010);
    DigitsStep(5000101); DigitsStep(50001010); DigitsStep(500010100); DigitsStep(5000101000);
    DigitsStep(50001010006);
    assert Digits(50001010006) == [5, 0, 0, 0, 1, 0, 1, 0, 0, 0, 6];
    assert WeightedSum([5, 0, 0, 0, 1, 0, 1, 0, 0, 0, 6], FirstWeights) == 17;
  }

  /** Check digit of 10001010002 with sequence 1. */
  lemma ChecksumSequenceOne()
    ensures CalculateChecksum(10001010013) == 3
  {
    DigitsStep(10); DigitsStep(100); DigitsStep(1000); DigitsStep(10001); DigitsStep(100010);
    DigitsStep(1000101); DigitsStep(10001010); DigitsStep(100010100); DigitsStep(1000101001);
    DigitsStep(10001010013);
    assert Digits(10001010013) == [1, 0, 0, 0, 1, 0, 1, 0, 0, 1, 3];
    assert WeightedSum([1, 0, 0, 0, 1, 0, 1, 0, 0, 1, 3], FirstWeights) == 14;
  }

  /** Check digit of a male born 1970-01-01 with sequence 123. */
  lemma ChecksumCreated()
    ensures CalculateChecksum(37001011233) == 3
  {
    DigitsStep(37); DigitsStep(370); DigitsStep(3700); DigitsStep(37001); DigitsStep(370010);
    DigitsStep(3700101); DigitsStep(37001011); DigitsStep(370010112); DigitsStep(3700101123);
    DigitsStep(37001011233);
    assert Digits(37001011233) == [3, 7, 0, 0, 1, 0, 1, 1, 2, 3, 3];
    assert WeightedSum([3, 7, 0, 0, 1, 0, 1, 1, 2, 3, 3], FirstWeights) == 58;
  }

  /** Check digit of a value naming 30 February 1800. */
  lemma ChecksumFebruary30()
    ensures CalculateChecksum(10002300007) == 7
  {
    DigitsStep(10); DigitsStep(100); DigitsStep(1000); DigitsStep(10002); DigitsStep(100023);
    DigitsStep(1000230); DigitsStep(10002300); DigitsStep(100023000); DigitsStep(1000230000);
    DigitsStep(10002300007);
    assert Digits(10002300007) == [1, 0, 0, 0, 2, 3, 0, 0, 0, 0, 7];
    assert WeightedSum([1, 0, 0, 0, 2, 3, 0, 0, 0, 0, 7], FirstWeights) == 29;
  }

  /** Check digit of a value naming month 13 of 1800. */
  lemma ChecksumMonth13()
    ensures CalculateChecksum(10013010005) == 5
  {
    DigitsStep(10); DigitsStep(100); DigitsStep(1001); DigitsStep(10013); DigitsStep(100130);
    DigitsStep(1001301); DigitsStep(10013010); DigitsStep(100130100); DigitsStep(1001301000);
    DigitsStep(10013010005);
    assert Digits(10013010005) == [1, 0, 0, 1, 3, 0, 1, 0, 0, 0, 5];
    assert WeightedSum([1, 0, 0, 1, 3, 0, 1, 0, 0, 0, 5], FirstWeights) == 27;
  }

  /** Check digit of 37001011233 with century digit 5. */
  lemma ChecksumCenturyFive()
    ensures CalculateChecksum(57001011235) == 5
  {
    DigitsStep(57); DigitsStep(570); DigitsStep(5700); DigitsStep(57001); DigitsStep(570010);
    DigitsStep(5700101); DigitsStep(57001011); DigitsStep(570010112); DigitsStep(5700101123);
    DigitsStep(57001011235);
    assert Digits(57001011235) == [5, 7, 0, 0, 1, 0, 1, 1, 2, 3, 5];
    assert WeightedSum([5, 7, 0, 0, 1, 0, 1, 1, 2, 3, 5], FirstWeights) == 60;
  }

  /** Check digit of 37001011233 moved to the year 2001. */
  lemma ChecksumYear2001()
    ensures CalculateChecksum(50101011235) == 5
  {
    DigitsStep(50); DigitsStep(501); DigitsStep(5010); DigitsStep(50101); DigitsStep(501010);
    DigitsStep(5010101); DigitsStep(50101011); DigitsStep(501010112); DigitsStep(5010101123);
    DigitsStep(50101011235);
    assert Digits(50101011235) == [5, 0, 1, 0, 1, 0, 1, 1, 2, 3, 5];
    assert WeightedSum([5, 0, 1, 0, 1, 0, 1, 1, 2, 3, 5], FirstWeights) == 49;
  }

  /** Check digit of 37001011233 moved to December. */
  lemma ChecksumMonthTwelve()
    ensures CalculateChecksum(37012011231) == 1
  {
    DigitsStep(37); DigitsStep(370); DigitsStep(3701); DigitsStep(37012); DigitsStep(370120);
    DigitsStep(3701201); DigitsStep(37012011); DigitsStep(370120112); DigitsStep(3701201123);
    DigitsStep(37012011231);
    assert Digits(37012011231) == [3, 7, 0, 1, 2, 0, 1, 1, 2, 3, 1];
    assert WeightedSum([3, 7, 0, 1, 2, 0, 1, 1, 2, 3, 1], FirstWeights) == 67;
  }

  /** Check digit of 37001011233 moved to the 31st. */
  lemma ChecksumDayThirtyOne()
    ensures CalculateChecksum(37001311233) == 3
  {
    DigitsStep(37); DigitsStep(370); DigitsStep(3700); DigitsStep(37001); DigitsStep(370013);
    DigitsStep(3700131); DigitsStep(37001311); DigitsStep(370013112); DigitsStep(3700131123);
    DigitsStep(37001311233);
    assert Digits(37001311233) == [3, 7, 0, 0, 1, 3, 1, 1, 2, 3, 3];
    assert WeightedSum([3, 7, 0, 0, 1, 3, 1, 1, 2, 3, 3], FirstWeights) == 76;
    assert WeightedSum([3, 7, 0, 0, 1, 3, 1, 1, 2, 3, 3], SecondWeights) == 91;
  }

  /** Check digit of 37001011233 with sequence 42. */
  lemma ChecksumSequence42()
    ensures CalculateChecksum(37001010421) == 1
  {
    DigitsStep(37); DigitsStep(370); DigitsStep(3700); DigitsStep(37001); DigitsStep(370010);
    DigitsStep(3700101); DigitsStep(37001010); DigitsStep(370010104); DigitsStep(3700101042);
    DigitsStep(37001010421);
    assert Digits(37001010421) == [3, 7, 0, 0, 1, 0, 1, 0, 4, 2, 1];
    assert WeightedSum([3, 7, 0, 0, 1, 0, 1, 0, 4, 2, 1], FirstWeights) == 67;
  }

  /** Check digit of 37001011233 moved to 1972-01-22. */
  lemma ChecksumDate1972()
    ensures CalculateChecksum(37201221236) == 6
  {
    DigitsStep(37); DigitsStep(372); DigitsStep(3720); DigitsStep(37201); DigitsStep(372012);
    DigitsStep(3720122); DigitsStep(37201221); DigitsStep(372012212); DigitsStep(3720122123);
    DigitsStep(37201221236);
    assert Digits(37201221236) == [3, 7, 2, 0, 1, 2, 2, 1, 2, 3, 6];
    assert WeightedSum([3, 7, 2, 0, 1, 2, 2, 1, 2, 3, 6], FirstWeights) == 83;
  }

  /** 10001010002 with a wrong last digit still has check digit 2. */
  lemma ChecksumWrongLastDigit()
    ensures CalculateChecksum(10001010009) == 2
  {
    DigitsStep(10); DigitsStep(100); DigitsStep(1000); DigitsStep(10001); DigitsStep(100010);
    DigitsStep(1000101); DigitsStep(10001010); DigitsStep(100010100); DigitsStep(1000101000);
    DigitsStep(10001010009);
    assert Digits(10001010009) == [1, 0, 0, 0, 1, 0, 1, 0, 0, 0, 9];
    assert WeightedSum([1, 0, 0, 0, 1, 0, 1, 0, 0, 0, 9], FirstWeights) == 13;
  }

  // ---------------------------------------------------------------------
  // The records of those values

  /** The smallest valid number: a male born 1800-01-01 with sequence 0. */
  const Smallest := Rec(1, Date(1800, 1, 1), 0, 2)

  lemma SmallestValid()
    ensures ValidRec(Smallest) && ToInt(Smallest) == 10001010002
  {
    assert Shaped(Smallest);
    assert ToInt(Smallest) == 10001010002;
    ChecksumFirstPass();
  }

  /** A female born 1800-01-01 with sequence 0. */
  const CenturyTwo := Rec(2, Date(1800, 1, 1), 0, 3)

  lemma CenturyTwoValid()
    ensures ValidRec(CenturyTwo) && ToInt(CenturyTwo) == 20001010003
  {
    assert Shaped(CenturyTwo);
    assert ToInt(CenturyTwo) == 20001010003;
    ChecksumCenturyTwo();
  }

  /** A male born 2000-01-01 with sequence 0. */
  const Year2000 := Rec(5, Date(2000, 1, 1), 0, 6)

  lemma Year2000Valid()
    ensures ValidRec(Year2000) && ToInt(Year2000) == 50001010006
  {
    assert Shaped(Year2000);
    assert ToInt(Year2000) == 50001010006;
    ChecksumYear2000();
  }

  /** A male born 1800-01-01 with sequence 1. */
  const SequenceOne := Rec(1, Date(1800, 1, 1), 1, 3)

  lemma SequenceOneValid()
    ensures ValidRec(SequenceOne) && ToInt(SequenceOne) == 10001010013
  {
    assert Shaped(SequenceOne);
    assert ToInt(SequenceOne) == 10001010013;
    ChecksumSequenceOne();
  }

  /** A male born 1970-01-01 with sequence 123. */
  const Example := Rec(3, Date(1970, 1, 1), 123, 3)

  lemma ExampleValid()
    ensures ValidRec(Example) && ToInt(Example) == 37001011233
  {
    assert Shaped(Example);
    assert ToInt(Example) == 37001011233;
    ChecksumCreated();
  }

  /** A male born 2070-01-01 with sequence 123. */
  const Example2070 := Rec(5, Date(2070, 1, 1), 123, 5)

  lemma Example2070Valid()
    ensures ValidRec(Example2070) && ToInt(Example2070) == 57001011235
  {
    assert Shaped(Example2070);
    assert ToInt(Example2070) == 57001011235;
    ChecksumCenturyFive();
  }

  /** A male born 2001-01-01 with sequence 123. */
  const Example2001 := Rec(5, Date(2001, 1, 1), 123, 5)

  lemma Example2001Valid()
    ensures ValidRec(Example2001) && ToInt(Example2001) == 50101011235
  {
    assert Shaped(Example2001);
    assert ToInt(Example2001) == 50101011235;
    ChecksumYear2001();
  }

  /** A male born 1970-12-01 with sequence 123. */
  const ExampleDecember := Rec(3, Date(1970, 12, 1), 123, 1)

  lemma ExampleDecemberValid()
    ensures ValidRec(ExampleDecember) && ToInt(ExampleDecember) == 37012011231
  {
    assert Shaped(ExampleDecember);
    assert ToInt(ExampleDecember) == 37012011231;
    ChecksumMonthTwelve();
  }

  /** A male born 1970-01-31 with sequence 123. */
  const ExampleDay31 := Rec(3, Date(1970, 1, 31), 123, 3)

  lemma ExampleDay31Valid()
    ensures ValidRec(ExampleDay31) && ToInt(ExampleDay31) == 37001311233
  {
    assert Shaped(ExampleDay31);
    assert ToInt(ExampleDay31) == 37001311233;
    ChecksumDayThirtyOne();
  }

  /** A male born 1970-01-01 with sequence 42. */
  const ExampleSequence42 := Rec(3, Date(1970, 1, 1), 42, 1)

  lemma ExampleSequence42Valid()
    ensures ValidRec(ExampleSequence42) && ToInt(ExampleSequence42) == 37001010421
  {
    assert Shaped(ExampleSequence42);
    assert ToInt(ExampleSequence42) == 37001010421;
    ChecksumSequence42();
  }

  /** A male born 1972-01-22 with sequence 123. */
  const Example1972 := Rec(3, Date(1972, 1, 22), 123, 6)

  lemma Example1972Valid()
    ensures ValidRec(Example1972) && ToInt(Example1972) == 37201221236
  {
    assert Shaped(Example1972);
    assert ToInt(Example1972) == 37201221236;
    ChecksumDate1972();
  }

  // ---------------------------------------------------------------------
  // A setter's result is fixed by its fields

  /** The century setter gives the valid record with the new digit, the
      year moved into its era and the other fields kept. */
  lemma CenturySetGives(r: Rec, century: int, e: Rec)
    requires ValidRec(r) && ValidRec(e) && 1 <= century <= 8 && e.century == century
    requires e.date == Date(CalculateYear(century, r.date.year), r.date.month, r.date.day)
    requires !LosesLeapDay(r.date, CalculateYear(century, r.date.year))
    requires e.sequence == r.sequence
    ensures CenturySet(r, century) == Ok(e)
  {
    var v := CenturySet(r, century).value;
    YearFromCentury(v);
    SameFieldsSameRec(v, e);
  }

  /** The year setter gives the valid record of the same sex with the new year. */
  lemma YearSetGives(r: Rec, year: int, e: Rec)
    requires ValidRec(r) && ValidRec(e) && 1800 <= year <= 2199
    requires e.date == Date(year, r.date.month, r.date.day) && !LosesLeapDay(r.date, year)
    requires e.sequence == r.sequence && IsMale(e) == IsMale(r)
    ensures YearSet(r, year) == Ok(e)
  {
    var v := YearSet(r, year).value;
    CenturyFromYear(v);
    CenturyFromYear(e);
    SameFieldsSameRec(v, e);
  }

  /** Adding one within a day gives the valid record of the same sex with
      the next sequence number. */
  lemma AddOneGives(r: Rec, e: Rec)
    requires ValidRec(r) && ValidRec(e) && r.sequence < 999
    requires e.date == r.date && e.sequence == r.sequence + 1 && e.century == r.century
    ensures Added(r, 1) == Ok(e)
  {
    AddedWithinDay(r);
    SameFieldsSameRec(SequenceSet(r, r.sequence + 1).value, e);
  }

  /** The sequential date setter, when every step passes, gives the valid
      record of the same sex with the new date. */
  lemma DateSetSequentialGives(r: Rec, d: Date, e: Rec)
    requires ValidRec(r) && ValidDate(d) && ValidRec(e)
    requires 1800 <= d.year <= 2199
    requires r.date.day <= DaysInMonth(d.year, r.date.month) && r.date.day <= DaysInMonth(d.year, d.month)
    requires e.date == d && e.sequence == r.sequence && IsMale(e) == IsMale(r)
    ensures DateSetSequential(r, d) == Step(Pass, e)
  {
    var v := DateSetSequential(r, d).rec;
    CenturyFromYear(v);
    CenturyFromYear(e);
    SameFieldsSameRec(v, e);
  }

  // ---------------------------------------------------------------------
  // Reading values

  /** 37001011233 reads as a male born 1970-01-01 with sequence 123, and
      37001011230 with the check digit recomputed reads as the same record. */
  lemma DecodeAccepts()
    ensures ValidateFormat(37001011233, false) == Ok(Example)
    ensures ValidateFormat(37001011230, true) == Ok(Example)
  {
    ExampleValid();
    EncodeDecode(Example);
    var blank := Example.(checksum := 0);
    assert ToInt(blank) == 37001011230;
    EncodeDecode(blank);
    SameFieldsSameRec(WithChecksum(blank), Example);
  }

  /** A value above the largest is rejected before anything else. */
  lemma DecodeRejectsRange()
    ensures ValidateFormat(90001010000, false) == Err(OutOfRange)
  {
  }

  /** A wrong last digit is rejected when it is not recomputed. */
  lemma DecodeRejectsChecksum()
    ensures ValidateFormat(10001010009, false) == Err(InvalidChecksum)
  {
    assert ValidateChecksum(10001010009) == Err(InvalidChecksum) by {
      ChecksumWrongLastDigit();
    }
  }

  /** 30 February is rejected after the check digit passes. */
  lemma DecodeRejectsDay()
    ensures ValidateFormat(10002300007, false) == Err(InvalidDate)
  {
    assert ValidateChecksum(10002300007) == Ok(7) by { ChecksumFebruary30(); }
    assert 10002300007 / 10000000000 == 1 && (10002300007 % 10000000000) / 100000000 == 0;
    assert (10002300007 % 100000000) / 1000000 == 2 && (10002300007 % 1000000) / 10000 == 30;
    assert ValidateDate(10002300007) == MakeDate(1800, 2, 30) == None;
  }

  /** Month 13 is rejected after the check digit passes. */
  lemma DecodeRejectsMonth()
    ensures ValidateFormat(10013010005, false) == Err(InvalidDate)
  {
    assert ValidateChecksum(10013010005) == Ok(5) by { ChecksumMonth13(); }
    assert 10013010005 / 10000000000 == 1 && (10013010005 % 10000000000) / 100000000 == 0;
    assert (10013010005 % 100000000) / 1000000 == 13 && (10013010005 % 1000000) / 10000 == 1;
    assert ValidateDate(10013010005) == MakeDate(1800, 13, 1) == None;
  }

  // ---------------------------------------------------------------------
  // Setters and adding on 10001010002

  /** Century digit 2 on 10001010002 gives 20001010003. */
  lemma CenturyVector()
    ensures ValidRec(Smallest)
    ensures CenturySet(Smallest, 2) == Ok(CenturyTwo)
  {
    SmallestValid();
    CenturyTwoValid();
    CenturySetGives(Smallest, 2, CenturyTwo);
  }


  /** The year 2000 on 10001010002 gives 50001010006. */
  lemma YearVector()
    ensures ValidRec(Smallest)
    ensures YearSet(Smallest, 2000) == Ok(Year2000)
  {
    SmallestValid();
    Year2000Valid();
    YearSetGives(Smallest, 2000, Year2000);
  }


  /** Sequence 1 on 10001010002 gives 10001010013. */
  lemma SequenceVector()
    ensures ValidRec(Smallest)
    ensures SequenceSet(Smallest, 1) == Ok(SequenceOne)
  {
    SmallestValid();
    SequenceOneValid();
    SameFieldsSameRec(SequenceSet(Smallest, 1).value, SequenceOne);
  }

  /** Adding one to 10001010002 gives 10001010013 too. */
  lemma AddOneVector()
    ensures ValidRec(Smallest)
    ensures Added(Smallest, 1) == Ok(SequenceOne)
  {
    SmallestValid();
    SequenceOneValid();
    AddOneGives(Smallest, SequenceOne);
  }


  // ---------------------------------------------------------------------
  // Creating and the setters on 37001011233

  /** Creating a male born 1970-01-01 with sequence 123 gives 37001011233;
      a male born 1800-01-01 with sequence 0 gives 10001010002. */
  lemma CreateVector()
    ensures ValidRec(Example) && ValidRec(Smallest)
    ensures Created(false, Date(1970, 1, 1), 123) == Ok(Example)
    ensures Created(false, Date(1800, 1, 1), 0) == Ok(Smallest)
  {
    ExampleValid();
    SmallestValid();
    SameFieldsSameRec(Created(false, Date(1970, 1, 1), 123).value, Example);
    SameFieldsSameRec(Created(false, Date(1800, 1, 1), 0).value, Smallest);
  }

  /** Century digit 5 on 37001011233 gives 57001011235. */
  lemma ExampleCentury()
    ensures ValidRec(Example)
    ensures CenturySet(Example, 5) == Ok(Example2070)
  {
    ExampleValid();
    Example2070Valid();
    CenturySetGives(Example, 5, Example2070);
  }


  /** The year 2001 on 37001011233 gives 50101011235. */
  lemma ExampleYear()
    ensures ValidRec(Example)
    ensures YearSet(Example, 2001) == Ok(Example2001)
  {
    ExampleValid();
    Example2001Valid();
    YearSetGives(Example, 2001, Example2001);
  }

  /** December on 37001011233 gives 37012011231. */
  lemma ExampleMonth()
    ensures ValidRec(Example)
    ensures MonthSet(Example, 12) == Ok(ExampleDecember)
  {
    ExampleValid();
    ExampleDecemberValid();
    SameFieldsSameRec(MonthSet(Example, 12).value, ExampleDecember);
  }

  /** Day 31 on 37001011233 gives 37001311233. */
  lemma ExampleDay()
    ensures ValidRec(Example)
    ensures DaySet(Example, 31) == Ok(ExampleDay31)
  {
    ExampleValid();
    ExampleDay31Valid();
    SameFieldsSameRec(DaySet(Example, 31).value, ExampleDay31);
  }

  /** Sequence 42 on 37001011233 gives 37001010421. */
  lemma ExampleSequence()
    ensures ValidRec(Example)
    ensures SequenceSet(Example, 42) == Ok(ExampleSequence42)
  {
    ExampleValid();
    ExampleSequence42Valid();
    SameFieldsSameRec(SequenceSet(Example, 42).value, ExampleSequence42);
  }

  /** The date 1972-01-22 on 37001011233 gives 37201221236. */
  lemma ExampleDate()
    ensures ValidRec(Example)
    ensures DateSetSequential(Example, Date(1972, 1, 22)) == Step(Pass, Example1972)
  {
    ExampleValid();
    Example1972Valid();
    DateSetSequentialGives(Example, Date(1972, 1, 22), Example1972);
  }

}
