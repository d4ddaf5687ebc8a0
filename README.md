# estnin in Dafny

A model of `estnin`, a Python value type for the Estonian personal
identification code (isikukood, laid out by the Estonian standard EVS 585).
The code is eleven decimal digits `G YY MM DD SSS C`:

- `G` is the century digit, 1..8. It gives the era of the birth year,
  1800 + 100·((G − 1) div 2) + YY, and the sex: odd for a male, even for a female.
- `YY MM DD` is the birth date.
- `SSS` is the sequence number of the birth on that day, 0..999.
- `C` is a weighted modulo-11 check digit over the first ten digits.

The library keeps one record `(century, date, sequence, checksum)` per
object and changes it in place. Every setter validates its argument, writes
the new fields and recomputes the check digit. Adding an integer moves the
number through birth order. Iteration uses the object itself as its cursor.

The model is in eight modules:

- `Arith` (arith.dfy): facts about floor division by a positive constant
  that the decimal-place and position proofs need.
- `Wrappers` (wrappers.dfy): results and outcomes; each `ValueError` the
  library raises becomes an `Err`/`Fail` naming its reason.
- `Calendar` (calendar.dfy): the proleptic Gregorian dates of Python's
  `datetime.date`, years 1..9999. It covers the date constructor and the
  `replace` operations, and does day arithmetic through the day ordinal,
  as `date + timedelta(days=k)` does.
- `Checksum` (checksum.dfy): the check digit, computed over the decimal
  string of the number with `zip` against two weight lists.
- `Codec` (codec.dfy): the record, its eleven-digit value (`__int__`), and
  reading an integer back (`_validate_format`, `_validate_date`,
  `_validate_checksum`).
- `Rules` (rules.dfy): each mutator as a pure function of the old record,
  with lemmas about it. It also defines the birth-order position
  (`ordinal of the date · 1000 + sequence`), which adding moves along, and
  the sequences forward and reverse iteration yield.
- `EstNinClass` (estnin.dfy): the class `EstNin`, with one field `rec` and
  the library's methods. Each method updates `rec` under `modifies this`
  and is proved equal to its function in `Rules`.
- `Vectors` (vectors.dfy): works the examples of the library's
  documentation and tests through the model.

The tests invert a number with `~person`, but the class defines only
`__neg__` (unary minus). The model follows the code and calls the
operation `Negate`. The month example in the documentation
(estnin.py:322-324) prints 30112011231. The code gives 37012011231, which
`Vectors.ExampleMonth` proves.

Python's `//` and `%` by a positive divisor agree with Dafny's `/` and
`%`, and all of the library's divisors are positive. Integers in the
library are unbounded, as in Dafny.

## Model

| member | source | states |
|---|---|---|
| Checksum.CheckDigit | estnin.py:220-226 | the check digit is a single decimal digit, 0..9, whether it comes from the first weights, the second weights or the second-pass 10 turned into 0 |
| Checksum.CalculateChecksum | estnin.py:217-226 | the check digit of a number is a decimal digit 0..9 |
| Checksum.ChecksumIgnoresLastDigit | estnin.py:219-223 | for numbers of eleven or more digits only the first ten digits are weighted (`zip` stops at the ten weights), so any last digit gives the same check digit |
| Checksum.ChecksumFirstPass | tests/test_estnin.py:88-89 | the check digit of 10001010002 is 2 |
| Checksum.ChecksumSecondPass | tests/test_estnin.py:91-92 | the check digit of 10001010214 is 4, through the second weights |
| Checksum.ChecksumSecondPassTen | tests/test_estnin.py:94-95 | the check digit of 10001010080 is 0, the second pass giving 10 |
| Checksum.ChecksumOfMax | estnin.py:35 | the last digit of MAX is its own check digit |
| Codec.WithChecksum | estnin.py:213-215 | recomputing the check digit of a well-formed record gives a valid record that differs from it in the check digit only |
| Codec.YearFromCentury | estnin.py:171-173 | for a well-formed record, the year computed from its century digit and two-digit year is its own year, which lies in 1800..2199 |
| Codec.YearOfCentury | estnin.py:171-173 | the computed year keeps the two-digit year and lies in the era the century digit names |
| Codec.CenturyOfYear | estnin.py:167-169 | for a year in 1800..2199 the computed century digit is in 1..8, names the year's era and is odd exactly for a male |
| Codec.CenturyFromYear | estnin.py:167-169 | the century digit of a well-formed record is the one computed from its year and its sex |
| Codec.ValidRecInRange | estnin.py:33-35 | every valid record has a value between MIN and MAX |
| Codec.DecodeSound | estnin.py:175-211 | whatever reading an integer accepts is a valid record, whose value is the integer with its last digit replaced by the check digit, and in verify mode is the integer itself |
| Codec.EncodeDecode | estnin.py:175-195 | reading back the value of a well-formed record with `set_checksum` gives the record with a fresh check digit; reading back a valid record's value in verify mode gives the record itself |
| Codec.DecodeDate | estnin.py:197-203 | the date digits of a well-formed record's value give back its birth date |
| Codec.ToIntEqual | estnin.py:15-24 | two well-formed records have equal values exactly when they are equal |
| Codec.IntOrderDigits | estnin.py:15-24 | the value order of well-formed records is the order of their digit groups G, YY, MM, DD, SSS, C |
| Codec.IntOrder | estnin.py:103-104 | the value order of well-formed records is field order: century digit, birth date, sequence, check digit |
| Codec.SameFieldsSameRec | estnin.py:213-215 | a valid record is fixed by its century digit, date and sequence; the check digit follows from them |
| Calendar.DaysInMonth | estnin.py:203 | a month has 28..31 days, and 29 only for February of a leap year |
| Calendar.MakeDateRule | estnin.py:203 | in the years 1..9999 the date constructor accepts exactly a month 1..12 and a day from 1 that is at most 28, or 29 except in February of a common year, or 30 except in February, or 31 in January, March, May, July, August, October or December |
| Calendar.OrdinalHasDate | estnin.py:122 | every ordinal of the years 1..9999 is the ordinal of some valid date |
| Calendar.FromOrdinal | estnin.py:122 | the date of an ordinal is a valid date with that ordinal |
| Calendar.OrdinalInjective | estnin.py:122 | two valid dates with the same ordinal are equal |
| Calendar.OrdinalRoundTrip | estnin.py:122 | a valid date's ordinal lies in 1..MaxOrdinal, and the date of that ordinal is the date itself |
| Calendar.AddDays | estnin.py:122 | adding k days gives a date exactly when the new ordinal stays in the years 1..9999, and then the valid date k days later |
| Calendar.AddDaysTo | estnin.py:122 | adding k days lands on the date whose ordinal is k further on |
| Calendar.AddDaysInverse | estnin.py:122 | adding k days and then −k days gives the date back |
| Calendar.AddNoDays | estnin.py:122 | adding zero days keeps the date |
| Calendar.NewYear | estnin.py:122 | the day after 31 December is 1 January of the next year, and the day before that 1 January is that 31 December |
| Calendar.OrdinalOrder | estnin.py:122 | ordinals follow calendar order in both directions |
| Calendar.OrdinalBounds | estnin.py:122 | a date of the years lo..hi has an ordinal between those of 1 January of lo and 31 December of hi |
| Calendar.YearRangeByOrdinal | estnin.py:122-123 | a date lies in the years lo..hi exactly when its ordinal lies between those of 1 January of lo and 31 December of hi |
| Rules.Moved | estnin.py:124-126 | moving a valid record to a date of 1800..2199 and a sequence keeps the sex, writes that date and sequence, and gives a valid record |
| Rules.CenturySet | estnin.py:267-275 | the century setter fails with the century error outside 1..8, and with a date error exactly when a 29 February would land in a non-leap year; otherwise it keeps the two-digit year, month, day and sequence, writes the digit and gives a valid record |
| Rules.YearSet | estnin.py:298-305 | the year setter fails with the year error outside 1800..2199, and with a date error exactly for a 29 February moved to a non-leap year; otherwise it writes the year, keeps month, day, sequence and sex and gives a valid record |
| Rules.MonthSet | estnin.py:328-333 | the month setter succeeds exactly when the day exists in the new month, and then changes only the month and the check digit |
| Rules.DaySet | estnin.py:356-361 | the day setter succeeds exactly for a day of the record's month, and then changes only the day and the check digit |
| Rules.SequenceSet | estnin.py:384-390 | the sequence setter succeeds exactly for 0..999, and then changes only the sequence and the check digit |
| Rules.DateSetSequential | estnin.py:430-437 | the date setter as written always leaves a valid record. It succeeds exactly when the year is in 1800..2199 and the old day exists both in the old month of the new year and in the new month of the new year; then it writes the date and keeps sequence and sex. A year outside 1800..2199 fails with the year error and a 29 February moved to a common year with a date error, both leaving the record unchanged; any later failure is a date error that leaves the year step applied |
| Rules.DateSet | estnin.py:407-427 | the date setter as documented fails exactly for a year outside 1800..2199; otherwise it writes the whole date and keeps sequence and sex, giving a valid record |
| Rules.DateSetAgrees | estnin.py:430-437 | whenever the three-step setter succeeds, it gives the same record as the whole-date setter |
| Rules.DateSetSequentialFails | estnin.py:430-437 | setting 1972-02-28 on a number born 1970-01-31 fails in the month step, leaving the year changed, while the whole-date setter accepts that date |
| Rules.Negated | estnin.py:112-118 | inversion through the century setter gives a valid record whenever it succeeds |
| Rules.NegatedSpec | estnin.py:112-118 | inversion never fails on a valid record; it keeps date and sequence, moves the century digit by one within its era and flips the sex |
| Rules.NegatedTwice | estnin.py:112-118 | inverting twice gives the original record back |
| Rules.Created | estnin.py:66-95 | the factory fails with the year error outside 1800..2199 (checked first), with the sequence error outside 0..999, and otherwise gives the valid record of that date, sequence and sex, with the century digit of the year and sex |
| Rules.PositionInRange | estnin.py:152-155 | every valid record lies between the position of 1800-01-01/000 and that of 2199-12-31/999 |
| Rules.PositionFields | estnin.py:120-127 | a position names exactly one date and one sequence |
| Rules.PositionDetermines | estnin.py:120-127 | two valid records of the same sex at the same position are equal |
| Rules.CarryPosition | estnin.py:121-122 | carrying the thousands of `sequence + n` into the day count moves the position by exactly n |
| Rules.LandedYears | estnin.py:122-123 | a date from date arithmetic passes the year check exactly when its ordinal lies between those of 1800-01-01 and 2199-12-31 |
| Rules.Added | estnin.py:120-127 | adding n succeeds exactly when the position n further on is within 1800-01-01/000..2199-12-31/999, and then gives the valid record of the same sex at that position. Date arithmetic overflows exactly when that position leaves the years 1..9999; every other failure is the year error |
| Rules.AddedByPosition | estnin.py:120-127 | any outcome and record that meet the contract of adding are exactly those of adding |
| Rules.StepNeverOverflows | estnin.py:135-150 | a step of −1, 0 or +1 never overflows the date, so iteration's `except ValueError` covers every failure |
| Rules.AddedInverse | estnin.py:120-130 | subtracting what was added gives the original record back |
| Rules.AddedWithinDay | estnin.py:120-127 | below sequence 999, adding one is setting the next sequence number |
| Rules.AddedCarriesIntoNextYear | tests/test_estnin.py:223-231 | a male at 1999-12-31/999 plus one is 2000-01-01/000, male, century digit 5 |
| Rules.RunAt | estnin.py:135-150 | the element i of a run is valid, of the run's sex, and i positions from its start |
| Rules.Ascending | estnin.py:135-141 | forward iteration from a record yields one value for each position from it up to, but not including, the last position |
| Rules.AscendingRun | estnin.py:135-141 | what forward iteration yields are the valid records of the starting sex at consecutive positions upwards from the start |
| Rules.Descending | estnin.py:143-150 | reverse iteration from a record yields one value for each position from it down to, but not including, the first position |
| Rules.DescendingRun | estnin.py:143-150 | what reverse iteration yields are the valid records of the starting sex at consecutive positions downwards from the start |
| Rules.DescendingFrom | estnin.py:143-150 | reverse iteration from a record is that record followed by reverse iteration from the record one position below, of the same sex |
| Rules.EnumerationEnds | estnin.py:135-150 | from 2199-12-31 forward iteration yields 999 − sequence values; from 1800-01-01 reverse iteration yields as many values as the sequence |
| EstNinClass.EstNin.Of | estnin.py:42-64 | an object holding a record known to be valid is valid and holds that record |
| EstNinClass.EstNin.Parse | estnin.py:42-64 | the constructor fails exactly when reading the integer fails, with the same error; otherwise it gives a new valid object holding the record read |
| EstNinClass.EstNin.Create | estnin.py:66-95 | the factory method fails exactly as `Rules.Created` does, with the same error; otherwise it gives a new valid object holding the created record |
| EstNinClass.EstNin.Value | estnin.py:100-101 | the value of a valid object lies in MIN..MAX and reads back in verify mode as its record |
| EstNinClass.EstNin.Clone | estnin.py:137 | the copy `estnin(self)` is a new valid object holding the same record |
| EstNinClass.EstNin.Less | estnin.py:103-104 | `<` on values is field order of the records |
| EstNinClass.EstNin.LessOrEqual | estnin.py:106-107 | `<=` on values is field order or equality of the records |
| EstNinClass.EstNin.Equal | estnin.py:109-110 | `==` on values is equality of the records |
| EstNinClass.EstNin.Male | estnin.py:228-235 | an object is male exactly when its century digit is the odd digit of its birth year |
| EstNinClass.EstNin.Female | estnin.py:237-244 | an object is female exactly when its century digit is the even digit of its birth year |
| EstNinClass.EstNin.UpdateChecksum | estnin.py:213-215 | the record becomes the old record with its check digit recomputed |
| EstNinClass.EstNin.SetCentury | estnin.py:267-275 | the object stays valid; the outcome and the new record are those of `Rules.CenturySet`, and a failure leaves the record unchanged |
| EstNinClass.EstNin.SetYear | estnin.py:298-305 | the object stays valid; the outcome and the new record are those of `Rules.YearSet`, and a failure leaves the record unchanged |
| EstNinClass.EstNin.SetMonth | estnin.py:328-333 | the object stays valid; the outcome and the new record are those of `Rules.MonthSet`, and a failure leaves the record unchanged |
| EstNinClass.EstNin.SetDay | estnin.py:356-361 | the object stays valid; the outcome and the new record are those of `Rules.DaySet`, and a failure leaves the record unchanged |
| EstNinClass.EstNin.SetSequence | estnin.py:384-390 | the object stays valid; the outcome and the new record are those of `Rules.SequenceSet`, and a failure leaves the record unchanged |
| EstNinClass.EstNin.SetDateInSteps | estnin.py:430-437 | the object stays valid; the outcome and the record left behind, including after a failure half-way, are those of `Rules.DateSetSequential` |
| EstNinClass.EstNin.SetDate | estnin.py:407-427 | the object stays valid; the outcome and the new record are those of `Rules.DateSet`, and a failure leaves the record unchanged |
| EstNinClass.EstNin.Negate | estnin.py:112-118 | the object stays valid, with the record of `Rules.Negated`: same date and sequence, the sex flipped |
| EstNinClass.EstNin.Add | estnin.py:120-127 | the object stays valid; the outcome and the new record are those of `Rules.Added`, and a failure leaves the record unchanged |
| EstNinClass.EstNin.Sub | estnin.py:129-130 | the object stays valid; the outcome and the new record are those of adding −n |
| EstNinClass.EstNin.Next | estnin.py:135-141 | one iteration step gives a new valid copy of the current record exactly when forward iteration from it is not empty; the object then holds the record one position on, of the same sex, and otherwise stays unchanged, so every later step ends too. What iteration yields from the old record is that copy followed by what it yields from the new one |
| EstNinClass.EstNin.StepBack | estnin.py:147 | `self -= 1` with the range error caught moves the object back one position exactly when it is above the first position of its sex, and otherwise leaves it unchanged |
| EstNinClass.EstNin.Copies | estnin.py:146 | new valid objects holding the given records, in order |
| EstNinClass.EstNin.WalkBack | estnin.py:143-150 | the reverse walk takes exactly what `Rules.Descending` yields from the starting record, and leaves the object on the first position of its sex |
| EstNinClass.EstNin.Reversed | estnin.py:143-150 | reverse iteration run to the end yields new valid objects holding what `Rules.Descending` yields from the starting record, and leaves the object on the first position of its sex |
| Vectors.SmallestValid | estnin.py:33 | MIN, 10001010002, is the valid record of a male born 1800-01-01 with sequence 0 |
| Vectors.DecodeAccepts | estnin.py:58-62 | 37001011233 reads as a male born 1970-01-01 with sequence 123; 37001011230 with `set_checksum` reads as the same record |
| Vectors.DecodeRejectsRange | tests/test_estnin.py:56-58 | 90001010000 is rejected by the range check |
| Vectors.DecodeRejectsChecksum | tests/test_estnin.py:71-73 | 10001010009 is rejected by the check-digit check |
| Vectors.DecodeRejectsDay | tests/test_estnin.py:64-69 | a value with a correct check digit naming 30 February 1800 is rejected as a date |
| Vectors.DecodeRejectsMonth | tests/test_estnin.py:60-62 | a value with a correct check digit naming month 13 is rejected as a date |
| Vectors.CenturyVector | tests/test_estnin.py:119-123 | century digit 2 on 10001010002 gives 20001010003 |
| Vectors.YearVector | tests/test_estnin.py:139-152 | the year 2000 on 10001010002 gives 50001010006: century digit 5, check digit 6 |
| Vectors.SequenceVector | tests/test_estnin.py:173-176 | sequence 1 on 10001010002 gives 10001010013, check digit 3 |
| Vectors.AddOneVector | tests/test_estnin.py:217-221 | 10001010002 plus one is 10001010013 |
| Vectors.CreateVector | tests/test_estnin.py:40-42 | creating a male born 1800-01-01 with sequence 0 gives 10001010002, and a male born 1970-01-01 with sequence 123 gives 37001011233 |
| Vectors.ExampleCentury | estnin.py:256-263 | century digit 5 on 37001011233 gives 57001011235 |
| Vectors.ExampleYear | estnin.py:287-294 | the year 2001 on 37001011233 gives 50101011235 |
| Vectors.ExampleMonth | estnin.py:317-324 | December on 37001011233 gives 37012011231 |
| Vectors.ExampleDay | estnin.py:345-352 | day 31 on 37001011233 gives 37001311233 |
| Vectors.ExampleSequence | estnin.py:373-380 | sequence 42 on 37001011233 gives 37001010421 |
| Vectors.ExampleDate | estnin.py:417-426 | the date 1972-01-22 on 37001011233 gives 37201221236 |

## Left out

- Coercion with `int(value)` in the constructor and every setter (strings, whitespace, signs, and the rejection of `'x'`): the model takes integers. A setter whose argument is not an integer is not modelled.
- The `isinstance(value, date)` check of the date setter: the setter takes a `Date` that is a valid calendar date, which is what a `datetime.date` object always is.
- `__iter__` returning the object itself: `Next` is the step of forward iteration on the object.
- The laziness of the `__reversed__` generator. `Reversed` runs the generator to its end: the walk back is done first, and the copies are made after it rather than between steps. Stopping half-way is not modelled.
- `__repr__` and `__str__` (the decimal string of the value), and the getters, which are reads of `rec`.
- The reflected comparisons `>`, `>=` and `!=` that Python derives from `<`, `<=` and `==`, and comparisons against plain integers (`int(other)`).
- The namedtuple `_replace` is a record update.
- Python's `OverflowError`, which date arithmetic raises outside the years 1..9999, is the error kind `DateOverflow`. Timedelta's own limit on the day count lies beyond that range and is not modelled separately.
- `datetime` internals other than Gregorian validity, `replace` and day arithmetic.
- setup.py (packaging) and tests/manual_tests.py (timing and printing).
- Rules.Negated: its own contract only states validity; the full effect of inversion is in `Rules.NegatedSpec` and `Rules.NegatedTwice`.
- Rules.Ascending: its own contract only states the length; that the values are the consecutive records is `Rules.AscendingRun`.
- Rules.Descending: its own contract only states the length; that the values are the consecutive records is `Rules.DescendingRun`.

## Findings

| source | as written | input that shows it | evidently intended | confidence | as-written member | corrected member |
|---|---|---|---|---|---|---|
| estnin.py:430-437 | the date setter runs the year, month and day setters one after another, each validating the date it would make on its own; a step that fails leaves the earlier steps applied | a number born 1970-01-31 given the valid date 1972-02-28: the year step makes 1972-01-31, the month step would make 31 February and raises, and the object is left on 1972-01-31 | a valid date is written as a whole, with the century digit recomputed for the same sex; only a year outside 1800..2199 is refused, and a refusal changes nothing | not executed | Rules.DateSetSequentialFails | Rules.DateSet |
