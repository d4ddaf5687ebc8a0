/** The identity-number record `G YY MM DD SSS C` and its integer form:
    packing a record into eleven decimal digits, and the range, check-digit
    and date checks that turn an integer back into a record. */
module Codec {
  import opened Wrappers
  import opened Calendar
  import opened Checksum
  import opened Arith

  /** The record the library keeps: century digit, birth date, sequence, check digit. */
  datatype Rec = Rec(century: int, date: Date, sequence: int, checksum: int)

  /** First and last valid values as numbers. */
  const Min := 10001010002
  const Max := 89912319991

  /** The eleven-digit value of a record: G, YY, MM, DD, SSS, C as decimal places. */
  function ToInt(r: Rec): (v: int) {
    r.century * 10000000000
    + r.date.year % 100 * 100000000
    + r.date.month * 1000000
    + r.date.day * 10000
    + r.sequence * 10
    + r.checksum
  }

  /** The full year of a two-digit year under a century digit. */
  function CalculateYear(century: int, year: int): (y: int) {
    1800 + 100 * ((century - 1) / 2) + year % 100
  }

  /** The century digit for a year: odd for a male, the next even digit for a female. */
  function CalculateCentury(year: int, male: bool): (c: int) {
    var century := (year - 1800) / 100 * 2 + 1;
    if male then century else century + 1
  }

  predicate IsMale(r: Rec) { r.century % 2 == 1 }
  predicate IsFemale(r: Rec) { r.century % 2 == 0 }

  /** Every field in range and the year inside the century digit's era; the
      check digit is a digit but not necessarily the right one. */
  predicate Shaped(r: Rec) {
    && 1 <= r.century <= 8
    && ValidDate(r.date)
    && (r.date.year - 1800) / 100 == (r.century - 1) / 2
    && 0 <= r.sequence <= 999
    && 0 <= r.checksum <= 9
  }

  /** A live identity number: shaped, with the check digit of its own first ten digits. */
  predicate ValidRec(r: Rec) {
    Shaped(r) && r.checksum == CalculateChecksum(ToInt(r))
  }

  /** The record with its check digit recomputed. */
  function WithChecksum(r: Rec): (r': Rec)
    requires Shaped(r)
    ensures ValidRec(r')
    ensures r' == r.(checksum := r'.checksum)
  {
    var r' := r.(checksum := CalculateChecksum(ToInt(r)));
    assert ToInt(r') == ToInt(r) / 10 * 10 + r'.checksum;
    ChecksumIgnoresLastDigit(ToInt(r), r'.checksum);
    r'
  }

  /** The birth date encoded in the first seven digits of `v`. */
  function ValidateDate(v: int): (date: Option<Date>) {
    var century := v / 10000000000;
    var year := CalculateYear(century, (v % 10000000000) / 100000000);
    MakeDate(year, (v % 100000000) / 1000000, (v % 1000000) / 10000)
  }

  /** The check digit of `v` if its last digit is that check digit. */
  function ValidateChecksum(v: nat): (res: Result<int>) {
    var calculated := CalculateChecksum(v);
    if v % 10 != calculated then Err(InvalidChecksum) else Ok(calculated)
  }

  /** The record of `v` with the given check digit, if `v` holds a calendar date. */
  function BuildRec(v: int, checksum: int): (res: Result<Rec>) {
    match ValidateDate(v)
    case None => Err(InvalidDate)
    case Some(d) => Ok(Rec(v / 10000000000, d, (v / 10) % 1000, checksum))
  }

  /** Reading an integer: range check, then the check digit (verified, or
      recomputed when `setChecksum`), then the calendar date. */
  function ValidateFormat(v: int, setChecksum: bool): (res: Result<Rec>) {
    if setChecksum then
      if !(Min / 10 * 10 <= v <= Max / 10 * 10 + 9) then Err(OutOfRange)
      else BuildRec(v, CalculateChecksum(v))
    else if !(Min <= v <= Max) then Err(OutOfRange)
    else match ValidateChecksum(v)
      case Err(e) => Err(e)
      case Ok(c) => BuildRec(v, c)
  }

  // ---------------------------------------------------------------------
  // Decimal places

  /** The eleven decimal places of `v`, most significant first. */
  lemma Places(v: int)
    requires 0 <= v
    ensures v == v / 10000000000 * 10000000000
               + (v % 10000000000) / 100000000 * 100000000
               + (v % 100000000) / 1000000 * 1000000
               + (v % 1000000) / 10000 * 10000
               + (v / 10) % 1000 * 10
               + v % 10
  {
    var a, r10 := v / 10000000000, v % 10000000000;
    var b, r8 := r10 / 100000000, r10 % 100000000;
    DivModOf(v, a * 100 + b, r8, 100000000);
    var c, r6 := r8 / 1000000, r8 % 1000000;
    DivModOf(v, a * 10000 + b * 100 + c, r6, 1000000);
    var d, r4 := r6 / 10000, r6 % 10000;
    var high := a * 1000000 + b * 10000 + c * 100 + d;
    DivModOf(v, high * 1000 + r4 / 10, r4 % 10, 10);
    DivModOf(v / 10, high, r4 / 10, 1000);
  }

  /** Reading the places back from a record's value. */
  lemma ToIntPlaces(r: Rec)
    requires Shaped(r)
    ensures 10000000000 <= ToInt(r) < 100000000000
    ensures ToInt(r) / 10000000000 == r.century
    ensures (ToInt(r) % 10000000000) / 100000000 == r.date.year % 100
    ensures (ToInt(r) % 100000000) / 1000000 == r.date.month
    ensures (ToInt(r) % 1000000) / 10000 == r.date.day
    ensures (ToInt(r) / 10) % 1000 == r.sequence
    ensures ToInt(r) % 10 == r.checksum
  {
    var v, c, yy, m, d, s, k := ToInt(r), r.century, r.date.year % 100, r.date.month, r.date.day, r.sequence, r.checksum;
    var low4 := s * 10 + k;
    var low6 := d * 10000 + low4;
    var low8 := m * 1000000 + low6;
    DivModOf(v, c, yy * 100000000 + low8, 10000000000);
    DivModOf(yy * 100000000 + low8, yy, low8, 100000000);
    DivModOf(v, c * 100 + yy, low8, 100000000);
    DivModOf(low8, m, low6, 1000000);
    DivModOf(v, c * 10000 + yy * 100 + m, low6, 1000000);
    DivModOf(low6, d, low4, 10000);
    var prefix := c * 1000000000 + yy * 10000000 + m * 100000 + d * 1000 + s;
    DivModOf(v, prefix, k, 10);
    DivModOf(prefix, c * 1000000 + yy * 10000 + m * 100 + d, s, 1000);
  }

  /** The year of a shaped record is the one its century digit and two-digit year give. */
  lemma YearFromCentury(r: Rec)
    requires Shaped(r)
    ensures CalculateYear(r.century, r.date.year) == r.date.year
    ensures 1800 <= r.date.year <= 2199
  {
  }
  /** The computed century digit is in range, names the year's era and carries the sex. */
  lemma CenturyOfYear(year: int, male: bool)
    requires 1800 <= year <= 2199
    ensures var c := CalculateCentury(year, male);
      1 <= c <= 8 && (year - 1800) / 100 == (c - 1) / 2 && (c % 2 == 1 <==> male)
  {
  }

  /** The century digit of a shaped record is the one its year and sex give. */
  lemma CenturyFromYear(r: Rec)
    requires Shaped(r)
    ensures r.century == CalculateCentury(r.date.year, IsMale(r))
  {
  }

  // ---------------------------------------------------------------------
  // Decoding and encoding

  /** Every valid record lies between the first and last valid values. */
  lemma ValidRecInRange(r: Rec)
    requires ValidRec(r)
    ensures Min <= ToInt(r) <= Max
  {
    var v, k := ToInt(r), r.checksum;
    assert 0 <= r.date.year % 100 <= 99;
    if v < Min {
      assert v == Min / 10 * 10 + k;
      ChecksumFirstPass();
      ChecksumIgnoresLastDigit(Min, k);
    } else if v > Max {
      assert v == Max / 10 * 10 + k;
      ChecksumOfMax();
      ChecksumIgnoresLastDigit(Max, k);
    }
  }

  /** What reading an integer accepts is a valid record: in verify mode its
      value is the integer itself, with `setChecksum` the integer with its
      last digit replaced by the computed check digit. */
  lemma DecodeSound(v: int, setChecksum: bool)
    requires ValidateFormat(v, setChecksum).Ok?
    ensures ValidRec(ValidateFormat(v, setChecksum).value)
    ensures ToInt(ValidateFormat(v, setChecksum).value) == v / 10 * 10 + CalculateChecksum(v)
    ensures !setChecksum ==> ToInt(ValidateFormat(v, setChecksum).value) == v
  {
    var r := ValidateFormat(v, setChecksum).value;
    var century, yy := v / 10000000000, (v % 10000000000) / 100000000;
    assert 1 <= century <= 8 && 0 <= yy < 100;
    assert r == Rec(century, ValidateDate(v).value, (v / 10) % 1000, CalculateChecksum(v));
    assert r.date.year == CalculateYear(century, yy);
    YearOfCentury(century, yy);
    assert Shaped(r);
    assert ToInt(r) == v / 10 * 10 + r.checksum by {
      Places(v);
    }
    ChecksumIgnoresLastDigit(v, r.checksum);
  }

  /** The year a century digit and a two-digit year give keeps those two
      digits and lies in the century digit's era. */
  lemma YearOfCentury(century: int, yy: int)
    requires 1 <= century <= 8 && 0 <= yy < 100
    ensures CalculateYear(century, yy) % 100 == yy
    ensures (CalculateYear(century, yy) - 1800) / 100 == (century - 1) / 2
  {
    var k := (century - 1) / 2;
    DivModOf(CalculateYear(century, yy), 18 + k, yy, 100);
    DivModOf(CalculateYear(century, yy) - 1800, k, yy, 100);
  }

  /** A shaped record read back with `setChecksum` is the record with its
      check digit recomputed; a valid one read back in verify mode is itself. */
  lemma EncodeDecode(r: Rec)
    requires Shaped(r)
    ensures ValidateFormat(ToInt(r), true) == Ok(WithChecksum(r))
    ensures ValidRec(r) ==> ValidateFormat(ToInt(r), false) == Ok(r)
  {
    ToIntPlaces(r);
    DecodeDate(r);
    if ValidRec(r) {
      ValidRecInRange(r);
    }
  }

  /** The date digits of a shaped record's value give back its date. */
  lemma DecodeDate(r: Rec)
    requires Shaped(r)
    ensures ValidateDate(ToInt(r)) == Some(r.date)
  {
    ToIntPlaces(r);
    YearFromCentury(r);
    assert (ToInt(r) % 10000000000) / 100000000 == r.date.year % 100;
    assert CalculateYear(r.century, r.date.year % 100) == r.date.year;
  }

  /** Distinct shaped records have distinct values. */
  lemma ToIntInjective(a: Rec, b: Rec)
    requires Shaped(a) && Shaped(b) && ToInt(a) == ToInt(b)
    ensures a == b
  {
    ToIntPlaces(a);
    ToIntPlaces(b);
    YearFromCentury(a);
    YearFromCentury(b);
  }

  /** Shaped records have equal values exactly when they are equal. */
  lemma ToIntEqual(a: Rec, b: Rec)
    requires Shaped(a) && Shaped(b)
    ensures ToInt(a) == ToInt(b) <==> a == b
  {
    if ToInt(a) == ToInt(b) {
      ToIntInjective(a, b);
    }
  }

  // ---------------------------------------------------------------------
  // Order

  /** Order of the fields, most significant first: century digit, birth
      date, sequence, check digit. */
  predicate KeyLess(a: Rec, b: Rec) {
    || a.century < b.century
    || (a.century == b.century && DateLess(a.date, b.date))
    || (a.century == b.century && a.date == b.date && a.sequence < b.sequence)
    || (a.century == b.century && a.date == b.date && a.sequence == b.sequence && a.checksum < b.checksum)
  }

  /** Comparing two-part numbers `h * B + l` with `0 <= l < B`. */
  lemma PlaceLess(h1: int, l1: int, h2: int, l2: int, b: int)
    requires b > 0 && 0 <= l1 < b && 0 <= l2 < b
    ensures h1 * b + l1 < h2 * b + l2 <==> h1 < h2 || (h1 == h2 && l1 < l2)
  {
    if h1 < h2 {
      MulAtLeast(h2 - h1, b);
      assert h2 * b - h1 * b == (h2 - h1) * b;
    } else if h2 < h1 {
      MulAtLeast(h1 - h2, b);
      assert h1 * b - h2 * b == (h1 - h2) * b;
    }
  }

  /** Two-part numbers `h * B + l` with `0 <= l < B` are equal only part by part. */
  lemma PlaceEq(h1: int, l1: int, h2: int, l2: int, b: int)
    requires b > 0 && 0 <= l1 < b && 0 <= l2 < b
    ensures h1 * b + l1 == h2 * b + l2 <==> h1 == h2 && l1 == l2
  {
    PlaceLess(h1, l1, h2, l2, b);
    PlaceLess(h2, l2, h1, l1, b);
  }

  /** Numbers built from digit groups `c YY MM DD SSS K` compare group by group. */
  lemma GroupOrder(c1: int, y1: int, m1: int, d1: int, s1: int, k1: int,
                   c2: int, y2: int, m2: int, d2: int, s2: int, k2: int)
    requires 0 <= y1 < 100 && 0 <= m1 < 100 && 0 <= d1 < 100 && 0 <= s1 < 1000 && 0 <= k1 < 10
    requires 0 <= y2 < 100 && 0 <= m2 < 100 && 0 <= d2 < 100 && 0 <= s2 < 1000 && 0 <= k2 < 10
    ensures (c1 * 10000000000 + y1 * 100000000 + m1 * 1000000 + d1 * 10000 + s1 * 10 + k1
             < c2 * 10000000000 + y2 * 100000000 + m2 * 1000000 + d2 * 10000 + s2 * 10 + k2)
      <==>
      || c1 < c2
      || (c1 == c2 && y1 < y2)
      || (c1 == c2 && y1 == y2 && m1 < m2)
      || (c1 == c2 && y1 == y2 && m1 == m2 && d1 < d2)
      || (c1 == c2 && y1 == y2 && m1 == m2 && d1 == d2 && s1 < s2)
      || (c1 == c2 && y1 == y2 && m1 == m2 && d1 == d2 && s1 == s2 && k1 < k2)
  {
    var a1, b1 := c1 * 100 + y1, c2 * 100 + y2;
    var a2, b2 := a1 * 100 + m1, b1 * 100 + m2;
    var a3, b3 := a2 * 100 + d1, b2 * 100 + d2;
    var a4, b4 := a3 * 1000 + s1, b3 * 1000 + s2;
    PlaceLess(a4, k1, b4, k2, 10);
    PlaceLess(a3, s1, b3, s2, 1000);
    PlaceEq(a3, s1, b3, s2, 1000);
    PlaceLess(a2, d1, b2, d2, 100);
    PlaceEq(a2, d1, b2, d2, 100);
    PlaceLess(a1, m1, b1, m2, 100);
    PlaceEq(a1, m1, b1, m2, 100);
    PlaceLess(c1, y1, c2, y2, 100);
    PlaceEq(c1, y1, c2, y2, 100);
  }

  /** Numeric order of shaped records is the order of their digit groups. */
  lemma IntOrderDigits(a: Rec, b: Rec)
    requires Shaped(a) && Shaped(b)
    ensures ToInt(a) < ToInt(b) <==>
      || a.century < b.century
      || (a.century == b.century && a.date.year % 100 < b.date.year % 100)
      || (a.century == b.century && a.date.year % 100 == b.date.year % 100 && a.date.month < b.date.month)
      || (a.century == b.century && a.date.year % 100 == b.date.year % 100 && a.date.month == b.date.month
          && a.date.day < b.date.day)
      || (a.century == b.century && a.date.year % 100 == b.date.year % 100 && a.date.month == b.date.month
          && a.date.day == b.date.day && a.sequence < b.sequence)
      || (a.century == b.century && a.date.year % 100 == b.date.year % 100 && a.date.month == b.date.month
          && a.date.day == b.date.day && a.sequence == b.sequence && a.checksum < b.checksum)
  {
    GroupOrder(a.century, a.date.year % 100, a.date.month, a.date.day, a.sequence, a.checksum,
               b.century, b.date.year % 100, b.date.month, b.date.day, b.sequence, b.checksum);
  }

  /** Numeric order of shaped records is the order of their fields. */
  lemma IntOrder(a: Rec, b: Rec)
    requires Shaped(a) && Shaped(b)
    ensures ToInt(a) < ToInt(b) <==> KeyLess(a, b)
  {
    IntOrderDigits(a, b);
    YearFromCentury(a);
    YearFromCentury(b);
  }
  /** A valid record is fixed by its century digit, date and sequence: the
      check digit follows from them. */
  lemma SameFieldsSameRec(a: Rec, b: Rec)
    requires ValidRec(a) && ValidRec(b)
    requires a.century == b.century && a.date == b.date && a.sequence == b.sequence
    ensures a == b
  {
    ToIntPlaces(a);
    ToIntPlaces(b);
    assert ToInt(a) / 10 * 10 + b.checksum == ToInt(b);
    ChecksumIgnoresLastDigit(ToInt(a), b.checksum);
  }
}
