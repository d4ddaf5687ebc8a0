/** The weighted modulo-11 check digit of an identity number: the decimal
    digits of the number are paired with a weight list (pairs beyond the
    shorter of the two are dropped), first with weights 1..9,1 and, when that
    gives 10, again with weights 3..9,1,2,3; a second 10 becomes 0. */
module Checksum {

  /** The decimal digits of `n`, most significant first, as `str(n)` writes them. */
  function Digits(n: nat): (ds: seq<int>)
    ensures |ds| >= 1
    decreases n
  {
    if n < 10 then [n] else Digits(n / 10) + [n % 10]
  }

  /** Sum of digit times weight over the pairs that `zip` forms, from position `i` on. */
  function WeightedSum(ds: seq<int>, ws: seq<int>, i: nat := 0): (sum: int)
    decreases |ds| - i
  {
    if i >= |ds| || i >= |ws| then 0 else ds[i] * ws[i] + WeightedSum(ds, ws, i + 1)
  }

  const FirstWeights: seq<int> := [1, 2, 3, 4, 5, 6, 7, 8, 9, 1]
  const SecondWeights: seq<int> := [3, 4, 5, 6, 7, 8, 9, 1, 2, 3]

  /** The check digit of a digit string: weights 1..9,1 first, weights
      3..9,1,2,3 when the first sum is 10 modulo 11, and 0 when the second is too. */
  function CheckDigit(ds: seq<int>): (c: int)
    ensures 0 <= c <= 9
  {
    var first := WeightedSum(ds, FirstWeights) % 11;
    if first != 10 then first
    else
      var second := WeightedSum(ds, SecondWeights) % 11;
      if second == 10 then 0 else second
  }

  /** The check digit of `n`; only the first ten digits of `n` take part. */
  function CalculateChecksum(n: nat): (c: int)
    ensures 0 <= c <= 9
  {
    CheckDigit(Digits(n))
  }

  /** Digits beyond the length of the weight list do not contribute. */
  lemma {:induction false} WeightedSumIgnoresTail(ds: seq<int>, tail: seq<int>, ws: seq<int>, i: nat)
    requires |ds| >= |ws|
    ensures WeightedSum(ds + tail, ws, i) == WeightedSum(ds, ws, i)
    decreases |ws| - i
  {
    if i < |ws| {
      assert (ds + tail)[i] == ds[i];
      WeightedSumIgnoresTail(ds, tail, ws, i + 1);
    }
  }

  /** A number of at least `k + 1` digits has at least `k + 1` decimal digits. */
  lemma {:induction false} DigitsLength(n: nat, k: nat, p: nat)
    requires p == Pow10(k) && n >= p
    ensures |Digits(n)| >= k + 1
    decreases k
  {
    if k > 0 {
      DigitsLength(n / 10, k - 1, p / 10);
    }
  }

  function Pow10(k: nat): (p: nat)
    ensures p >= 1
  {
    if k == 0 then 1 else 10 * Pow10(k - 1)
  }

  /** For numbers of eleven or more digits the last digit does not matter:
      replacing it by any other digit keeps the check digit. */
  lemma ChecksumIgnoresLastDigit(n: nat, k: int)
    requires n >= 10000000000 && 0 <= k <= 9
    ensures CalculateChecksum(n / 10 * 10 + k) == CalculateChecksum(n)
  {
    var m := n / 10 * 10 + k;
    assert m / 10 == n / 10 && m % 10 == k;
    assert Pow10(9) == 1000000000;
    DigitsLength(n / 10, 9, 1000000000);
    assert Digits(n) == Digits(n / 10) + [n % 10];
    assert Digits(m) == Digits(n / 10) + [k];
    CheckDigitIgnoresTail(Digits(n / 10), [n % 10]);
    CheckDigitIgnoresTail(Digits(n / 10), [k]);
  }

  lemma CheckDigitIgnoresTail(ds: seq<int>, tail: seq<int>)
    requires |ds| >= 10
    ensures CheckDigit(ds + tail) == CheckDigit(ds)
  {
    WeightedSumIgnoresTail(ds, tail, FirstWeights, 0);
    WeightedSumIgnoresTail(ds, tail, SecondWeights, 0);
  }

  lemma DigitsStep(n: nat)
    requires n >= 10
    ensures Digits(n) == Digits(n / 10) + [n % 10]
  {
  }

  /** The first-pass case of the documented vectors. */
  lemma ChecksumFirstPass()
    ensures CalculateChecksum(10001010002) == 2
  {
    DigitsStep(10); DigitsStep(100); DigitsStep(1000); DigitsStep(10001); DigitsStep(100010);
    DigitsStep(1000101); DigitsStep(10001010); DigitsStep(100010100); DigitsStep(1000101000);
    DigitsStep(10001010002);
    assert Digits(10001010002) == [1, 0, 0, 0, 1, 0, 1, 0, 0, 0, 2];
    assert WeightedSum([1, 0, 0, 0, 1, 0, 1, 0, 0, 0, 2], FirstWeights) == 13;
  }

  /** A first pass of 10 sends the digit to the second weights. */
  lemma ChecksumSecondPass()
    ensures CalculateChecksum(10001010214) == 4
  {
    DigitsStep(10); DigitsStep(100); DigitsStep(1000); DigitsStep(10001); DigitsStep(100010);
    DigitsStep(1000101); DigitsStep(10001010); DigitsStep(100010102); DigitsStep(1000101021);
    DigitsStep(10001010214);
    assert Digits(10001010214) == [1, 0, 0, 0, 1, 0, 1, 0, 2, 1, 4];
    assert WeightedSum([1, 0, 0, 0, 1, 0, 1, 0, 2, 1, 4], FirstWeights) == 32;
    assert WeightedSum([1, 0, 0, 0, 1, 0, 1, 0, 2, 1, 4], SecondWeights) == 26;
  }

  /** A second pass of 10 gives the digit 0. */
  lemma ChecksumSecondPassTen()
    ensures CalculateChecksum(10001010080) == 0
  {
    DigitsStep(10); DigitsStep(100); DigitsStep(1000); DigitsStep(10001); DigitsStep(100010);
    DigitsStep(1000101); DigitsStep(10001010); DigitsStep(100010100); DigitsStep(1000101008);
    DigitsStep(10001010080);
    assert Digits(10001010080) == [1, 0, 0, 0, 1, 0, 1, 0, 0, 8, 0];
    assert WeightedSum([1, 0, 0, 0, 1, 0, 1, 0, 0, 8, 0], FirstWeights) == 21;
    assert WeightedSum([1, 0, 0, 0, 1, 0, 1, 0, 0, 8, 0], SecondWeights) == 43;
  }
  /** The check digit of the largest value. */
  lemma ChecksumOfMax()
    ensures CalculateChecksum(89912319991) == 1
  {
    DigitsStep(89); DigitsStep(899); DigitsStep(8991); DigitsStep(89912); DigitsStep(899123);
    DigitsStep(8991231); DigitsStep(89912319); DigitsStep(899123199); DigitsStep(8991231999);
    DigitsStep(89912319991);
    assert Digits(89912319991) == [8, 9, 9, 1, 2, 3, 1, 9, 9, 9, 1];
    assert WeightedSum([8, 9, 9, 1, 2, 3, 1, 9, 9, 9, 1], FirstWeights) == 254;
  }
}
