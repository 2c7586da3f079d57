/**
 * Human-readable sizes: `get_file_size` (three base-1024 units, no clamp) and
 * the image strategy's own two-unit KB/MB label. A label records the unit and
 * the magnitude rounded to two decimals (in hundredths); the decimal text the
 * source prints from it is not modelled.
 */
module FileSize {
  import opened Wrappers
  import opened Failures

  const KiB: nat := 1024
  const MiB: nat := 1024 * 1024
  const GiB: nat := 1024 * 1024 * 1024

  /** The entries of `size_name = ("bytes", "KB", "MB")`, in order. */
  datatype SizeUnit = Bytes | KB | MB {
    /** Position of the unit in `size_name`, i.e. its power of 1024. */
    function Index(): nat {
      match this
      case Bytes => 0
      case KB => 1
      case MB => 2
    }
  }

  datatype SizeLabel =
      /** The literal "0 bytes". */
    | ZeroBytes
      /** A magnitude in `unit`, rounded to two decimals and held as hundredths. */
    | Scaled(unit: SizeUnit, hundredths: nat)

  function Pow1024(i: nat): (p: nat)
    ensures p >= 1
  {
    if i == 0 then 1 else 1024 * Pow1024(i - 1)
  }

  lemma {:induction false} Pow1024Monotone(i: nat, j: nat)
    requires i <= j
    ensures Pow1024(i) <= Pow1024(j)
    decreases j
  {
    if i < j {
      Pow1024Monotone(i, j - 1);
    }
  }

  /** `floor(log(n, 1024))`, computed on integers: the power of 1024 that brackets `n`. */
  function UnitIndex(n: nat): (i: nat)
    requires n >= 1
    ensures Pow1024(i) <= n < Pow1024(i + 1)
    decreases n
  {
    if n < 1024 then 0 else 1 + UnitIndex(n / 1024)
  }

  /** The bracketing power is unique, so `UnitIndex` is the largest `i` with 1024^i <= n. */
  lemma UnitIndexUnique(n: nat, i: nat)
    requires n >= 1
    requires Pow1024(i) <= n < Pow1024(i + 1)
    ensures UnitIndex(n) == i
  {
    var k := UnitIndex(n);
    if k < i {
      Pow1024Monotone(k + 1, i);
    } else if i < k {
      Pow1024Monotone(i + 1, k);
    }
  }

  /** `size_name[i]`: only three units exist. */
  function UnitAt(i: nat): (u: Option<SizeUnit>)
    ensures u.Some? <==> i < 3
    ensures u.Some? ==> u.value.Index() == i
  {
    if i == 0 then Some(Bytes) else if i == 1 then Some(KB) else if i == 2 then Some(MB) else None
  }

  /** `r` is `num / den` rounded to the nearest integer, ties to the even one. */
  ghost predicate NearestTiesEven(num: nat, den: nat, r: nat) {
    && 2 * (num - den * r) <= den
    && 2 * (den * r - num) <= den
    && (2 * (num - den * r) == den || 2 * (den * r - num) == den ==> r % 2 == 0)
  }

  /**
   * Python's `round(x, 2)` and `format(x, '.2f')` on the exact value
   * `x * 100 == num / den`: correctly rounded, half to even.
   */
  function RoundHalfEven(num: nat, den: nat): (r: nat)
    requires den > 0
    ensures NearestTiesEven(num, den, r)
  {
    var q := num / den;
    var rem := num % den;
    assert den * q + rem == num;
    assert den * (q + 1) == den * q + den;
    if 2 * rem < den then q
    else if 2 * rem > den then q + 1
    else if q % 2 == 0 then q
    else q + 1
  }

  lemma MulStep(d: nat, a: nat)
    ensures d * (a + 1) == d * a + d
  {
  }

  lemma MulMonotone(d: nat, a: nat, b: nat)
    requires a <= b
    ensures d * a <= d * b
  {
  }

  /** At most one integer is nearest with ties to even. */
  lemma NearestTiesEvenUnique(num: nat, den: nat, r: nat, s: nat)
    requires den > 0
    requires NearestTiesEven(num, den, r) && NearestTiesEven(num, den, s)
    ensures r == s
  {
    if r != s {
      var lo, hi := if r < s then r else s, if r < s then s else r;
      MulStep(den, lo);
      MulStep(den, lo + 1);
      MulMonotone(den, lo + 1, hi);
      if hi >= lo + 2 {
        MulMonotone(den, lo + 2, hi);
      }
    }
  }

  /** Rounding keeps a lower bound `k <= num / den`. */
  lemma RoundAtLeast(num: nat, den: nat, k: nat)
    requires den > 0 && den * k <= num
    ensures RoundHalfEven(num, den) >= k
  {
    var r := RoundHalfEven(num, den);
    if r < k {
      MulMonotone(den, r + 1, k);
      MulStep(den, r);
    }
  }

  /** Rounding keeps an upper bound `num / den <= k`. */
  lemma RoundAtMost(num: nat, den: nat, k: nat)
    requires den > 0 && num <= den * k
    ensures RoundHalfEven(num, den) <= k
  {
    var r := RoundHalfEven(num, den);
    if r > k {
      MulMonotone(den, k + 1, r);
      MulStep(den, k);
    }
  }

  /**
   * `get_file_size`: "0 bytes" for 0; otherwise the unit `size_name[i]` for
   * `i = floor(log_1024(size))` and the magnitude `size / 1024^i` rounded to
   * two decimals. There is no clamp: from 1 GiB on, `i` is past the tuple and
   * the lookup raises.
   */
  function GetFileSize(size: nat): (r: Result<SizeLabel, Error>)
    ensures size == 0 ==> r == Success(ZeroBytes)
    ensures r.Failure? <==> size >= GiB
    ensures r.Failure? ==> r.error.SizeUnitOutOfRange? && r.error.index >= 3
    ensures r.Success? && size > 0 ==>
      && r.value.Scaled?
      && var p := Pow1024(r.value.unit.Index());
      && p <= size < 1024 * p
      && NearestTiesEven(100 * size, p, r.value.hundredths)
  {
    if size == 0 then Success(ZeroBytes)
    else
      var i := UnitIndex(size);
      assert i >= 3 <==> size >= GiB by {
        if i >= 3 {
          Pow1024Monotone(3, i);
        } else {
          Pow1024Monotone(i + 1, 3);
        }
      }
      match UnitAt(i)
      case None => Failure(SizeUnitOutOfRange(i))
      case Some(unit) => Success(Scaled(unit, RoundHalfEven(100 * size, Pow1024(i))))
  }

  /** Every label `get_file_size` returns shows a magnitude between 1.00 and 1024.00 in its unit. */
  lemma GetFileSizeMagnitude(size: nat)
    requires 0 < size < GiB
    ensures GetFileSize(size).Success?
    ensures var l := GetFileSize(size).value; l.Scaled? && 100 <= l.hundredths <= 102400
  {
    var l := GetFileSize(size).value;
    var p := Pow1024(l.unit.Index());
    NearestTiesEvenUnique(100 * size, p, l.hundredths, RoundHalfEven(100 * size, p));
    RoundAtLeast(100 * size, p, 100);
    RoundAtMost(100 * size, p, 102400);
  }

  /** The unit is the largest one the size reaches: no larger unit would show a magnitude of at least 1. */
  lemma GetFileSizeLargestUnit(size: nat, j: nat)
    requires 0 < size < GiB
    requires Pow1024(j) <= size
    ensures j <= GetFileSize(size).value.unit.Index()
  {
    var i := GetFileSize(size).value.unit.Index();
    if j > i {
      Pow1024Monotone(i + 1, j);
    }
  }

  /**
   * The image strategy's label: KB when the byte count is below 1024 KB,
   * otherwise MB; the magnitude is `n / 1024` or `n / 1024 / 1024` formatted
   * with two decimals. It never uses the "bytes" unit and has no upper limit.
   */
  function ImageSizeLabel(n: nat): (r: SizeLabel)
    ensures r.Scaled? && r.unit != Bytes
    ensures r.unit == KB <==> n < MiB
    ensures NearestTiesEven(100 * n, Pow1024(r.unit.Index()), r.hundredths)
  {
    if n < MiB then Scaled(KB, RoundHalfEven(100 * n, KiB))
    else Scaled(MB, RoundHalfEven(100 * n, MiB))
  }

  /** A KB image label never exceeds 1024.00 KB, and an MB one never shows less than 1.00 MB. */
  lemma ImageSizeBounds(n: nat)
    ensures var l := ImageSizeLabel(n);
      && (l.unit == KB ==> l.hundredths <= 102400)
      && (l.unit == MB ==> l.hundredths >= 100)
  {
    if n < MiB {
      RoundAtMost(100 * n, KiB, 102400);
    } else {
      RoundAtLeast(100 * n, MiB, 100);
    }
  }

  /** Worked values: 1536 bytes is 1.5 KB, 1.5 MiB is 1.5 MB, 2048 bytes is 2 KB. */
  lemma GetFileSizeExamples()
    ensures GetFileSize(1536) == Success(Scaled(KB, 150))
    ensures GetFileSize(1572864) == Success(Scaled(MB, 150))
    ensures GetFileSize(2048) == Success(Scaled(KB, 200))
    ensures GetFileSize(GiB).Failure?
  {
    UnitIndexUnique(1536, 1);
    UnitIndexUnique(1572864, 2);
    UnitIndexUnique(2048, 1);
  }
}
