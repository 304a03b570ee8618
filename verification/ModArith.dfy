/** Facts about positions in ring buffers. */
module ModArith {
  /** Quotient and remainder are unique. */
  lemma DivModUnique(x: int, n: nat, q: int, r: int)
    requires n > 0 && 0 <= r < n && x == n * q + r
    ensures x / n == q && x % n == r
  {
    var d := q - x / n;
    assert n * d == x % n - r by {
      assert n * d == n * q - n * (x / n);
    }
    MulBound(n, d);
  }

  lemma MulBound(n: nat, d: int)
    ensures d >= 1 ==> n * d >= n
    ensures d <= -1 ==> n * d <= 0 - n
  {
  }

  lemma MulAtLeast(n: nat, d: int)
    requires d >= 1
    ensures n * d >= n
  {
  }

  lemma ModShift(r: int, n: nat, k: int)
    requires n > 0
    ensures (n * k + r) % n == r % n
  {
    assert n * k + r == n * (k + r / n) + r % n by {
      assert n * (k + r / n) == n * k + n * (r / n);
    }
    DivModUnique(n * k + r, n, k + r / n, r % n);
  }

  lemma ModOfMod(i: nat, m: nat, n: nat)
    requires m > 0 && n > 0 && m % n == 0
    ensures i % m % n == i % n
  {
    var a, b := i / m, m / n;
    MulAssoc(n, b, a);
    assert m == n * b;
    assert i == n * (b * a) + i % m;
    ModShift(i % m, n, b * a);
  }

  lemma MulAssoc(x: int, y: int, z: int)
    ensures x * y * z == x * (y * z)
  {
  }

  /** Two counters less than one ring apart stand in different slots. */
  lemma ModDistinct(i: nat, j: nat, n: nat)
    requires n > 0 && i < j < i + n
    ensures i % n != j % n
  {
    var q := j / n - i / n;
    assert n * q == n * (j / n) - n * (i / n);
    if q >= 1 {
      MulAtLeast(n, q);
    } else {
      assert n * q <= 0;
    }
  }

  /** The step of a wrapping counter. */
  lemma ModNext(i: nat, n: nat)
    requires n > 0
    ensures (i % n + 1) % n == (i + 1) % n
  {
    var q := i / n;
    assert i + 1 == n * q + (i % n + 1);
    ModShift(i % n + 1, n, q);
  }

  /** Two counters at most m-1 apart agree modulo m only when they are equal. */
  lemma ModSame(i: nat, j: nat, m: nat)
    requires m > 0 && i <= j < i + m
    ensures i % m == j % m <==> i == j
  {
    if i < j {
      ModDistinct(i, j, m);
    }
  }

  /** Counting on from the wrapped successor. */
  lemma ModCarry(i: nat, k: nat, n: nat)
    requires n > 0
    ensures ((i + 1) % n + k) % n == (i + k + 1) % n
  {
    var d := (i + 1) / n;
    assert i + k + 1 == n * d + ((i + 1) % n + k);
    ModShift((i + 1) % n + k, n, d);
  }

  /** Stepping on comes home exactly after whole rounds. */
  lemma ModHome(i: nat, k: nat, n: nat)
    requires i < n
    ensures (i + k) % n == i <==> k % n == 0
  {
    var e, r := k / n, k % n;
    assert i + k == n * e + (i + r);
    ModShift(i + r, n, e);
    DivModUnique(i + r, n, if i + r < n then 0 else 1, if i + r < n then i + r else i + r - n);
  }

  /** The gap between two counters less than a round apart, from their remainders. */
  lemma ModGap(i: nat, j: nat, n: nat)
    requires n > 0 && i <= j < i + n
    ensures (j % n - i % n) % n == j - i
  {
    var q := j / n - i / n;
    assert n * q == n * (j / n) - n * (i / n);
    assert j % n - i % n == n * (0 - q) + (j - i) by {
      assert n * (0 - q) == 0 - n * q;
    }
    DivModUnique(j % n - i % n, n, 0 - q, j - i);
  }
}
