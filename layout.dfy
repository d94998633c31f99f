/**
 * The equal-partition rule shared by `VBoxContainer.draw` and
 * `HBoxContainer.draw`: along one axis a container of length `total` with
 * `n` children gives child `i` the slot starting at `total / n * i`, of
 * length `total / n`, less a one-unit gap for every child but the last.
 */
module Layout {

  /** The hairline gap left after child `i` of `n`. */
  function Gap(n: nat, i: nat): real {
    if i != n - 1 then 1.0 else 0.0
  }

  /** Offset of slot `i` from the container's origin (`size / length * i`). */
  function SlotStart(total: real, n: nat, i: nat): real
    requires n > 0
  {
    total / n as real * i as real
  }

  /** Length of slot `i` (`size / length - (i != length - 1 ? 1 : 0)`). */
  function SlotLength(total: real, n: nat, i: nat): real
    requires n > 0
  {
    total / n as real - Gap(n, i)
  }

  /** Sum of the lengths of the first `k` slots. */
  function LengthsUpTo(total: real, n: nat, k: nat): real
    requires n > 0
  {
    if k == 0 then 0.0 else LengthsUpTo(total, n, k - 1) + SlotLength(total, n, k - 1)
  }

  lemma {:induction false} LengthsUpToClosedForm(total: real, n: nat, k: nat)
    requires 0 < n && k <= n
    ensures LengthsUpTo(total, n, k)
         == total / n as real * k as real - (if k == n then (n - 1) as real else k as real)
  {
    if k > 0 {
      LengthsUpToClosedForm(total, n, k - 1);
      var q := total / n as real;
      assert q * (k - 1) as real + q == q * k as real;
    }
  }

  /** The slots fill the container but for the `n - 1` gaps. */
  lemma {:induction false} LengthsSum(total: real, n: nat)
    requires n > 0
    ensures LengthsUpTo(total, n, n) == total - (n - 1) as real
  {
    LengthsUpToClosedForm(total, n, n);
    assert total / n as real * n as real == total;
  }

  /** Each slot ends one gap before the next one starts, and the last ends at the container's end. */
  lemma SlotsTile(total: real, n: nat, i: nat)
    requires i < n
    ensures SlotStart(total, n, i) + SlotLength(total, n, i) + Gap(n, i)
         == if i + 1 < n then SlotStart(total, n, i + 1) else total
  {
    var q := total / n as real;
    assert q * i as real + q == q * (i + 1) as real;
    if i + 1 == n {
      assert q * n as real == total;
    }
  }

  /** In a container of non-negative length no slot starts before the origin, and slots come in order. */
  lemma SlotsOrdered(total: real, n: nat, i: nat, j: nat)
    requires 0 < n && 0.0 <= total && i <= j
    ensures 0.0 <= SlotStart(total, n, i) <= SlotStart(total, n, j)
  {
    var q := total / n as real;
    assert 0.0 <= q;
    assert q * i as real <= q * j as real by {
      assert q * j as real - q * i as real == q * (j - i) as real;
    }
  }
}
