/** The overflow-free cap on the retry delay. */
module RetryCap {
  newtype int64 = x: int | -0x8000_0000_0000_0000 <= x < 0x8000_0000_0000_0000
  newtype int32 = x: int | -0x8000_0000 <= x < 0x8000_0000

  function Pow2(n: nat): (p: int)
    ensures p >= 1
  {
    if n == 0 then 1 else 2 * Pow2(n - 1)
  }

  /** What the cap should be, over unbounded integers. */
  function CapAt(base: int, max: int, attempt: nat): int
    requires attempt >= 1
  {
    var doubled := base * Pow2(attempt - 1);
    if doubled < max then doubled else max
  }

  lemma {:induction false} DoublingGrows(base: int, i: nat, j: nat)
    requires base > 0 && i <= j
    ensures base * Pow2(i) <= base * Pow2(j)
  {
    if i < j {
      DoublingGrows(base, i, j - 1);
      assert base * Pow2(j) == 2 * (base * Pow2(j - 1));
    }
  }

  /** The delay never shrinks from one attempt to the next and stays within its two bounds. */
  lemma CapIsMonotone(base: int, max: int, attempt: nat, later: nat)
    requires 0 < base <= max && 1 <= attempt <= later
    ensures base <= CapAt(base, max, attempt) <= CapAt(base, max, later) <= max
  {
    DoublingGrows(base, attempt - 1, later - 1);
    DoublingGrows(base, 0, attempt - 1);
  }

  /** The first failure waits for the base, and each further one doubles the wait until the cap is reached. */
  lemma CapDoubles(base: int, max: int, attempt: nat)
    requires 0 < base <= max && attempt >= 1
    ensures CapAt(base, max, 1) == base
    ensures var cap := CapAt(base, max, attempt);
            CapAt(base, max, attempt + 1) == if 2 * cap <= max then 2 * cap else max
  {
    assert base * Pow2(attempt) == 2 * (base * Pow2(attempt - 1));
  }

  /** Every intermediate value is an int64: the checks of the type are the absence of overflow. */
  method Compute(base: int64, max: int64, attempt: int32) returns (cap: int64)
    requires 0 < base <= max && 1 <= attempt
    ensures cap as int == CapAt(base as int, max as int, attempt as nat)
  {
    cap := base;
    var n: int32 := 1;
    while n < attempt && cap < max
      invariant 1 <= n <= attempt && 0 < cap <= max
      invariant cap as int == base as int * Pow2(n as nat - 1)
    {
      assert base as int * Pow2(n as nat) == 2 * (base as int * Pow2(n as nat - 1));
      if cap > max / 2 {
        DoublingGrows(base as int, n as nat, attempt as nat - 1);
        return max;
      }
      cap := cap * 2;
      n := n + 1;
    }
    DoublingGrows(base as int, n as nat - 1, attempt as nat - 1);
  }
}
