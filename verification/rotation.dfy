/** The round-robin cursor over the configured spawn strategies. After every
    spawn the manager advances the process collection and rewinds it once it
    is no longer valid (src/Manager/Flexible.php:104-107). The collection is
    modelled by its size and the cursor by an index into it. */
module Rotation {

  /** The number of spawn strategies: the collection is never empty. */
  type Positive = n: nat | 0 < n witness 1

  /** One `next()`, followed by `rewind()` when the cursor ran off the end. */
  function Advance(cursor: nat, n: Positive): (r: nat)
    ensures r < n
    ensures cursor < n ==> r == (cursor + 1) % n
  {
    if cursor + 1 < n then cursor + 1 else 0
  }

  /** The cursor after `k` spawns. */
  function AdvanceN(cursor: nat, n: Positive, k: nat): (r: nat)
    ensures cursor < n || 0 < k ==> r < n
    decreases k
  {
    if k == 0 then cursor else AdvanceN(Advance(cursor, n), n, k - 1)
  }

  /** One more spawn advances the cursor once more. */
  lemma {:induction false} AdvanceNSnoc(cursor: nat, n: Positive, k: nat)
    ensures AdvanceN(cursor, n, k + 1) == Advance(AdvanceN(cursor, n, k), n)
    decreases k
  {
    if k > 0 {
      AdvanceNSnoc(Advance(cursor, n), n, k - 1);
    }
  }

  /** From a valid position, `k` spawns move the cursor `k` places modulo the
      number of strategies: the rotation visits every strategy in turn. */
  lemma {:induction false} AdvanceNIsModular(cursor: nat, n: Positive, k: nat)
    requires cursor < n
    ensures AdvanceN(cursor, n, k) == (cursor + k) % n
    decreases k
  {
    if k > 0 {
      var c := Advance(cursor, n);
      AdvanceNIsModular(c, n, k - 1);
      if cursor + 1 == n {
        assert c + (k - 1) + n == cursor + k;
        ModShift(c + (k - 1), n);
      }
    }
  }

  /** Adding the modulus does not change a remainder. */
  lemma ModShift(x: nat, n: Positive)
    ensures (x + n) % n == x % n
  {
    var q, r := x / n, x % n;
    assert x == q * n + r;
    assert x + n == (q + 1) * n + r;
    ModOfMultiplePlus(x + n, n, q + 1, r);
  }

  /** A remainder is determined by any quotient-remainder decomposition. */
  lemma ModOfMultiplePlus(x: nat, n: Positive, q: nat, r: nat)
    requires r < n && x == q * n + r
    ensures x % n == r
  {
    var q', r' := x / n, x % n;
    assert x == q' * n + r';
    if q' < q {
      MulMonotone(q' + 1, q, n);
      assert false;
    } else if q < q' {
      MulMonotone(q + 1, q', n);
      assert false;
    }
  }

  /** Multiplication by a natural number is monotone. */
  lemma {:induction false} MulMonotone(a: nat, b: nat, n: nat)
    requires a <= b
    ensures a * n <= b * n
    decreases b - a
  {
    if a < b {
      MulMonotone(a + 1, b, n);
      assert (a + 1) * n == a * n + n;
    }
  }
}
