/** Machine integers and serial-number arithmetic (lwip/priv/tcp_priv.h). */
module SeqNum {
  const M32: int := 0x1_0000_0000
  const HALF32: int := 0x8000_0000

  type byte = x: int | 0 <= x < 0x100
  type u16 = x: int | 0 <= x < 0x1_0000
  type u32 = x: int | 0 <= x < 0x1_0000_0000

  /** Reduction of an unbounded position to the 32-bit number on the wire. */
  function Wrap(x: int): (r: u32) {
    x % M32
  }

  /** The cast `(s32_t)((u32_t)a - (u32_t)b)`. */
  function Diff(a: u32, b: u32): (d: int) {
    var d := (a - b) % M32;
    if d < HALF32 then d else d - M32
  }

  predicate SeqLt(a: u32, b: u32) { Diff(a, b) < 0 }
  predicate SeqLeq(a: u32, b: u32) { Diff(a, b) <= 0 }
  predicate SeqGt(a: u32, b: u32) { Diff(a, b) > 0 }
  predicate SeqGeq(a: u32, b: u32) { Diff(a, b) >= 0 }
  predicate SeqBetween(a: u32, b: u32, c: u32) { SeqGeq(a, b) && SeqLeq(a, c) }

  /** Comparing wrapped numbers is comparing the positions they came from,
      exactly when those positions lie within half the number space. */
  lemma {:induction false} DiffExact(x: int, y: int)
    ensures Diff(Wrap(x), Wrap(y)) == x - y <==> -HALF32 <= x - y < HALF32
  {
    assert x == M32 * (x / M32) + Wrap(x) && y == M32 * (y / M32) + Wrap(y);
    WrapOfSum(Wrap(x) - Wrap(y), x / M32 - y / M32);
    assert (x - y) % M32 == (Wrap(x) - Wrap(y)) % M32 by {
      assert x - y == Wrap(x) - Wrap(y) + M32 * (x / M32 - y / M32);
    }
    var d := (x - y) % M32;
    assert x - y == M32 * ((x - y) / M32) + d;
  }

  lemma {:induction false} WrapOfSum(x: int, k: int)
    ensures Wrap(x + M32 * k) == Wrap(x)
  {
    var q, r := x / M32, x % M32;
    assert x + M32 * k == M32 * (q + k) + r;
  }

  /** Arithmetic on wrapped numbers follows arithmetic on positions. */
  lemma {:induction false} WrapAdd(x: int, y: int)
    ensures Wrap(Wrap(x) + y) == Wrap(x + y)
  {
    assert x == M32 * (x / M32) + Wrap(x);
    WrapOfSum(Wrap(x) + y, x / M32);
    assert x + y == Wrap(x) + y + M32 * (x / M32);
  }

  /** Every number on the wire stands for a position within half the number space of any other. */
  lemma {:induction false} NearestPosition(n: u32, x: int)
    ensures n == Wrap(x + Diff(n, Wrap(x)))
  {
    var d := (n - Wrap(x)) % M32;
    WrapAdd(x, n - Wrap(x));
    assert n - Wrap(x) == M32 * ((n - Wrap(x)) / M32) + d;
    WrapOfSum(x + d, (n - Wrap(x)) / M32);
    WrapOfSum(x + d, -1);
  }
}
