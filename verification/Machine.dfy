/** Machine integers, clock readings and the option type shared by all components. */
module Machine {

  const U32_SIZE: nat := 0x1_0000_0000

  /** Rust's `u32`. */
  type u32 = n: int | 0 <= n < 0x1_0000_0000

  /** `fetch_add(1)` on an `AtomicU32`. */
  function Inc(n: u32): u32 {
    if n + 1 == U32_SIZE then 0 else n + 1
  }

  /** `fetch_sub(1)` on an `AtomicU32`. */
  function Dec(n: u32): u32 {
    if n == 0 then U32_SIZE - 1 else n - 1
  }

  /** A number modulo 2^32. */
  function Wrap(n: int): u32 {
    n % U32_SIZE
  }

  /** Wrapping forgets nothing but multiples of 2^32: steps may be wrapped one by one or all at once. */
  lemma WrapAdd(n: int, k: int)
    ensures Wrap(Wrap(n) + k) == Wrap(n + k)
  {
    assert n == (n / U32_SIZE) * U32_SIZE + n % U32_SIZE;
  }

  lemma IncIsWrap(n: int)
    ensures Inc(Wrap(n)) == Wrap(n + 1) && Dec(Wrap(n)) == Wrap(n - 1)
  {
    WrapAdd(n, 1);
    WrapAdd(n, -1);
  }

  /** A counter after k calls of `fetch_add(1)`. */
  function Advance(n: u32, k: nat): u32
    decreases k
  {
    if k == 0 then n else Advance(Inc(n), k - 1)
  }

  lemma {:induction false} AdvanceIsWrap(n: u32, k: nat)
    ensures Advance(n, k) == Wrap(n + k)
    decreases k
  {
    if k > 0 {
      AdvanceIsWrap(Inc(n), k - 1);
      WrapAdd(n + 1, k - 1);
      assert Inc(n) == Wrap(n + 1);
    }
  }

  datatype Option<+T> = None | Some(value: T)

  /** `Instant::duration_since`, which saturates at zero. */
  function Elapsed(since: real, now: real): real {
    if since <= now then now - since else 0.0
  }

  /** The clock readings never go back, and none lies before `clock`. */
  predicate Ordered(clock: real, ts: seq<real>)
    decreases |ts|
  {
    ts == [] || (clock <= ts[0] && Ordered(ts[0], ts[1..]))
  }

  lemma LowerOrder(clock: real, later: real, ts: seq<real>)
    requires clock <= later && Ordered(later, ts)
    ensures Ordered(clock, ts)
  {}
}
