/** Small shared vocabulary: bytes, fixed-width integers as the C++ code sees
    them, failure-carrying results, and the integer helpers of <algorithm>. */
module Common {

  /** One byte of a frame or window buffer (uint8_t). */
  newtype byte = x: int | 0 <= x < 256

  /** A value read from a 32-bit unsigned kernel field (__u32). */
  type uint32 = x: int | 0 <= x < 0x1_0000_0000

  const Int32Max: int := 0x7fff_ffff

  datatype Option<T> = None | Some(value: T)

  datatype Result<T, E> = Ok(value: T) | Err(error: E)

  /** `(int) u` for a `__u32` u: values of 2^31 and above wrap to negatives. */
  function AsInt32(u: uint32): (r: int)
    ensures -0x8000_0000 <= r <= Int32Max
    ensures u <= Int32Max ==> r == u
    ensures u > Int32Max ==> r < 0
  {
    if u <= Int32Max then u else u - 0x1_0000_0000
  }

  function Min(a: int, b: int): int { if a <= b then a else b }

  function Max(a: int, b: int): int { if a >= b then a else b }

  /** std::clamp(v, lo, hi) as libstdc++ evaluates it:
      (v < lo) ? lo : (hi < v) ? hi : v. */
  function Clamp(v: int, lo: int, hi: int): (r: int)
    ensures lo <= hi ==> lo <= r <= hi
    ensures lo <= v <= hi ==> r == v
    ensures lo <= hi && v < lo ==> r == lo
    ensures lo <= hi && hi < v ==> r == hi
  {
    if v < lo then lo else if hi < v then hi else v
  }

  /** C++ integer division, which truncates toward zero (Dafny's `/` is Euclidean). */
  function TDiv(a: int, b: int): (q: int)
    requires b > 0
    ensures a >= 0 ==> q == a / b
    ensures a < 0 ==> q == -((-a) / b)
  {
    if a >= 0 then a / b else -((-a) / b)
  }

  lemma {:induction false} MulMonotone(a: int, b: int, c: nat)
    requires a <= b
    ensures a * c <= b * c
  {
    if c > 0 {
      MulMonotone(a, b, c - 1);
      assert a * c == a * (c - 1) + a;
      assert b * c == b * (c - 1) + b;
    }
  }
  lemma MulStrictCancel(x: int, y: int, s: int)
    requires s > 0 && x * s < y * s
    ensures x < y
  {
    if x >= y {
      MulMonotone(y, x, s);
      assert false;
    }
  }
  lemma DivModUnique(a: int, s: int, q: int, r: int)
    requires s > 0 && a == q * s + r && 0 <= r < s
    ensures a / s == q && a % s == r
  {
    var q', r' := a / s, a % s;
    assert a == q' * s + r';
    assert (q' + 1) * s == q' * s + s;
    assert (q + 1) * s == q * s + s;
    MulStrictCancel(q', q + 1, s);
    MulStrictCancel(q, q' + 1, s);
  }
  lemma DivMonotone(a: int, b: int, s: int)
    requires a <= b && s > 0
    ensures a / s <= b / s
  {
    var qa, qb := a / s, b / s;
    assert qa * s <= a;
    assert (qb + 1) * s == qb * s + s;
    MulStrictCancel(qa, qb + 1, s);
  }
  lemma DivAntitone(a: nat, s: int, t: int)
    requires 0 < s <= t
    ensures a / t <= a / s
  {
    var q := a / t;
    MulMonotone(s, t, q);
    assert q * s <= a;
    DivModUnique(a, s, a / s, a % s);
    assert (a / s + 1) * s == (a / s) * s + s;
    MulStrictCancel(q, a / s + 1, s);
  }
  lemma MulModZero(q: int, s: int)
    requires s > 0
    ensures (q * s) % s == 0 && (q * s) / s == q
  {
    DivModUnique(q * s, s, q, 0);
  }
}
