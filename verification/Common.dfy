/** Small vocabulary shared by every component of the model. */
module Common {
  datatype Option<+T> = None | Some(value: T)

  datatype Result<+T, +E> = Ok(value: T) | Err(error: E)

  function Min(a: int, b: int): int {
    if a < b then a else b
  }

  function Max(a: int, b: int): int {
    if a < b then b else a
  }

  /** Rust's `saturating_sub` on unsigned integers. */
  function SaturatingSub(a: nat, b: nat): nat {
    if a < b then 0 else a - b
  }

  const U16_MAX: nat := 0xffff
  const U32_MAX: nat := 0xffff_ffff
  const U64_MAX: nat := 0xffff_ffff_ffff_ffff

  /** The result of a saturating unsigned operation whose exact value is `x`. */
  function Saturate(x: nat, max: nat): nat {
    if x <= max then x else max
  }

  lemma NonzeroMultiple(n: nat, d: int)
    ensures d == 0 || n * d >= n || n * d <= 0 - n
  {
    if d >= 1 {
      assert n * d >= n * 1;
    } else if d <= -1 {
      assert n * (0 - d) >= n * 1;
    }
  }

  /** An injection bounds the size of its source. */
  lemma {:induction false} InjectionSize<A, B>(s: set<A>, t: set<B>, f: A -> B)
    requires forall x <- s :: f(x) in t
    requires forall x, y | x in s && y in s && f(x) == f(y) :: x == y
    ensures |s| <= |t|
  {
    if s != {} {
      var x :| x in s;
      InjectionSize(s - {x}, t - {f(x)}, f);
    }
  }

  function Range(n: nat): (r: set<nat>)
    ensures |r| == n && forall i: nat :: i in r <==> i < n
  {
    if n == 0 then {} else Range(n - 1) + {n - 1}
  }
}
