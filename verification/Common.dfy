/** Failure-compatible datatypes shared by every module. */
module Common {

  datatype Option<+T> = None | Some(value: T)

  datatype Result<+T, +E> = Ok(value: T) | Err(error: E)

  /** Minimum and maximum, as `Math.min` and `Math.max` on two numbers. */
  function Min(a: int, b: int): int { if a <= b then a else b }

  function Max(a: int, b: int): int { if a <= b then b else a }

  /** `Math.min(Math.max(n, lo), hi)`, the form every page-size limit takes. */
  function Clamp(n: int, lo: int, hi: int): (r: int)
    requires lo <= hi
    ensures lo <= r <= hi && (lo <= n <= hi ==> r == n)
  {
    Min(Max(n, lo), hi)
  }

  /** There is always an id that is not in use. */
  lemma {:induction false} FreshId(ids: set<nat>) returns (q: nat)
    ensures forall i :: i in ids ==> i < q
    decreases |ids|
  {
    if ids == {} {
      q := 0;
    } else {
      var i :| i in ids;
      var rest := FreshId(ids - {i});
      q := Max(rest, i + 1);
      forall j | j in ids ensures j < q {
        assert j == i || j in ids - {i};
      }
    }
  }
}
