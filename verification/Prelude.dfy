/** Types shared by the models: bytes, optional values and results. */
module Prelude {

  type Byte = b: int | 0 <= b < 256

  type Bytes = seq<Byte>

  datatype Option<+T> = None | Some(value: T)

  datatype Result<+T, +E> = Ok(value: T) | Err(error: E)

  function Min(a: int, b: int): int {
    if a <= b then a else b
  }

  /** Whether no element occurs twice. */
  ghost predicate NoDuplicates<T>(s: seq<T>) {
    forall i, j :: 0 <= i < j < |s| ==> s[i] != s[j]
  }

  lemma ConcatAssoc<T>(a: seq<T>, b: seq<T>, c: seq<T>)
    ensures (a + b) + c == a + (b + c)
  {
  }

  // ---------- integer division ----------

  lemma MulAtLeast(d: int, x: int)
    requires d > 0 && x >= 1
    ensures d * x >= d
  {
  }

  /** Quotient and remainder are determined by the division equation. */
  lemma DivModUnique(n: int, d: int, q: int, r: int)
    requires 0 <= r < d && n == d * q + r
    ensures n / d == q && n % d == r
  {
    var q', r' := n / d, n % d;
    assert n == d * q' + r';
    assert d * (q - q') == d * q - d * q' == r' - r;
    assert d * (q' - q) == r - r';
    if q > q' {
      MulAtLeast(d, q - q');
      assert false;
    } else if q < q' {
      MulAtLeast(d, q' - q);
      assert false;
    }
  }

  lemma DivModDrop(n: int, d: int)
    requires 0 < d <= n
    ensures (n - d) / d == n / d - 1 && (n - d) % d == n % d
  {
    var q, r := n / d, n % d;
    assert n == d * q + r;
    assert d * (q - 1) == d * q - d;
    DivModUnique(n - d, d, q - 1, r);
  }

  /** `n` is a multiple of `d`, counted down. */
  ghost predicate Whole(n: nat, d: nat)
    requires d > 0
  {
    n == 0 || (n >= d && Whole(n - d, d))
  }

  lemma {:induction false} WholeIsMultiple(n: nat, d: nat)
    requires d > 0
    ensures Whole(n, d) <==> n % d == 0
    decreases n
  {
    if n == 0 {
    } else if n < d {
      DivModUnique(n, d, 0, n);
    } else {
      DivModDrop(n, d);
      WholeIsMultiple(n - d, d);
    }
  }
}
