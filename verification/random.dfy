/** Math.random(), modelled as an oracle so that every contract holds for every draw. */
module Random {

  /** One value of Math.random(): a real in [0, 1). */
  type Unit = r: real | 0.0 <= r < 1.0

  /** A stream of Math.random() values; `rng(k)` is the k-th draw of an operation. */
  type Rng = nat -> Unit

  /** `Math.floor(r * n)`: the index a draw selects among `n` choices.
      With no choices it is 0, an index that is out of range. */
  function Index(r: Unit, n: nat): (i: nat)
    ensures n > 0 ==> i < n
    ensures n == 0 ==> i == 0
  {
    ScaledBelow(r, n);
    (r * n as real).Floor
  }

  /** `arr[Math.floor(Math.random() * arr.length)]` on a non-empty array: one of its entries. */
  function Draw<T>(arr: seq<T>, r: Unit): (x: T)
    requires |arr| > 0
    ensures x in arr
  {
    arr[Index(r, |arr|)]
  }

  lemma ScaledBelow(r: Unit, n: nat)
    ensures 0.0 <= r * n as real
    ensures n > 0 ==> r * n as real < n as real
    ensures n == 0 ==> r * n as real == 0.0
  {
    if n > 0 {
      assert (n as real) - r * (n as real) == (1.0 - r) * (n as real);
    }
  }
}
