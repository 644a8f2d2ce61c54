/** Small shared vocabulary: optional values, bounded text and machine ranges. */
module Prelude {

  datatype Option<+T> = None | Some(value: T) {
    function GetOr(default: T): T {
      match this
      case Some(v) => v
      case None => default
    }
  }

  const TWO_64: int := 0x1_0000_0000_0000_0000

  /** A `u64`: identifiers, nonces and tick counts. */
  type U64 = x: int | 0 <= x < TWO_64

  /** Clock ticks per second. */
  const TICK_HZ: nat := 1_000_000

  /** An octet. */
  type Byte = x: int | 0 <= x < 256

  /** `heapless::String<64>`. */
  type Text = s: string | |s| <= 64

  /** A saved station network. */
  datatype Network = Network(ssid: Text, password: Option<Text>)

  function Min(a: int, b: int): int {
    if a <= b then a else b
  }

  /** Division is unique: any quotient and in-range remainder are the ones. */
  lemma {:induction false} ModIs(x: int, n: int, q: int, r: int)
    requires n > 0 && 0 <= r < n && x == n * q + r
    ensures x % n == r
  {
    var d := x / n - q;
    assert x == n * (x / n) + x % n;
    assert n * d == r - x % n;
    if d >= 1 {
      MulAtLeast(n, d);
    } else if d <= -1 {
      MulAtLeast(n, -d);
    }
  }

  lemma MulAtLeast(n: int, d: int)
    requires n > 0 && d >= 1
    ensures n * d >= n
  {
  }

  lemma {:induction false} ModSucc(a: int, n: int)
    requires n > 0
    ensures (a + 1) % n == if a % n + 1 == n then 0 else a % n + 1
  {
    var q := a / n;
    assert a == n * q + a % n;
    if a % n + 1 == n {
      ModIs(a + 1, n, q + 1, 0);
    } else {
      ModIs(a + 1, n, q, a % n + 1);
    }
  }
}
