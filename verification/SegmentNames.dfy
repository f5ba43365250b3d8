/** Segment file names: a zero-padded sequence number leads the name, so names
    sort as strings in the order of the numbers. */
module SegmentNames {
  import opened Prelude

  /** Byte-wise string order, as file names sort. */
  predicate LexLE(a: string, b: string) {
    if a == [] then true
    else if b == [] then false
    else a[0] < b[0] || (a[0] == b[0] && LexLE(a[1..], b[1..]))
  }

  lemma {:induction false} LexTotal(a: string, b: string)
    ensures LexLE(a, b) || LexLE(b, a)
    decreases |a|
  {
    if a != [] && b != [] {
      LexTotal(a[1..], b[1..]);
    }
  }

  lemma {:induction false} LexTransitive(a: string, b: string, c: string)
    requires LexLE(a, b) && LexLE(b, c)
    ensures LexLE(a, c)
    decreases |a|
  {
    if a != [] && a[0] == b[0] == c[0] {
      LexTransitive(a[1..], b[1..], c[1..]);
    }
  }

  // ----- Zero-padded numbers -----

  const DIGITS: nat := 20

  function Pow10(k: nat): nat {
    if k == 0 then 1 else 10 * Pow10(k - 1)
  }

  /** The last `k` decimal digits of `n`, zero-padded. */
  function Pad(n: nat, k: nat): (s: string)
    ensures |s| == k
    decreases k
  {
    if k == 0 then [] else Pad(n / 10, k - 1) + [Digit(n % 10)]
  }

  /** `a` is smaller at `i`, the first place where they differ. */
  predicate BelowAt(a: string, b: string, i: nat) {
    i < |a| && i < |b| && a[..i] == b[..i] && a[i] < b[i]
  }

  lemma {:induction false} PadOrders(n: nat, m: nat, k: nat) returns (i: nat)
    requires n < m < Pow10(k)
    ensures BelowAt(Pad(n, k), Pad(m, k), i)
    decreases k
  {
    var a, b := Pad(n / 10, k - 1), Pad(m / 10, k - 1);
    if n / 10 < m / 10 {
      i := PadOrders(n / 10, m / 10, k - 1);
      assert Pad(n, k)[..i] == a[..i] && Pad(m, k)[..i] == b[..i];
    } else {
      i := k - 1;
      assert Pad(n, k)[..i] == a && Pad(m, k)[..i] == b;
    }
  }

  lemma {:induction false} BelowIsNotAbove(a: string, b: string, i: nat)
    requires BelowAt(a, b, i)
    ensures !LexLE(b, a)
    decreases i
  {
    if i > 0 {
      assert a[0] == a[..i][0] && b[0] == b[..i][0];
      assert a[1..][..i - 1] == a[..i][1..] && b[1..][..i - 1] == b[..i][1..];
      BelowIsNotAbove(a[1..], b[1..], i - 1);
    }
  }

  // ----- Names -----

  const PREFIX: string := "cordon-audit-"

  /** `rest` holds the timestamp, the random suffix and the extension. */
  function Name(first: nat, rest: string): string {
    PREFIX + Pad(first, DIGITS) + ("-" + rest)
  }

  lemma {:induction false} BelowExtends(a: string, b: string, i: nat, front: string, x: string, y: string)
    requires BelowAt(a, b, i)
    ensures BelowAt(front + a + x, front + b + y, |front| + i)
  {
    assert (front + a + x)[..|front| + i] == front + a[..i];
    assert (front + b + y)[..|front| + i] == front + b[..i];
  }

  const MAX_SEQUENCE: nat := 0xFFFF_FFFF_FFFF_FFFF

  /** Every 64-bit sequence number fits the padding. */
  lemma {:induction false} PaddingFits()
    ensures MAX_SEQUENCE < Pow10(DIGITS)
  {
    assert Pow10(4) == 10_000;
    assert Pow10(8) == 100_000_000;
    assert Pow10(12) == 1_000_000_000_000;
    assert Pow10(16) == 10_000_000_000_000_000;
  }

  /** A segment that begins later never sorts before one that begins earlier,
      whatever follows the number. */
  lemma {:induction false} NamesSortByNumber(n: nat, m: nat, x: string, y: string)
    requires m < n <= MAX_SEQUENCE
    ensures LexLE(Name(m, y), Name(n, x)) && !LexLE(Name(n, x), Name(m, y))
  {
    PaddingFits();
    var i := PadOrders(m, n, DIGITS);
    BelowExtends(Pad(m, DIGITS), Pad(n, DIGITS), i, PREFIX, "-" + y, "-" + x);
    BelowIsNotAbove(Name(m, y), Name(n, x), |PREFIX| + i);
    LexTotal(Name(m, y), Name(n, x));
  }
}
