/** Fixed-width arithmetic and the small shapes shared by all components. */
module Common {
  const TWO_64: nat := 0x1_0000_0000_0000_0000

  type uint64 = x: nat | x < TWO_64

  datatype Option<+T> = None | Some(value: T)

  function Min(a: nat, b: nat): nat {
    if a < b then a else b
  }

  function Max(a: nat, b: nat): nat {
    if a < b then b else a
  }

  /** The value an unsigned 64-bit register holds after computing x. */
  function Wrap(x: int): uint64 {
    x % TWO_64
  }

  lemma WrapSmall(x: int)
    requires 0 <= x < TWO_64
    ensures Wrap(x) == x
  {}

  /** Wrapping after every addition is the same as wrapping once at the end. */
  lemma WrapAdd(x: int, y: int)
    ensures Wrap(Wrap(x) + y) == Wrap(x + y)
  {
    var q := x / TWO_64;
    assert x == q * TWO_64 + Wrap(x);
    WrapShift(Wrap(x) + y, q);
  }

  /** Adding a multiple of 2^64 changes nothing. */
  lemma WrapShift(x: int, q: int)
    ensures Wrap(x + q * TWO_64) == Wrap(x)
  {
    var a, b := x / TWO_64, (x + q * TWO_64) / TWO_64;
    var d := b - a - q;
    assert Wrap(x + q * TWO_64) - Wrap(x) == -d * TWO_64;
  }

  lemma ConcatAssociative<T>(a: seq<T>, b: seq<T>, c: seq<T>)
    ensures a + (b + c) == (a + b) + c
  {}
}
