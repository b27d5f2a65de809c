/** Shared vocabulary: optional values and the source's 32-bit unsigned arithmetic. */
module Prelude {

  datatype Option<+T> = None | Some(value: T)

  const WORD: nat := 0x1_0000_0000

  /** A C++ `uint32_t`. */
  type uint32 = n: nat | n < WORD

  /** `a + b` on `uint32_t`. */
  function Add32(a: uint32, b: uint32): uint32 {
    if a + b < WORD then a + b else a + b - WORD
  }

  /** `a - b` on `uint32_t`: wraps when `b` exceeds `a`. */
  function Sub32(a: uint32, b: uint32): (r: uint32)
    ensures Add32(r, b) == a
  {
    if b <= a then a - b else a - b + WORD
  }

  /** A number as a `uint32_t` holds it. */
  function Wrap(n: nat): (r: uint32)
    ensures n < WORD ==> r == n
  {
    if n < WORD then n else Wrap(n - WORD)
  }

  /** Arithmetic on `uint32_t` is arithmetic modulo 2^32. */
  lemma {:induction false} WrapIsModulo(n: nat)
    ensures Wrap(n) == n % 4294967296
  {
    if n >= WORD {
      WrapIsModulo(n - WORD);
    }
  }

  lemma {:induction false} Add32IsModulo(a: uint32, b: uint32)
    ensures Add32(a, b) == (a + b) % 4294967296
    ensures Sub32(a, b) == (a - b) % 4294967296
  {
  }

  /** A number that does not fit loses at least 2^32. */
  lemma {:induction false} WrapShortens(n: nat)
    requires WORD <= n
    ensures Wrap(n) + WORD <= n
  {
    WrapIsModulo(n);
  }

  lemma {:induction false} WrapTwice(a: nat, b: nat)
    ensures Wrap(Wrap(a) + b) == Wrap(a + b)
  {
    if a >= WORD {
      WrapTwice(a - WORD, b);
    }
  }

  /** Adding up modulo 2^32, piece by piece. */
  lemma {:induction false} WrapAdd(a: nat, b: nat, c: nat)
    ensures Wrap(Add32(Wrap(a), Wrap(b)) + c) == Wrap(a + (b + c))
  {
    WrapTwice(Wrap(a) + Wrap(b), c);
    WrapTwice(b, Wrap(a) + c);
    WrapTwice(a, b + c);
  }

  /** One more addition to a running `uint32_t` total. */
  lemma {:induction false} AddOn(total: uint32, b: nat, c: nat)
    ensures Wrap(total + (b + c)) == Wrap(Add32(total, Wrap(b)) + c)
  {
    WrapAdd(total, b, c);
  }

  /** Concatenation is associative. */
  lemma {:induction false} Regroup<T>(a: seq<T>, b: seq<T>, c: seq<T>)
    ensures (a + b) + c == a + (b + c)
  {
  }
}
