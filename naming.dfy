/**
 * Pod names: "<prefix>-run-" followed by the value of `hash(options)`, where
 * `RunOptions.__hash__` shifts a CPython tuple hash by `sys.maxsize + 1`.
 */
module Naming {
  import Text

  /** The items of the tuple handed to CPython's `hash()`. */
  datatype HashItem = HText(text: string) | HTuple(items: seq<string>) | HTime(seconds: real)

  /** `sys.maxsize` on a 64-bit CPython. */
  const MAX_SIZE: int := 0x7FFF_FFFF_FFFF_FFFF

  /** The modulus CPython's `int.__hash__` reduces by on 64-bit builds (2^61 - 1). */
  const HASH_MODULUS: int := 0x1FFF_FFFF_FFFF_FFFF

  /** The values a CPython hash (a `Py_hash_t`) can take. */
  predicate InHashRange(h: int) {
    -(MAX_SIZE + 1) <= h <= MAX_SIZE
  }

  /** `int.__hash__`: the absolute value reduced modulo 2^61 - 1, with the sign put back. */
  function LongHash(v: int): int {
    if v >= 0 then v % HASH_MODULUS else -((-v) % HASH_MODULUS)
  }

  /**
   * The builtin `hash(x)` applied to an object whose `__hash__` returned `v`:
   * a value outside the `Py_hash_t` range is replaced by its own `int` hash,
   * and -1 (reserved for errors) becomes -2.
   */
  function BuiltinHash(v: int): (r: int)
    ensures InHashRange(r) && r != -1
    ensures InHashRange(v) && v != -1 ==> r == v
    ensures v > MAX_SIZE ==> r == v % HASH_MODULUS && 0 <= r < HASH_MODULUS
    ensures v == -1 ==> r == -2
  {
    var h := if InHashRange(v) then v else LongHash(v);
    if h == -1 then -2 else h
  }

  /** The number in the pod name: `hash(options)` when `__hash__` adds `sys.maxsize + 1` to the tuple hash. */
  function PodSuffix(tupleHash: int): (n: int)
    ensures InHashRange(tupleHash) ==> 0 <= n <= MAX_SIZE
    ensures InHashRange(tupleHash) && tupleHash < 0 ==> n == tupleHash + MAX_SIZE + 1
    ensures 0 <= tupleHash <= MAX_SIZE ==> n == (tupleHash + 4) % HASH_MODULUS
  {
    BuiltinHash(tupleHash + MAX_SIZE + 1)
  }

  /** `f"{prefix}{hash(options)}"`. */
  function PodName(prefix: string, tupleHash: int): (name: string)
    ensures InHashRange(tupleHash) ==>
      |name| > |prefix| && name[..|prefix|] == prefix && Text.AllDigits(name[|prefix|..])
  {
    var name := prefix + Text.IntToString(PodSuffix(tupleHash));
    assert name[|prefix|..] == Text.IntToString(PodSuffix(tupleHash));
    name
  }

  /** Two runs get the same pod name exactly when their shifted hashes agree. */
  lemma PodNameDistinct(prefix: string, h1: int, h2: int)
    ensures PodName(prefix, h1) == PodName(prefix, h2) <==> PodSuffix(h1) == PodSuffix(h2)
  {
    var s1, s2 := Text.IntToString(PodSuffix(h1)), Text.IntToString(PodSuffix(h2));
    assert (prefix + s1)[|prefix|..] == s1;
    assert (prefix + s2)[|prefix|..] == s2;
    Text.IntToStringInjective(PodSuffix(h1), PodSuffix(h2));
  }

  /**
   * The shift is not injective: a non-negative tuple hash lands above `sys.maxsize`,
   * so `hash()` reduces it, and it can meet a negative tuple hash shifted into range.
   */
  lemma PodSuffixCollision()
    ensures PodSuffix(0) == PodSuffix(4 - (MAX_SIZE + 1)) == 4
  {
  }
}
