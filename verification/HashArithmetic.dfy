/** The arithmetic under the dictionary: the string hash, power-of-two table
    sizes, and the masking that turns a hash value into a bucket index. */
module HashArithmetic {
  import opened Bytes

  // ----- the string hash -----

  const HASH_SEED := 5381

  function HashStep(h: nat, b: byte): (r: nat)
    ensures r < TWO_TO_32
  {
    (h * 32 + h + b) % TWO_TO_32
  }

  /** Bernstein's hash on a 32-bit unsigned accumulator. */
  function Hash(key: Key): (h: nat)
    ensures h < TWO_TO_32
  {
    if key == [] then HASH_SEED else HashStep(Hash(key[..|key| - 1]), key[|key| - 1])
  }

  /** The same without an end to the numbers: times 33 plus the next byte. */
  function Unbounded(key: Key): nat {
    if key == [] then 5381 else 33 * Unbounded(key[..|key| - 1]) + key[|key| - 1]
  }

  /** Wrapping around at every step is wrapping around once. */
  lemma {:induction false} HashWrapsOnce(key: Key)
    ensures Hash(key) == Unbounded(key) % 0x1_0000_0000
  {
    if key != [] {
      var front := key[..|key| - 1];
      HashWrapsOnce(front);
      StepWraps(Unbounded(front), key[|key| - 1]);
    }
  }

  lemma StepWraps(u: nat, b: byte)
    ensures HashStep(u % 0x1_0000_0000, b) == (33 * u + b) % 0x1_0000_0000
  {
    var q, r := u / 0x1_0000_0000, u % 0x1_0000_0000;
    assert 33 * u + b == (33 * q) * 0x1_0000_0000 + (33 * r + b);
  }

  method GenHashFunction(buf: Key) returns (hash: nat)
    ensures hash == Hash(buf) == Unbounded(buf) % 0x1_0000_0000
  {
    HashWrapsOnce(buf);
    hash := HASH_SEED;
    var i := 0;
    while i < |buf|
      invariant 0 <= i <= |buf|
      invariant hash == Hash(buf[..i])
    {
      assert buf[..i + 1][..i] == buf[..i];
      hash := (hash * 32 + hash + buf[i]) % TWO_TO_32;
      i := i + 1;
    }
    assert buf[..i] == buf;
  }

  // ----- powers of two -----

  const INITIAL_SIZE := 4
  const LONG_MAX := 0x7FFF_FFFF_FFFF_FFFF

  predicate IsPow2(n: nat) {
    n > 0 && (n == 1 || (n % 2 == 0 && IsPow2(n / 2)))
  }

  /** Powers of two that exceed another power of two are at least its double. */
  lemma {:induction false} Pow2Gap(a: nat, b: nat)
    requires IsPow2(a) && IsPow2(b) && a < b
    ensures 2 * a <= b
  {
    if a > 1 {
      Pow2Gap(a / 2, b / 2);
    }
  }

  /** Doubles i until it covers size. */
  function DoubleTo(i: nat, size: nat): (r: nat)
    requires i > 0
    decreases if i >= size then 0 else size - i
  {
    if i >= size then i else DoubleTo(2 * i, size)
  }

  /** The table size _dict_next_power chooses for a requested size. */
  function NextPowerOf(size: nat): (r: nat) {
    if size >= LONG_MAX then LONG_MAX else DoubleTo(INITIAL_SIZE, size)
  }

  /** On a 64-bit unsigned long: the doubling never wraps, so the loop ends. */
  method NextPower(size: nat) returns (i: nat)
    requires size < 0x1_0000_0000_0000_0000
    ensures i == NextPowerOf(size) < 0x1_0000_0000_0000_0000
  {
    i := INITIAL_SIZE;
    if size >= LONG_MAX {
      return LONG_MAX;
    }
    while true
      invariant INITIAL_SIZE <= i < TWO_TO_64
      invariant NextPowerOf(size) == DoubleTo(i, size)
      decreases if i >= size then 0 else size - i
    {
      if i >= size {
        return;
      }
      i := (i * 2) % TWO_TO_64;
    }
  }

  lemma {:induction false} DoubleToIsLeast(i: nat, size: nat, p: nat)
    requires IsPow2(i) && IsPow2(p) && p >= i && p >= size
    ensures IsPow2(DoubleTo(i, size)) && size <= DoubleTo(i, size) <= p && DoubleTo(i, size) >= i
    decreases if i >= size then 0 else size - i
  {
    if i < size {
      assert (2 * i) / 2 == i;
      Pow2Gap(i, p);
      DoubleToIsLeast(2 * i, size, p);
    }
  }

  lemma {:induction false} DoubleToIsPow2(i: nat, size: nat)
    requires IsPow2(i)
    ensures IsPow2(DoubleTo(i, size)) && DoubleTo(i, size) >= size && DoubleTo(i, size) >= i
    ensures DoubleTo(i, size) == i || DoubleTo(i, size) < 2 * size
    decreases if i >= size then 0 else size - i
  {
    if i < size {
      assert (2 * i) / 2 == i;
      DoubleToIsPow2(2 * i, size);
    }
  }

  /** The chosen size is a power of two exactly for requests below LONG_MAX, and
      is then the least one that is at least max(size, 4). */
  lemma NextPowerIsLeast(size: nat)
    ensures IsPow2(NextPowerOf(size)) <==> size < 0x7FFF_FFFF_FFFF_FFFF
    ensures size < 0x7FFF_FFFF_FFFF_FFFF ==>
              && NextPowerOf(size) >= size && NextPowerOf(size) >= 4
              && forall p: nat :: IsPow2(p) && p >= size && p >= 4 ==> NextPowerOf(size) <= p
    ensures size >= 0x7FFF_FFFF_FFFF_FFFF ==> NextPowerOf(size) == 0x7FFF_FFFF_FFFF_FFFF
  {
    if size < LONG_MAX {
      assert IsPow2(4 / 2 / 2);
      DoubleToIsPow2(INITIAL_SIZE, size);
      forall p: nat | IsPow2(p) && p >= size && p >= INITIAL_SIZE
        ensures NextPowerOf(size) <= p
      {
        DoubleToIsLeast(INITIAL_SIZE, size, p);
      }
    }
  }

  // ----- masking -----

  /** Bitwise and of two natural numbers. */
  function BitAnd(x: nat, y: nat): (r: nat)
    ensures r <= y
  {
    if x == 0 || y == 0 then 0
    else 2 * BitAnd(x / 2, y / 2) + if x % 2 == 1 && y % 2 == 1 then 1 else 0
  }

  /** Masking with size - 1 is the remainder modulo a power-of-two size. */
  lemma {:induction false} MaskIsMod(h: nat, size: nat)
    requires IsPow2(size)
    ensures BitAnd(h, size - 1) == h % size < size
  {
    if size > 1 {
      var half := size / 2;
      MaskIsMod(h / 2, half);
      ModOfDouble(h, half);
      assert (size - 1) / 2 == half - 1 && (size - 1) % 2 == 1;
    }
  }

  lemma ModOfDouble(h: nat, half: nat)
    requires half > 0
    ensures h % (2 * half) == 2 * ((h / 2) % half) + h % 2
  {
    var q, r := (h / 2) / half, (h / 2) % half;
    assert h / 2 == q * half + r;
    assert q * (2 * half) == 2 * (q * half) by {
      DoubleMul(q, half);
    }
    ModUnique(h, 2 * half, q, 2 * r + h % 2);
  }

  lemma DoubleMul(q: int, d: int)
    ensures q * (2 * d) == 2 * (q * d)
  {
  }

  lemma MulAtLeast(k: int, d: int)
    requires d >= 0
    ensures k >= 1 ==> k * d >= d
    ensures k <= -1 ==> k * d <= -d
  {
  }

  /** An integer quotient exceeds k exactly from (k + 1) times the divisor on. */
  lemma QuotientExceeds(u: nat, d: nat, k: nat)
    requires d > 0
    ensures u / d > k <==> u >= (k + 1) * d
  {
    var q := u / d;
    assert u == q * d + u % d;
    MulSub(q, k + 1, d);
    MulAtLeast(q - (k + 1), d);
  }

  lemma MulSub(a: int, b: int, d: int)
    ensures a * d - b * d == (a - b) * d
  {
  }

  lemma ModUnique(x: nat, d: nat, q: nat, r: nat)
    requires d > 0 && r < d && x == q * d + r
    ensures x % d == r
  {
    var q', r' := x / d, x % d;
    assert x == q' * d + r';
    MulSub(q', q, d);
    MulAtLeast(q' - q, d);
  }
}
