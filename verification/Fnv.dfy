/** The 64-bit FNV-1a hash (draft-eastlake-fnv, section 2) in its two copies:
    `stable_hash_bytes` in `api/src/prompt_cache.rs` and `stable_hex_hash` in
    `runtime/src/mcp.rs`. Hashes are numbers below 2^64. */
module Fnv {
  import opened Text

  const MODULUS := 0x1_0000_0000_0000_0000
  const OFFSET_BASIS := 0xcbf2_9ce4_8422_2325
  const PRIME := 0x0000_0100_0000_01b3
  /** The inverse of the prime modulo 2^64. */
  const PRIME_INVERSE := 0xce96_5057_aff6_957b

  type Hash = h: int | 0 <= h < MODULUS

  // ---------- One byte ----------

  function Pow2(n: nat): (r: nat)
    ensures r > 0
  {
    if n == 0 then 1 else 2 * Pow2(n - 1)
  }

  /** Exclusive or of the lowest `n` bits, bit by bit. */
  function XorBits(a: nat, b: nat, n: nat): (r: nat)
    ensures r < Pow2(n)
    decreases n
  {
    if n == 0 then 0 else 2 * XorBits(a / 2, b / 2, n - 1) + (a + b) % 2
  }

  lemma {:induction false} Pow2Step(n: nat)
    ensures Pow2(n + 8) == 256 * Pow2(n)
  {
    assert Pow2(n + 2) == 2 * Pow2(n + 1) && Pow2(n + 4) == 2 * Pow2(n + 3);
    assert Pow2(n + 6) == 2 * Pow2(n + 5) && Pow2(n + 8) == 2 * Pow2(n + 7);
    assert Pow2(n + 3) == 2 * Pow2(n + 2) && Pow2(n + 5) == 2 * Pow2(n + 4) && Pow2(n + 7) == 2 * Pow2(n + 6);
  }

  lemma {:induction false} Pow2Of64()
    ensures Pow2(64) == MODULUS
  {
    for n := 0 to 8
      invariant Pow2(8 * n) == if n == 0 then 1 else if n == 1 then 0x100 else if n == 2 then 0x1_0000
                               else if n == 3 then 0x100_0000 else if n == 4 then 0x1_0000_0000
                               else if n == 5 then 0x100_0000_0000 else if n == 6 then 0x1_0000_0000_0000
                               else if n == 7 then 0x100_0000_0000_0000 else MODULUS
    {
      Pow2Step(8 * n);
    }
  }

  /** `hash ^ u64::from(b)`. */
  function Xor(h: Hash, b: byte): Hash {
    Pow2Of64();
    XorBits(h, b, 64)
  }

  function WrappingMul(h: Hash): Hash {
    h * PRIME % MODULUS
  }

  function Mix(h: Hash, b: byte): Hash {
    WrappingMul(Xor(h, b))
  }

  /** FNV-1a of `bytes`, going on from the state `h`. */
  function HashFrom(h: Hash, bytes: seq<byte>): Hash
    decreases |bytes|
  {
    if bytes == [] then h else HashFrom(Mix(h, bytes[0]), bytes[1..])
  }

  function Fnv1a(bytes: seq<byte>): Hash {
    HashFrom(OFFSET_BASIS, bytes)
  }

  // ---------- Each step is a bijection ----------

  lemma {:induction false} XorBitsInjective(g: nat, h: nat, b: nat, c: nat, n: nat)
    requires g < Pow2(n) && h < Pow2(n) && b < Pow2(n) && c < Pow2(n)
    ensures XorBits(g, b, n) == XorBits(h, b, n) ==> g == h
    ensures XorBits(g, b, n) == XorBits(g, c, n) ==> b == c
    decreases n
  {
    if n > 0 {
      XorBitsInjective(g / 2, h / 2, b / 2, c / 2, n - 1);
      LastBit(g, h, b, XorBits(g / 2, b / 2, n - 1), XorBits(h / 2, b / 2, n - 1));
      LastBit(b, c, g, XorBits(g / 2, b / 2, n - 1), XorBits(g / 2, c / 2, n - 1));
    }
  }

  lemma {:induction false} LastBit(g: nat, h: nat, b: nat, x: nat, y: nat)
    ensures 2 * x + (g + b) % 2 == 2 * y + (h + b) % 2 ==> x == y && (g / 2 == h / 2 ==> g == h)
  {
    assert (g + b) % 2 == (g % 2 + b % 2) % 2 && (h + b) % 2 == (h % 2 + b % 2) % 2;
  }

  lemma {:induction false} XorInjective(g: Hash, h: Hash, b: byte, c: byte)
    ensures Xor(g, b) == Xor(h, b) ==> g == h
    ensures Xor(g, b) == Xor(g, c) ==> b == c
  {
    Pow2Of64();
    XorBitsInjective(g, h, b, c, 64);
  }

  /** Multiplying by the prime is undone by multiplying by its inverse. */
  lemma {:induction false} MulUndone(h: Hash)
    ensures WrappingMul(h) * PRIME_INVERSE % MODULUS == h
  {
    var carry := h * PRIME / MODULUS;
    InverseStep(h, carry, WrappingMul(h));
  }

  lemma {:induction false} InverseStep(h: Hash, carry: int, product: int)
    requires product == h * PRIME - carry * MODULUS
    ensures product * PRIME_INVERSE % MODULUS == h
  {
    var c := (PRIME * PRIME_INVERSE - 1) / MODULUS;
    assert PRIME * PRIME_INVERSE == c * MODULUS + 1;
    var q := h * c - carry * PRIME_INVERSE;
    assert product * PRIME_INVERSE == h + MODULUS * q;
    Remainder(h, q);
  }

  lemma {:induction false} Remainder(h: Hash, q: int)
    ensures (h + MODULUS * q) % MODULUS == h
  {
  }

  lemma {:induction false} MixInjective(g: Hash, h: Hash, b: byte, c: byte)
    ensures Mix(g, b) == Mix(h, b) ==> g == h
    ensures Mix(g, b) == Mix(g, c) ==> b == c
  {
    MulUndone(Xor(g, b));
    MulUndone(Xor(h, b));
    MulUndone(Xor(g, c));
    XorInjective(g, h, b, c);
  }

  // ---------- No collision on one byte ----------

  lemma {:induction false} HashConcat(h: Hash, a: seq<byte>, b: seq<byte>)
    ensures HashFrom(h, a + b) == HashFrom(HashFrom(h, a), b)
    decreases |a|
  {
    if a == [] {
      assert a + b == b;
    } else {
      assert (a + b)[1..] == a[1..] + b;
      HashConcat(Mix(h, a[0]), a[1..], b);
    }
  }

  lemma {:induction false} HashFromInjective(g: Hash, h: Hash, s: seq<byte>)
    ensures HashFrom(g, s) == HashFrom(h, s) <==> g == h
    decreases |s|
  {
    if s != [] {
      HashFromInjective(Mix(g, s[0]), Mix(h, s[0]), s[1..]);
      MixInjective(g, h, s[0], s[0]);
    }
  }

  /** A common ending neither makes nor removes a collision. */
  lemma {:induction false} CommonSuffix(a: seq<byte>, b: seq<byte>, s: seq<byte>)
    ensures Fnv1a(a + s) == Fnv1a(b + s) <==> Fnv1a(a) == Fnv1a(b)
  {
    HashConcat(OFFSET_BASIS, a, s);
    HashConcat(OFFSET_BASIS, b, s);
    HashFromInjective(Fnv1a(a), Fnv1a(b), s);
  }

  /** Inputs of equal length that differ in exactly one byte never collide. */
  lemma {:induction false} OneByteDiffers(a: seq<byte>, b: seq<byte>, i: nat)
    requires |a| == |b| && i < |a| && a[i] != b[i]
    requires forall j :: 0 <= j < |a| && j != i ==> a[j] == b[j]
    ensures Fnv1a(a) != Fnv1a(b)
  {
    var u, s := a[..i], a[i + 1..];
    assert a == u + [a[i]] + s && b == u + [b[i]] + s;
    CommonSuffix(u + [a[i]], u + [b[i]], s);
    HashConcat(OFFSET_BASIS, u, [a[i]]);
    HashConcat(OFFSET_BASIS, u, [b[i]]);
    MixInjective(Fnv1a(u), Fnv1a(u), a[i], b[i]);
    OneMix(Fnv1a(u), a[i]);
    OneMix(Fnv1a(u), b[i]);
  }

  lemma {:induction false} OneMix(h: Hash, b: byte)
    ensures HashFrom(h, [b]) == Mix(h, b)
  {
    assert [b][1..] == [];
  }

  // ---------- The two copies ----------

  /** `stable_hash_bytes`. */
  method StableHashBytes(bytes: seq<byte>) returns (hash: Hash)
    ensures hash == Fnv1a(bytes)
  {
    hash := OFFSET_BASIS;
    for i := 0 to |bytes|
      invariant HashFrom(hash, bytes[i..]) == Fnv1a(bytes)
    {
      assert bytes[i..][1..] == bytes[i + 1..];
      hash := Xor(hash, bytes[i]);
      hash := WrappingMul(hash);
    }
  }

  /** `{:016x}`: the last `width` hexadecimal digits. */
  function Hex(n: nat, width: nat): (r: string)
    ensures |r| == width
  {
    if width == 0 then "" else Hex(n / 16, width - 1) + [HexDigit(n % 16)]
  }

  function Pow16(k: nat): nat {
    if k == 0 then 1 else 16 * Pow16(k - 1)
  }

  lemma {:induction false} HexInjective(m: nat, n: nat, width: nat)
    requires m < Pow16(width) && n < Pow16(width) && Hex(m, width) == Hex(n, width)
    ensures m == n
  {
    if width > 0 {
      var s, t := Hex(m, width), Hex(n, width);
      assert s[..width - 1] == Hex(m / 16, width - 1) && t[..width - 1] == Hex(n / 16, width - 1);
      assert s[width - 1] == HexDigit(m % 16) && t[width - 1] == HexDigit(n % 16);
      HexInjective(m / 16, n / 16, width - 1);
    }
  }

  /** `stable_hex_hash`: its own loop and constants, written as sixteen digits. */
  method StableHexHash(value: seq<byte>) returns (text: string)
    ensures text == Hex(Fnv1a(value), 16)
  {
    var hash: Hash := 0xcbf2_9ce4_8422_2325;
    for i := 0 to |value|
      invariant HashFrom(hash, value[i..]) == Fnv1a(value)
    {
      assert value[i..][1..] == value[i + 1..];
      hash := Xor(hash, value[i]);
      hash := hash * 0x0100_0000_01b3 % MODULUS;
    }
    text := Hex(hash, 16);
  }

  /** The texts of two hashes are equal exactly when the hashes are. */
  lemma {:induction false} HexHashFaithful(a: seq<byte>, b: seq<byte>)
    ensures Hex(Fnv1a(a), 16) == Hex(Fnv1a(b), 16) <==> Fnv1a(a) == Fnv1a(b)
  {
    if Hex(Fnv1a(a), 16) == Hex(Fnv1a(b), 16) {
      Pow16Is64Bits();
      HexInjective(Fnv1a(a), Fnv1a(b), 16);
    }
  }

  /** Read back as a number, the digits are the hash. */
  function HexNumber(s: string): nat {
    if s == "" then 0
    else 16 * HexNumber(s[..|s| - 1]) + (match HexValue(s[|s| - 1]) case Some(d) => d case None => 0)
  }

  lemma {:induction false} HexReadsBack(n: nat, width: nat)
    requires n < Pow16(width)
    ensures HexNumber(Hex(n, width)) == n
    ensures forall c :: c in Hex(n, width) ==> '0' <= c <= '9' || 'a' <= c <= 'f'
  {
    if width > 0 {
      var s := Hex(n, width);
      assert s[..width - 1] == Hex(n / 16, width - 1) && s[width - 1] == HexDigit(n % 16);
      HexReadsBack(n / 16, width - 1);
      HexDigitRoundTrip(n % 16);
    }
  }

  // ---------- Published values ----------

  function Bit(a: nat, k: nat): nat {
    a / Pow2(k) % 2
  }

  /** Bit `k` of the exclusive or is set exactly when one of the two bits is. */
  lemma {:induction false} XorBitAt(a: nat, b: nat, n: nat, k: nat)
    requires k < n
    ensures Bit(XorBits(a, b, n), k) == 1 <==> Bit(a, k) != Bit(b, k)
    decreases n
  {
    if k > 0 {
      var x := XorBits(a / 2, b / 2, n - 1);
      XorBitAt(a / 2, b / 2, n - 1, k - 1);
      BitStep(a, k);
      BitStep(b, k);
      LastTwo(a, b, x, XorBits(a, b, n));
      BitStep(XorBits(a, b, n), k);
    } else {
      LastTwo(a, b, XorBits(a / 2, b / 2, n - 1), XorBits(a, b, n));
      LastBits(a, b, XorBits(a, b, n));
    }
  }

  lemma {:induction false} LastTwo(a: nat, b: nat, x: nat, y: nat)
    requires y == 2 * x + (a + b) % 2
    ensures y / 2 == x && y % 2 == (a + b) % 2
  {
  }

  lemma {:induction false} LastBits(a: nat, b: nat, y: nat)
    requires y % 2 == (a + b) % 2
    ensures Bit(y, 0) == 1 <==> Bit(a, 0) != Bit(b, 0)
  {
    assert Pow2(0) == 1;
  }

  lemma {:induction false} BitStep(a: nat, k: nat)
    requires k > 0
    ensures Bit(a, k) == Bit(a / 2, k - 1)
  {
    HalfThen(a, Pow2(k - 1));
  }

  lemma {:induction false} HalfThen(a: nat, p: nat)
    requires p > 0
    ensures a / 2 / p == a / (2 * p)
  {
    var q := a / 2 / p;
    var r := a / 2 % p;
    assert a == 2 * (q * p + r) + a % 2;
    assert (2 * p) * q == 2 * (q * p);
    QuotientIs(a, 2 * p, q, 2 * r + a % 2);
  }

  lemma {:induction false} QuotientIs(a: nat, d: nat, q: nat, r: nat)
    requires d > 0 && a == d * q + r && r < d
    ensures a / d == q
  {
    var other := a / d;
    assert d * (other - q) == r - a % d;
    SmallProduct(d, other - q);
  }

  lemma {:induction false} SmallProduct(d: nat, x: int)
    requires 0 < d + d * x < 2 * d
    ensures x == 0
  {
  }

  /** Nothing changes where one side has no bits. */
  lemma {:induction false} XorZero(a: nat, n: nat)
    requires a < Pow2(n)
    ensures XorBits(a, 0, n) == a
    decreases n
  {
    if n > 0 { XorZero(a / 2, n - 1); }
  }

  /** The hash of no bytes, and of the byte `a` (draft-eastlake-fnv, appendix C). */
  lemma {:induction false} PublishedValues()
    ensures Fnv1a([]) == 0xcbf2_9ce4_8422_2325
    ensures Fnv1a([0x61]) == 0xaf63_dc4c_8601_ec8c
  {
    OneMix(OFFSET_BASIS, 0x61);
    FirstXor();
    assert WrappingMul(0xcbf2_9ce4_8422_2344) == 0xaf63_dc4c_8601_ec8c;
  }

  lemma {:induction false} FirstXor()
    ensures Xor(OFFSET_BASIS, 0x61) == 0xcbf2_9ce4_8422_2344
  {
    Pow2Of64();
    Pow2Step(56);
    XorZero(0xcb_f29c_e484_2223, 56);
    assert XorBits(0x197e539c9084446, 0x0, 57) == 0x197e539c9084446;
    assert XorBits(0x32fca739210888c, 0x1, 58) == 0x32fca739210888d;
    assert XorBits(0x65f94e724211119, 0x3, 59) == 0x65f94e72421111a;
    assert XorBits(0xcbf29ce48422232, 0x6, 60) == 0xcbf29ce48422234;
    assert XorBits(0x197e539c90844464, 0xc, 61) == 0x197e539c90844468;
    assert XorBits(0x32fca739210888c9, 0x18, 62) == 0x32fca739210888d1;
    assert XorBits(0x65f94e7242111192, 0x30, 63) == 0x65f94e72421111a2;
    assert XorBits(0xcbf29ce484222325, 0x61, 64) == 0xcbf29ce484222344;
  }

  lemma {:induction false} Pow16Is64Bits()
    ensures Pow16(16) == MODULUS
  {
    assert Pow16(4) == 0x1_0000;
    assert Pow16(8) == 0x1_0000_0000;
    assert Pow16(12) == 0x1_0000_0000_0000;
  }
}
