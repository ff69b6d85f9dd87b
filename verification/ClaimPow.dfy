/**
 The claim proof of work of the sponsorship script
 (scripts/bvt_e2e_sponsorship.py): the leading-zero count of a digest, the nonce
 search, and the layout of the hashed preimage. The hash is any function.
 */
module ClaimPow {
  import opened Wrappers

  const MAX_NONCE: nat := 10_000_000

  ghost predicate IsBytes(s: seq<nat>) {
    forall i | 0 <= i < |s| :: s[i] < 256
  }

  /** `b` with `n` zero bits appended. */
  ghost function Shift(b: nat, n: nat): nat {
    if n == 0 then b else 2 * Shift(b, n - 1)
  }

  lemma DoubleProduct(b: nat, p: nat)
    ensures b * (2 * p) == 2 * (b * p)
  {
  }

  lemma {:induction false} ShiftIsTimes(b: nat, n: nat)
    ensures Shift(b, n) == b * Pow2(n)
    decreases n
  {
    if n > 0 {
      ShiftIsTimes(b, n - 1);
      DoubleProduct(b, Pow2(n - 1));
    }
  }

  lemma {:induction false} ShiftPow2(k: nat, n: nat)
    ensures Shift(Pow2(k), n) == Pow2(k + n)
    decreases n
  {
    if n > 0 {
      ShiftPow2(k, n - 1);
    }
  }

  lemma {:induction false} ShiftOrder(a: nat, b: nat, n: nat)
    requires a <= b
    ensures Shift(a, n) <= Shift(b, n) && (a < b ==> Shift(a, n) + Pow2(n) <= Shift(b, n))
    decreases n
  {
    if n > 0 {
      ShiftOrder(a, b, n - 1);
    }
  }

  lemma {:induction false} Pow2Monotone(a: nat, b: nat)
    requires a <= b
    ensures Pow2(a) <= Pow2(b)
    decreases b - a
  {
    if a < b {
      Pow2Monotone(a, b - 1);
    }
  }

  // ------------------------------------------------------------ leading zeros

  /** The bytes read as one big-endian number. */
  function Value(s: seq<nat>): nat {
    if s == [] then 0 else s[0] * Pow2(8 * (|s| - 1)) + Value(s[1..])
  }

  lemma {:induction false} ValueBounded(s: seq<nat>)
    requires IsBytes(s)
    ensures Value(s) < Pow2(8 * |s|)
    decreases |s|
  {
    if s != [] {
      ValueBounded(s[1..]);
      var low := 8 * (|s| - 1);
      ShiftIsTimes(s[0], low);
      ShiftOrder(s[0], Pow2(8), low);
      ShiftPow2(8, low);
      assert Pow2(8) == 256;
    }
  }

  /** `z` zero bits lead the number `v` of `n` bits. */
  ghost predicate LeadingZeros(v: nat, n: nat, z: nat) {
    && z <= n && v < Pow2(n - z)
    && (z < n ==> v >= Pow2(n - z - 1))
  }

  /** The inner loop: zero bits before the first one bit of a non-zero byte. */
  method ByteZeros(b: nat) returns (z: nat)
    requires 0 < b < 256
    ensures z < 8 && LeadingZeros(b, 8, z)
  {
    z := 0;
    var i := 7;
    assert Pow2(8) == 256;
    while b / Pow2(i) == 0
      invariant 0 <= i <= 7 && z == 7 - i && b < Pow2(i + 1)
      decreases i
    {
      Quotient(b, Pow2(i));
      z := z + 1;
      i := i - 1;
    }
    Quotient(b, Pow2(i));
  }

  lemma Quotient(b: nat, p: nat)
    requires p > 0
    ensures b / p == 0 <==> b < p
  {
  }

  /** With a non-zero byte in front, that byte decides. */
  lemma FirstByteDecides(s: seq<nat>, z: nat)
    requires IsBytes(s) && s != [] && s[0] > 0 && z < 8 && LeadingZeros(s[0], 8, z)
    ensures LeadingZeros(Value(s), 8 * |s|, z)
  {
    var low := 8 * (|s| - 1);
    ValueBounded(s[1..]);
    ShiftIsTimes(s[0], low);
    Shifted(s[0], Value(s[1..]), low, 8 - z - 1);
    assert 8 * |s| - z - 1 == 8 - z - 1 + low;
  }

  /** Appending `low` further bits keeps the zeros in front. */
  lemma Shifted(b: nat, rest: nat, low: nat, k: nat)
    requires Pow2(k) <= b < 2 * Pow2(k) && rest < Pow2(low)
    ensures Pow2(k + low) <= Shift(b, low) + rest < 2 * Pow2(k + low)
  {
    ShiftOrder(Pow2(k), b, low);
    ShiftOrder(b, Pow2(k + 1), low);
    ShiftPow2(k, low);
    ShiftPow2(k + 1, low);
  }

  /** The bit loop: the exact number of zero bits in front of the digest. */
  method CountBits(h: seq<nat>) returns (bits: nat)
    requires IsBytes(h)
    ensures LeadingZeros(Value(h), 8 * |h|, bits)
  {
    bits := 0;
    var i := 0;
    assert h[0..] == h;
    while i < |h|
      invariant i <= |h| && bits == 8 * i && Value(h) == Value(h[i..])
    {
      assert h[i..][1..] == h[i + 1..];
      if h[i] == 0 {
        bits := bits + 8;
        i := i + 1;
      } else {
        var z := ByteZeros(h[i]);
        FirstByteDecides(h[i..], z);
        bits := bits + z;
        return;
      }
    }
  }

  /** A count is enough exactly when the number is below the numeric bound. */
  lemma EnoughBitsIff(v: nat, n: nat, z: nat, d: nat)
    requires LeadingZeros(v, n, z) && d <= n
    ensures z >= d <==> v < Pow2(n - d)
  {
    if z >= d {
      Pow2Monotone(n - z, n - d);
    } else {
      Pow2Monotone(n - d, n - z - 1);
    }
  }

  /** There is one such count. */
  lemma LeadingZerosUnique(v: nat, n: nat, z: nat, y: nat)
    requires LeadingZeros(v, n, z) && LeadingZeros(v, n, y)
    ensures z == y
  {
    EnoughBitsIff(v, n, z, y);
    EnoughBitsIff(v, n, y, z);
  }

  // ---------------------------------------------------------------- preimage

  /** A nonce as four bytes, least significant first. */
  function PackLE(nonce: nat): (s: seq<nat>)
    ensures |s| == 4 && IsBytes(s)
  {
    [nonce % 256, nonce / 256 % 256, nonce / 65536 % 256, nonce / 16777216 % 256]
  }

  function Unpack(s: seq<nat>): nat
    requires |s| == 4
  {
    s[0] + 256 * (s[1] + 256 * (s[2] + 256 * s[3]))
  }

  lemma Byte(n: nat)
    ensures n == 256 * (n / 256) + n % 256
  {
  }

  lemma Shifts(n: nat)
    ensures n / 65536 == n / 256 / 256 && n / 16777216 == n / 65536 / 256
  {
  }

  lemma PackRoundTrip(nonce: nat)
    requires nonce < 0x1_0000_0000
    ensures Unpack(PackLE(nonce)) == nonce
  {
    Shifts(nonce);
    Byte(nonce);
    Byte(nonce / 256);
    Byte(nonce / 65536);
    assert nonce / 16777216 % 256 == nonce / 16777216;
  }

  function Preimage(space: seq<nat>, nonce: nat): seq<nat> {
    space + PackLE(nonce) + [0, 0, 0, 0]
  }

  /** Forty bytes: the nonce space, then at offset 32 the nonce with its least significant byte first, then four zeros. */
  lemma PreimageLayout(space: seq<nat>, nonce: nat)
    requires |space| == 32 && nonce < 0x1_0000_0000
    ensures var p := Preimage(space, nonce);
            && |p| == 40 && p[..32] == space && p[36] == p[37] == p[38] == p[39] == 0
            && p[32] < 256 && p[33] < 256 && p[34] < 256 && p[35] < 256
            && p[32] + 0x100 * p[33] + 0x1_0000 * p[34] + 0x100_0000 * p[35] == nonce
  {
    PackRoundTrip(nonce);
  }

  /** Preimages are forty bytes, and different nonces of one search never share one. */
  lemma PreimagesDiffer(space: seq<nat>, m: nat, n: nat)
    requires |space| == 32 && m < MAX_NONCE && n < MAX_NONCE
    ensures |Preimage(space, m)| == 40
    ensures Preimage(space, m) == Preimage(space, n) ==> m == n
  {
    assert Preimage(space, m)[32..36] == PackLE(m);
    assert Preimage(space, n)[32..36] == PackLE(n);
    PackRoundTrip(m);
    PackRoundTrip(n);
  }

  // ------------------------------------------------------------------ search

  /** The digest of a nonce meets the difficulty, as a numeric bound. */
  ghost predicate Meets(hash: seq<nat> -> seq<nat>, space: seq<nat>, nonce: nat, minZeroBits: int) {
    var h := hash(Preimage(space, nonce));
    minZeroBits <= 8 * |h| && (minZeroBits > 0 ==> Value(h) < Pow2(8 * |h| - minZeroBits))
  }

  lemma BitsMeetIff(h: seq<nat>, bits: nat, minZeroBits: int)
    requires IsBytes(h) && LeadingZeros(Value(h), 8 * |h|, bits)
    ensures bits >= minZeroBits
       <==> minZeroBits <= 8 * |h| && (minZeroBits > 0 ==> Value(h) < Pow2(8 * |h| - minZeroBits))
  {
    if 0 < minZeroBits <= 8 * |h| {
      EnoughBitsIff(Value(h), 8 * |h|, bits, minZeroBits);
    }
  }

  /** The search returns the least nonce under the cap that meets the difficulty, or none if there is none. */
  method MineClaimPow(hash: seq<nat> -> seq<nat>, space: seq<nat>, minZeroBits: int) returns (found: Option<nat>)
    requires |space| == 32 && forall s :: |hash(s)| == 32 && IsBytes(hash(s))
    ensures found.Some? ==> found.value < MAX_NONCE && Meets(hash, space, found.value, minZeroBits)
                            && forall n: nat | n < found.value :: !Meets(hash, space, n, minZeroBits)
    ensures found.None? ==> forall n: nat | n < MAX_NONCE :: !Meets(hash, space, n, minZeroBits)
  {
    var nonce := 0;
    while nonce < MAX_NONCE
      invariant nonce <= MAX_NONCE && forall n: nat | n < nonce :: !Meets(hash, space, n, minZeroBits)
    {
      var h := hash(Preimage(space, nonce));
      var bits := CountBits(h);
      BitsMeetIff(h, bits, minZeroBits);
      if bits >= minZeroBits {
        return Some(nonce);
      }
      nonce := nonce + 1;
    }
    found := None;
  }
}
