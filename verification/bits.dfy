/** Integer, byte and bit helpers of the struct layout engine: the `Integer#to_bytes`
    and `Integer#to_signed` extensions, the little-endian whole-struct fold, and the
    shift-and-mask arithmetic of bit-field units.

    Ruby integers are unbounded and its `>>` and `&` act on an infinite two's-complement
    representation. For a positive divisor Dafny's `/` and `%` are floor division and a
    non-negative remainder, so `x >> k` is `x / Pow2(k)` and `x & (2^k - 1)` is
    `x % Pow2(k)` for every integer `x`, negative ones included. */
module Bits {

  /** A byte as stored in a struct buffer. */
  type byte = x: int | 0 <= x < 256

  function Pow2(n: nat): (r: int)
    ensures r >= 1
  {
    if n == 0 then 1 else 2 * Pow2(n - 1)
  }

  lemma {:induction false} Pow2Add(a: nat, b: nat)
    ensures Pow2(a + b) == Pow2(a) * Pow2(b)
  {
    if a > 0 {
      Pow2Add(a - 1, b);
      calc {
        Pow2(a + b);
        2 * Pow2(a - 1 + b);
        2 * (Pow2(a - 1) * Pow2(b));
        (2 * Pow2(a - 1)) * Pow2(b);
      }
    }
  }

  lemma {:induction false} Pow2Monotone(a: nat, b: nat)
    requires a <= b
    ensures Pow2(a) <= Pow2(b)
  {
    if a < b {
      Pow2Monotone(a, b - 1);
    }
  }

  lemma Pow2Byte()
    ensures Pow2(8) == 256
  {
  }

  // ---------------------------------------------------------------------------
  // Division and remainder facts (positive divisors)
  // ---------------------------------------------------------------------------

  /** Quotient and remainder are determined by any decomposition x == q * d + r. */
  lemma DivModUnique(x: int, d: int, q: int, r: int)
    requires d > 0 && 0 <= r < d && x == q * d + r
    ensures x / d == q && x % d == r
  {
    var q0, r0 := x / d, x % d;
    assert x == q0 * d + r0;
    assert (q - q0) * d == r0 - r;
    MulSign(q - q0, d);
  }

  /** A non-zero multiple of d is at least d away from zero. */
  lemma MulSign(k: int, d: int)
    requires d > 0
    ensures k >= 1 ==> k * d >= d
    ensures k <= -1 ==> k * d <= -d
  {
    if k >= 1 {
      assert (k - 1) * d >= 0;
    } else if k <= -1 {
      assert (-1 - k) * d >= 0;
    }
  }

  /** Splitting a remainder modulo d * m into its low part modulo d and the rest. */
  lemma ModSplit(x: int, d: int, m: int)
    requires d > 0 && m > 0
    ensures d * m > 0
    ensures x % (d * m) == x % d + d * ((x / d) % m)
    ensures x / (d * m) == (x / d) / m
  {
    var q, r := x / d, x % d;
    var q2, r2 := q / m, q % m;
    assert q == q2 * m + r2;
    MulAddDistrib(q2 * m, r2, d);
    MulAssoc(q2, d, m);
    assert x == q2 * (d * m) + (r2 * d + r);
    MiddleLowBound(r2, r, d, m);
    DivModUnique(x, d * m, q2, r2 * d + r);
    assert r2 * d == d * r2;
  }

  /** Reducing modulo p * q and then modulo p is reducing modulo p. */
  lemma ModMod(y: int, p: int, q: int)
    requires p > 0 && q > 0
    ensures (y % (p * q)) % p == y % p
  {
    ModSplit(y, p, q);
    var k := (y / p) % q;
    DivModUnique(y % (p * q), p, k, y % p);
  }

  // ---------------------------------------------------------------------------
  // Integer#to_bytes and the little-endian fold of StructEx#read
  // ---------------------------------------------------------------------------

  /** `v.to_bytes(n)`: byte i is `(v >> (i * 8)) & 0xff`. */
  function ToBytes(v: int, n: nat): (r: seq<byte>)
  {
    seq(n, i requires 0 <= i < n => (v / Pow2(8 * i)) % 256)
  }

  /** The low byte comes first; the remaining bytes are those of `v >> 8`. */
  lemma ToBytesCons(v: int, n: nat)
    requires n > 0
    ensures ToBytes(v, n) == [v % 256] + ToBytes(v / 256, n - 1)
  {
    var a, b := ToBytes(v, n), [v % 256] + ToBytes(v / 256, n - 1);
    forall i | 0 <= i < n
      ensures a[i] == b[i]
    {
      if i > 0 {
        Pow2Add(8, 8 * (i - 1));
        Pow2Byte();
        ModSplit(v, 256, Pow2(8 * (i - 1)));
      }
    }
  }

  /** Reference reading of a byte sequence, least significant byte first. */
  function LittleEndian(b: seq<byte>): (r: nat)
    ensures r < Pow2(8 * |b|)
  {
    if |b| == 0 then 0
    else
      var rest := LittleEndian(b[1..]);
      Pow2Add(8, 8 * (|b| - 1));
      Pow2Byte();
      assert rest <= Pow2(8 * (|b| - 1)) - 1;
      assert 256 * rest <= 256 * Pow2(8 * (|b| - 1)) - 256;
      b[0] + 256 * rest
  }

  function Reverse<T>(s: seq<T>): (r: seq<T>)
  {
    if |s| == 0 then [] else Reverse(s[1..]) + [s[0]]
  }

  /** `inject(0) { |value, n| (value << 8) | n }`: the low eight bits of `value << 8`
      are zero, so the bitwise or with a byte is an addition. */
  function ShiftFold(s: seq<byte>): int
  {
    if |s| == 0 then 0 else ShiftFold(s[..|s| - 1]) * 256 + s[|s| - 1]
  }

  /** `bytes.reverse.inject(0) { ... }` as `StructEx#read` computes it. */
  function ReadBytes(b: seq<byte>): int
  {
    ShiftFold(Reverse(b))
  }

  /** Folding the reversed bytes from the most significant end is the
      little-endian value of the bytes. */
  lemma {:induction false} ReadBytesIsLittleEndian(b: seq<byte>)
    ensures ReadBytes(b) == LittleEndian(b)
  {
    if |b| > 0 {
      ReadBytesIsLittleEndian(b[1..]);
      var rv := Reverse(b[1..]) + [b[0]];
      assert rv[..|rv| - 1] == Reverse(b[1..]);
    }
  }

  /** Storing `v` in n bytes and reading them back gives `v` modulo 2^(8n). */
  lemma {:induction false} LittleEndianToBytes(v: int, n: nat)
    ensures LittleEndian(ToBytes(v, n)) == v % Pow2(8 * n)
    decreases n
  {
    if n > 0 {
      ToBytesCons(v, n);
      var t := ToBytes(v, n);
      assert t[1..] == ToBytes(v / 256, n - 1);
      LittleEndianToBytes(v / 256, n - 1);
      Pow2Add(8, 8 * (n - 1));
      Pow2Byte();
      ModSplit(v, 256, Pow2(8 * (n - 1)));
    }
  }

  /** Reading bytes and storing the value back reproduces the bytes. */
  lemma {:induction false} ToBytesLittleEndian(b: seq<byte>)
    ensures ToBytes(LittleEndian(b), |b|) == b
  {
    if |b| > 0 {
      var v := LittleEndian(b);
      DivModUnique(v, 256, LittleEndian(b[1..]), b[0]);
      ToBytesCons(v, |b|);
      ToBytesLittleEndian(b[1..]);
    }
  }

  /** Whole-buffer round trip as `write(V)` followed by `read` performs it. */
  lemma WriteThenRead(v: int, n: nat)
    ensures ReadBytes(ToBytes(v, n)) == v % Pow2(8 * n)
    ensures 0 <= v < Pow2(8 * n) ==> ReadBytes(ToBytes(v, n)) == v
  {
    ReadBytesIsLittleEndian(ToBytes(v, n));
    LittleEndianToBytes(v, n);
    if 0 <= v < Pow2(8 * n) {
      DivModUnique(v, Pow2(8 * n), 0, v);
    }
  }

  // ---------------------------------------------------------------------------
  // Integer#to_signed
  // ---------------------------------------------------------------------------

  /** Bit k of v in two's complement, `(v >> k) & 1`. */
  function Bit(v: int, k: nat): int
  {
    (v / Pow2(k)) % 2
  }

  /** `v.to_signed(n)`: subtract 2^n when bit n - 1 is set. For n == 0 Ruby's
      `1 << -1` is 0, so no bit is tested and v comes back unchanged. */
  function ToSigned(v: int, n: nat): int
  {
    if n == 0 then v
    else if Bit(v, n - 1) != 0 then v - Pow2(n)
    else v
  }

  /** On an n-bit unsigned value, sign extension subtracts 2^n exactly when the
      value reaches 2^(n-1), lands in [-2^(n-1), 2^(n-1)), and keeps the value
      modulo 2^n. */
  lemma ToSignedRange(v: int, n: nat)
    requires n >= 1 && 0 <= v < Pow2(n)
    ensures ToSigned(v, n) == if v >= Pow2(n - 1) then v - Pow2(n) else v
    ensures -Pow2(n - 1) <= ToSigned(v, n) < Pow2(n - 1)
    ensures ToSigned(v, n) % Pow2(n) == v
  {
    var h := Pow2(n - 1);
    if v >= h {
      DivModUnique(v, h, 1, v - h);
      DivModUnique(v - Pow2(n), Pow2(n), -1, v);
    } else {
      DivModUnique(v, h, 0, v);
      DivModUnique(v, Pow2(n), 0, v);
    }
  }

  /** Sign extension undoes truncation of an in-range signed value. */
  lemma ToSignedOfTruncated(s: int, n: nat)
    requires n >= 1 && -Pow2(n - 1) <= s < Pow2(n - 1)
    ensures ToSigned(s % Pow2(n), n) == s
  {
    if s >= 0 {
      DivModUnique(s, Pow2(n), 0, s);
    } else {
      DivModUnique(s, Pow2(n), -1, s + Pow2(n));
    }
    ToSignedRange(s % Pow2(n), n);
  }

  // ---------------------------------------------------------------------------
  // Bit ranges inside an allocation unit
  // ---------------------------------------------------------------------------

  /** `(u >> bo) & ((1 << w) - 1)`: the w bits of u starting at bit bo. */
  function Extract(u: int, bo: nat, w: nat): int
  {
    (u / Pow2(bo)) % Pow2(w)
  }

  /** `(u & ~mask) | ((v << bo) & mask)` with `mask = ((1 << w) - 1) << bo`:
      the bits above bo + w and below bo are those of u, the w bits in between
      are v modulo 2^w. */
  function Insert(u: int, bo: nat, w: nat, v: int): int
  {
    (u / Pow2(bo + w)) * Pow2(bo + w) + (v % Pow2(w)) * Pow2(bo) + u % Pow2(bo)
  }

  /** The written value matters only modulo 2^w. */
  lemma InsertResidue(u: int, bo: nat, w: nat, v: int, v': int)
    requires v % Pow2(w) == v' % Pow2(w)
    ensures Insert(u, bo, w, v) == Insert(u, bo, w, v')
  {
  }

  lemma MulAssoc(h: int, p: int, q: int)
    ensures h * (p * q) == (h * q) * p
  {
  }

  lemma MulAddDistrib(a: int, b: int, p: int)
    ensures (a + b) * p == a * p + b * p
  {
  }

  /** The middle-and-low part stays below p * q. */
  lemma MiddleLowBound(m: int, l: int, p: int, q: int)
    requires p > 0 && 0 <= m < q && 0 <= l < p
    ensures 0 <= m * p + l < p * q
  {
    MulSign(m, p);
    assert m * p <= (q - 1) * p by {
      assert (q - 1 - m) * p >= 0 by { MulSign(q - 1 - m, p); }
    }
    MulAddDistrib(q, -1, p);
  }

  /** Mixed-radix assembly over plain positive radices p and q. */
  lemma ComposeRadix(h: int, m: int, l: int, p: int, q: int)
    requires p > 0 && q > 0 && 0 <= m < q && 0 <= l < p
    ensures p * q > 0
    ensures var x := h * (p * q) + m * p + l;
      && x % p == l
      && x / p == h * q + m
      && (x / p) % q == m
      && x / (p * q) == h
  {
    MulSign(q, p);
    var x := h * (p * q) + m * p + l;
    MulAssoc(h, p, q);
    MulAddDistrib(h * q, m, p);
    DivModUnique(x, p, h * q + m, l);
    DivModUnique(h * q + m, q, h, m);
    MiddleLowBound(m, l, p, q);
    DivModUnique(x, p * q, h, m * p + l);
  }

  /** A value assembled from a high part, a w-bit middle part and a bo-bit low
      part gives each part back. */
  lemma Compose(h: int, m: int, l: int, bo: nat, w: nat)
    requires 0 <= m < Pow2(w) && 0 <= l < Pow2(bo)
    ensures var x := h * Pow2(bo + w) + m * Pow2(bo) + l;
      && x % Pow2(bo) == l
      && Extract(x, bo, w) == m
      && x / Pow2(bo + w) == h
  {
    Pow2Add(bo, w);
    ComposeRadix(h, m, l, Pow2(bo), Pow2(w));
  }

  /** Every value is the assembly of its quotient by p * q, its middle digit
      in radix q and its remainder by p. */
  lemma DecomposeRadix(u: int, p: int, q: int)
    requires p > 0 && q > 0
    ensures p * q > 0
    ensures u == (u / (p * q)) * (p * q) + ((u / p) % q) * p + u % p
  {
    ModSplit(u, p, q);
    var e := (u / p) % q;
    assert p * e == e * p;
  }

  /** Every value is the assembly of its own three parts. */
  lemma Decompose(u: int, bo: nat, w: nat)
    ensures u == (u / Pow2(bo + w)) * Pow2(bo + w) + Extract(u, bo, w) * Pow2(bo) + u % Pow2(bo)
  {
    Pow2Add(bo, w);
    DecomposeRadix(u, Pow2(bo), Pow2(w));
  }

  /** Reading the bits just written gives the written value modulo 2^w; the bits
      below and above the range are untouched. */
  lemma InsertParts(u: int, bo: nat, w: nat, v: int)
    ensures Extract(Insert(u, bo, w, v), bo, w) == v % Pow2(w)
    ensures Insert(u, bo, w, v) % Pow2(bo) == u % Pow2(bo)
    ensures Insert(u, bo, w, v) / Pow2(bo + w) == u / Pow2(bo + w)
  {
    Compose(u / Pow2(bo + w), v % Pow2(w), u % Pow2(bo), bo, w);
  }

  /** Writing back the bits just read leaves the unit as it was. */
  lemma InsertExtracted(u: int, bo: nat, w: nat)
    ensures Insert(u, bo, w, Extract(u, bo, w)) == u
  {
    var m := Extract(u, bo, w);
    DivModUnique(m, Pow2(w), 0, m);
    Decompose(u, bo, w);
  }

  /** Bits of a range lying below bit c depend only on the value modulo 2^c. */
  lemma ExtractLow(x: int, a: nat, b: nat, c: nat)
    requires a + b <= c
    ensures Extract(x, a, b) == Extract(x % Pow2(c), a, b)
  {
    Pow2Add(a, c - a);
    ModSplit(x, Pow2(a), Pow2(c - a));
    var k := (x / Pow2(a)) % Pow2(c - a);
    DivModUnique(x % Pow2(c), Pow2(a), k, x % Pow2(a));
    Pow2Add(b, c - a - b);
    ModMod(x / Pow2(a), Pow2(b), Pow2(c - a - b));
  }

  /** Bits of a range starting at or above bit c depend only on x / 2^c. */
  lemma ExtractHigh(x: int, a: nat, b: nat, c: nat)
    requires c <= a
    ensures Extract(x, a, b) == Extract(x / Pow2(c), a - c, b)
  {
    Pow2Add(c, a - c);
    ModSplit(x, Pow2(c), Pow2(a - c));
  }

  /** Frame condition of a bit-field write: a bit range disjoint from the written
      one reads the same afterwards. */
  lemma InsertFrame(u: int, bo: nat, w: nat, v: int, a: nat, b: nat)
    requires a + b <= bo || bo + w <= a
    ensures Extract(Insert(u, bo, w, v), a, b) == Extract(u, a, b)
  {
    InsertParts(u, bo, w, v);
    var u' := Insert(u, bo, w, v);
    if a + b <= bo {
      ExtractLow(u', a, b, bo);
      ExtractLow(u, a, b, bo);
    } else {
      ExtractHigh(u', a, b, bo + w);
      ExtractHigh(u, a, b, bo + w);
    }
  }

  /** Radix form of the bound: an assembly with a high part below r stays below
      r * p * q. */
  lemma ComposeBound(h: int, m: int, l: int, p: int, q: int, r: int)
    requires p > 0 && q > 0 && 0 <= m < q && 0 <= l < p && 0 <= h < r
    ensures 0 <= h * (p * q) + m * p + l < r * (p * q)
  {
    assert m * p <= (q - 1) * p;
    assert m * p + l < p * q;
    assert h * (p * q) <= (r - 1) * (p * q);
  }

  /** The quotient of a value below r * d by d is below r. */
  lemma DivBound(u: int, d: int, r: int)
    requires d > 0 && r > 0 && 0 <= u < r * d
    ensures 0 <= u / d < r
  {
    var h := u / d;
    assert u == h * d + u % d;
    MulSign(h - r + 1, d);
    MulSign(h, d);
  }

  /** Radix form of `InsertBound`. */
  lemma InsertBoundRadix(u: int, v: int, p: int, q: int, pq: int, r: int, total: int)
    requires p > 0 && q > 0 && r > 0 && pq == p * q && total == r * pq && 0 <= u < total
    ensures 0 <= (u / pq) * pq + (v % q) * p + u % p < total
  {
    DivBound(u, p * q, r);
    ComposeBound(u / (p * q), v % q, u % p, p, q, r);
  }

  /** A write inside an n-bit unit keeps the unit an n-bit unsigned value. */
  lemma InsertBound(u: int, bo: nat, w: nat, v: int, n: nat)
    requires 0 <= u < Pow2(n) && bo + w <= n
    ensures 0 <= Insert(u, bo, w, v) < Pow2(n)
  {
    Pow2Add(bo, w);
    Pow2Add(n - (bo + w), bo + w);
    assert n - (bo + w) + (bo + w) == n;
    InsertBoundRadix(u, v, Pow2(bo), Pow2(w), Pow2(bo + w), Pow2(n - (bo + w)), Pow2(n));
  }
}
