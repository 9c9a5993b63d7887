/** How numbers become bytes in memory and bits on the wire, and back. */
module Bits {
  type Byte = x: nat | x < 256

  function Pow2(n: nat): (r: nat)
    ensures r > 0
  {
    if n == 0 then 1 else 2 * Pow2(n - 1)
  }

  lemma {:induction false} Pow2Add(m: nat, n: nat)
    ensures Pow2(m + n) == Pow2(m) * Pow2(n)
  {
    if m > 0 {
      Pow2Add(m - 1, n);
      assert Pow2(m + n) == 2 * Pow2((m - 1) + n);
    }
  }

  lemma Pow2Byte(n: nat)
    ensures Pow2(8) == 256 && Pow2(n + 8) == 256 * Pow2(n)
  {
    Pow2Add(n, 8);
    assert Pow2(4) == 16;
    Pow2Add(4, 4);
  }

  // ---------------------------------------------------------------- one byte

  /** The low `width` bits, most significant first. */
  function ToBits(v: nat, width: nat): (r: seq<bool>)
    ensures |r| == width
  {
    if width == 0 then [] else ToBits(v / 2, width - 1) + [v % 2 == 1]
  }

  function Number(bits: seq<bool>): (v: nat)
    ensures v < Pow2(|bits|)
  {
    if bits == [] then 0 else 2 * Number(bits[..|bits| - 1]) + if bits[|bits| - 1] then 1 else 0
  }

  lemma {:induction false} NumberOfBits(v: nat, width: nat)
    requires v < Pow2(width)
    ensures Number(ToBits(v, width)) == v
  {
    if width > 0 {
      NumberOfBits(v / 2, width - 1);
      var bits := ToBits(v, width);
      assert bits[..|bits| - 1] == ToBits(v / 2, width - 1);
    }
  }

  /** How many bits a number needs: all of a `w`-bit number's bits but its leading zeroes. */
  function BitLength(x: nat): (n: nat)
    ensures x < Pow2(n) && (x > 0 ==> n > 0 && Pow2(n - 1) <= x)
  {
    if x == 0 then 0 else 1 + BitLength(x / 2)
  }

  lemma {:induction false} Pow2Monotone(m: nat, n: nat)
    requires m <= n
    ensures Pow2(m) <= Pow2(n)
  {
    if m < n {
      Pow2Monotone(m, n - 1);
    }
  }

  lemma {:induction false} BitLengthFits(x: nat, w: nat)
    requires x < Pow2(w)
    ensures BitLength(x) <= w
  {
    if x > 0 {
      BitLengthFits(x / 2, w - 1);
    }
  }

  // ---------------------------------------------------------------- memory

  /** The bytes of a number, least significant first. */
  function LittleBytes(v: nat, size: nat): (r: seq<Byte>)
    ensures |r| == size
  {
    if size == 0 then [] else [v % 256] + LittleBytes(v / 256, size - 1)
  }

  function LittleValue(bytes: seq<Byte>): nat {
    if bytes == [] then 0 else bytes[0] + 256 * LittleValue(bytes[1..])
  }

  lemma {:induction false} LittleRoundTrip(v: nat, size: nat)
    requires v < Pow2(8 * size)
    ensures LittleValue(LittleBytes(v, size)) == v
  {
    if size > 0 {
      Pow2Byte(8 * (size - 1));
      LittleRoundTrip(v / 256, size - 1);
      assert LittleBytes(v, size)[1..] == LittleBytes(v / 256, size - 1);
    }
  }

  function Reversed<T>(s: seq<T>): (r: seq<T>)
    ensures |r| == |s| && forall i :: 0 <= i < |s| ==> r[i] == s[|s| - 1 - i]
  {
    if s == [] then [] else Reversed(s[1..]) + [s[0]]
  }

  lemma ReversedTwice<T>(s: seq<T>)
    ensures Reversed(Reversed(s)) == s
  {
  }

  /** A number as a host keeps it. */
  function Memory(v: nat, size: nat, bigEndian: bool): (r: seq<Byte>)
    ensures |r| == size
  {
    if bigEndian then Reversed(LittleBytes(v, size)) else LittleBytes(v, size)
  }

  function FromMemory(bytes: seq<Byte>, bigEndian: bool): nat {
    LittleValue(if bigEndian then Reversed(bytes) else bytes)
  }

  // ---------------------------------------------------------------- bytes on the wire

  /** The first `n` bits of some bytes: whole bytes, and then the low bits of a last one. */
  function BitsOf(bytes: seq<Byte>, n: nat): (r: seq<bool>)
    requires n <= 8 * |bytes|
    ensures |r| == n
  {
    if n == 0 then [] else if n < 8 then ToBits(bytes[0], n) else ToBits(bytes[0], 8) + BitsOf(bytes[1..], n - 8)
  }

  function BytesFrom(bits: seq<bool>): (r: seq<Byte>)
    ensures |bits| <= 8 * |r| < |bits| + 8
  {
    Pow2Byte(0);
    if bits == [] then []
    else if |bits| < 8 then Pow2Monotone(|bits|, 8); [Number(bits)]
    else [Number(bits[..8])] + BytesFrom(bits[8..])
  }

  /** A number that fits in `n` bits, sent from its least significant byte on. */
  lemma {:induction false} LowBitsRoundTrip(v: nat, size: nat, n: nat)
    requires v < Pow2(n) && n <= 8 * size
    ensures LittleValue(BytesFrom(BitsOf(LittleBytes(v, size), n))) == v
  {
    hide *;
    if n < 8 {
      FewBits(v, size, n);
    } else {
      LowByteSplit(v, n);
      LowBitsRoundTrip(v / 256, size - 1, n - 8);
      LowByteOf(v, size, n);
      FirstByte(v % 256, BitsOf(LittleBytes(v / 256, size - 1), n - 8));
      ValueOfFirst(v % 256, BytesFrom(BitsOf(LittleBytes(v / 256, size - 1), n - 8)));
    }
  }

  lemma FewBits(v: nat, size: nat, n: nat)
    requires v < Pow2(n) && n <= 8 * size && n < 8
    ensures LittleValue(BytesFrom(BitsOf(LittleBytes(v, size), n))) == v
  {
    hide *;
    FewLow(v, size, n);
    if n > 0 {
      OneByte(ToBits(v, n));
      ValueOfFirst(v, []);
    }
  }

  lemma FewLow(v: nat, size: nat, n: nat)
    requires v < Pow2(n) && n <= 8 * size && n < 8
    ensures BitsOf(LittleBytes(v, size), n) == ToBits(v, n) && Number(ToBits(v, n)) == v < 256 && LittleValue([]) == 0
    ensures n == 0 ==> LittleValue(BytesFrom(ToBits(v, n))) == v
  {
    hide Pow2, ToBits, Number, BytesFrom;
    Pow2Monotone(n, 8);
    Pow2Byte(0);
    NumberOfBits(v, n);
    LowBitsOfByte(v, n);
    if n == 0 {
      NoBits(v);
    }
  }

  lemma NoBits(v: nat)
    requires v < Pow2(0)
    ensures v == 0 && ToBits(v, 0) == [] && BytesFrom([]) == []
  {
  }

  lemma LowBitsOfByte(v: nat, n: nat)
    requires n < 8
    ensures v < 256 ==> v % 256 == v
    ensures n == 0 ==> ToBits(v, n) == []
  {
  }

  lemma OneByte(bits: seq<bool>)
    requires 0 < |bits| < 8 && Number(bits) < 256
    ensures BytesFrom(bits) == [Number(bits)] + []
  {
  }

  lemma LowByteSplit(v: nat, n: nat)
    requires v < Pow2(n) && n >= 8
    ensures v / 256 < Pow2(n - 8) && 0 <= v % 256 < 256 && Number(ToBits(v % 256, 8)) == v % 256 && v == v % 256 + 256 * (v / 256)
  {
    Pow2Byte(n - 8);
    NumberOfBits(v % 256, 8);
  }

  lemma LowByteOf(v: nat, size: nat, n: nat)
    requires 8 <= n <= 8 * size
    ensures BitsOf(LittleBytes(v, size), n) == ToBits(v % 256, 8) + BitsOf(LittleBytes(v / 256, size - 1), n - 8)
  {
    assert LittleBytes(v, size)[1..] == LittleBytes(v / 256, size - 1);
  }

  lemma ValueOfFirst(b: Byte, rest: seq<Byte>)
    ensures LittleValue([b] + rest) == b + 256 * LittleValue(rest)
  {
    assert ([b] + rest)[1..] == rest;
  }

  lemma FirstByte(b: Byte, rest: seq<bool>)
    requires Number(ToBits(b, 8)) == b
    ensures BytesFrom(ToBits(b, 8) + rest) == [b] + BytesFrom(rest)
  {
    var bits := ToBits(b, 8) + rest;
    assert bits[..8] == ToBits(b, 8) && bits[8..] == rest;
  }

  lemma {:induction false} WholeBytesRoundTrip(bytes: seq<Byte>)
    ensures BytesFrom(BitsOf(bytes, 8 * |bytes|)) == bytes
  {
    if bytes != [] {
      Pow2Byte(0);
      NumberOfBits(bytes[0], 8);
      WholeBytesRoundTrip(bytes[1..]);
      FirstByte(bytes[0], BitsOf(bytes[1..], 8 * |bytes[1..]|));
      assert bytes == [bytes[0]] + bytes[1..];
    }
  }

  lemma {:induction false} NumberConcat(a: seq<bool>, b: seq<bool>)
    ensures Number(a + b) == Number(a) * Pow2(|b|) + Number(b)
  {
    hide *;
    NumberStep(a + b);
    NumberStep(b);
    if b == [] {
      assert a + b == a;
    } else {
      var ab, init := a + b, b[..|b| - 1];
      assert ab[..|ab| - 1] == a + init;
      NumberConcat(a, init);
      TwicePow2(|init|);
      MulTwice(Number(a), Pow2(|init|));
    }
  }

  lemma NumberStep(bits: seq<bool>)
    ensures bits == [] ==> Number(bits) == 0 && Pow2(0) == 1
    ensures bits != [] ==> Number(bits) == 2 * Number(bits[..|bits| - 1]) + if bits[|bits| - 1] then 1 else 0
  {
  }

  lemma MulTwice(x: nat, p: nat)
    ensures x * (2 * p) == 2 * (x * p)
  {
  }

  lemma {:induction false} BytesConcat(a: seq<bool>, b: seq<bool>)
    requires |a| % 8 == 0
    ensures BytesFrom(a + b) == BytesFrom(a) + BytesFrom(b)
  {
    if a == [] {
      assert a + b == b;
    } else {
      var ab := a + b;
      assert ab[..8] == a[..8] && ab[8..] == a[8..] + b;
      BytesConcat(a[8..], b);
    }
  }

  lemma ReversedLast<T>(s: seq<T>, x: T)
    ensures Reversed(s + [x]) == [x] + Reversed(s)
  {
  }

  lemma WholeByte(bits: seq<bool>)
    requires |bits| == 8
    ensures Number(bits) < 256 && BytesFrom(bits) == [Number(bits)]
  {
    Pow2Byte(0);
    assert bits[..8] == bits && bits[8..] == [];
  }

  /** Whole bytes, most significant first, are the binary number their bits spell. */
  lemma {:induction false} BytesSpell(bits: seq<bool>)
    requires |bits| % 8 == 0
    ensures LittleValue(Reversed(BytesFrom(bits))) == Number(bits)
    decreases |bits|
  {
    hide *;
    if bits == [] {
      NoBytes();
    } else {
      var n := |bits| - 8;
      var a, b := bits[..n], bits[n..];
      assert bits == a + b;
      BytesSpell(a);
      BytesConcat(a, b);
      WholeByte(b);
      var last: Byte := Number(b);
      ReversedLast<Byte>(BytesFrom(a), last);
      ValueOfFirst(Number(b), Reversed(BytesFrom(a)));
      NumberConcat(a, b);
      Pow2Byte(0);
      assert |b| == 8 && Pow2(|b|) == 256;
    }
  }

  lemma NoBytes()
    ensures LittleValue(Reversed(BytesFrom([]))) == Number([]) == 0
  {
  }

  /** Zero bytes above the highest change nothing. */
  lemma {:induction false} ZeroesAbove(bytes: seq<Byte>, zeroes: seq<Byte>)
    requires forall i :: 0 <= i < |zeroes| ==> zeroes[i] == 0
    ensures LittleValue(bytes + zeroes) == LittleValue(bytes)
    decreases |bytes| + |zeroes|
  {
    if bytes != [] {
      ZeroesAbove(bytes[1..], zeroes);
      assert (bytes + zeroes)[1..] == bytes[1..] + zeroes;
    } else if zeroes != [] {
      ZeroesAbove([], zeroes[1..]);
      assert bytes + zeroes == zeroes && [] + zeroes[1..] == zeroes[1..];
    }
  }

  // ---------------------------------------------------------------- which binary digit stands where

  lemma DivTwice(v: nat, p: nat, q: nat)
    requires p > 0 && q > 0
    ensures p * q > 0 && v / p / q == v / (p * q)
  {
    var a, r := v / p, v % p;
    var b, c := a / q, a % q;
    assert v == p * a + r && a == q * b + c;
    Nested(p, q, b, c, r);
    DivOf(v, p * q, b, p * c + r);
  }

  lemma Nested(p: nat, q: nat, b: int, c: int, r: int)
    requires p > 0 && q > 0 && c < q && r < p
    ensures p * (q * b + c) + r == (p * q) * b + (p * c + r) && p * c + r < p * q && p * q > 0
  {
    assert p * (c + 1) <= p * q;
    assert p * (c + 1) == p * c + p;
  }

  lemma MulMonotone(p: nat, a: nat, b: nat)
    requires a <= b
    ensures p * a <= p * b
  {
  }

  lemma DivOf(v: nat, m: nat, b: nat, r: nat)
    requires v == m * b + r && r < m
    ensures v / m == b && v % m == r
  {
    var q, s := v / m, v % m;
    assert v == m * q + s;
    if q < b {
      MulMonotone(m, q + 1, b);
    } else if q > b {
      MulMonotone(m, b + 1, q);
    }
  }

  /** The binary digit of a number that weighs two to the `w`. */
  predicate Digit(v: nat, w: nat) {
    v / Pow2(w) % 2 == 1
  }

  lemma {:induction false} ToBitsDigits(v: nat, width: nat, j: nat)
    requires j < width
    ensures ToBits(v, width)[j] <==> Digit(v, width - 1 - j)
  {
    if j < width - 1 {
      ToBitsDigits(v / 2, width - 1, j);
      DivTwice(v, 2, Pow2(width - 2 - j));
    } else {
      assert Pow2(0) == 1;
    }
  }

  lemma {:induction false} LittleByteAt(v: nat, size: nat, i: nat)
    requires i < size
    ensures LittleBytes(v, size)[i] == v / Pow2(8 * i) % 256
  {
    if i > 0 {
      LittleByteAt(v / 256, size - 1, i - 1);
      Pow2Byte(8 * (i - 1));
      DivTwice(v, 256, Pow2(8 * (i - 1)));
    } else {
      assert Pow2(0) == 1;
    }
  }

  /** The low digits of a number are those of its lowest byte. */
  lemma LowDigit(x: nat, k: nat)
    requires k < 8
    ensures Digit(x % 256, k) <==> Digit(x, k)
  {
    hide *;
    Pow2Byte(0);
    Pow2Add(k, 8 - k);
    TwicePow2(7 - k);
    LowParity(x, Pow2(k), Pow2(7 - k));
    DigitIs(x % 256, k);
    DigitIs(x, k);
  }

  lemma TwicePow2(n: nat)
    ensures Pow2(n + 1) == 2 * Pow2(n)
  {
  }

  lemma DigitIs(v: nat, w: nat)
    ensures Digit(v, w) <==> v / Pow2(w) % 2 == 1
  {
  }

  lemma LowParity(x: nat, p: nat, h: nat)
    requires p > 0 && p * (2 * h) == 256
    ensures x % 256 / p % 2 == x / p % 2
  {
    var a, y := x / 256, x % 256;
    var c, r := y / p, y % p;
    assert p * (2 * h * a + c) == p * (2 * h) * a + p * c;
    DivOf(x, p, 2 * h * a + c, r);
    Even(h * a, c);
    assert 2 * h * a == 2 * (h * a);
  }

  lemma Even(n: nat, c: nat)
    ensures (2 * n + c) % 2 == c % 2
  {
  }

  /** Digit `k` of byte `i` is digit `8 i + k` of the number. */
  lemma LittleDigit(v: nat, size: nat, i: nat, k: nat)
    requires i < size && k < 8
    ensures Digit(LittleBytes(v, size)[i], k) <==> Digit(v, 8 * i + k)
  {
    hide *;
    LittleByteAt(v, size, i);
    LowDigit(v / Pow2(8 * i), k);
    HighDigit(v, 8 * i, k, v / Pow2(8 * i));
  }

  lemma HighDigit(v: nat, i: nat, k: nat, x: nat)
    requires x == v / Pow2(i)
    ensures Digit(x, k) <==> Digit(v, i + k)
  {
    hide *;
    Pow2Add(i, k);
    DivTwice(v, Pow2(i), Pow2(k));
    DigitIs(x, k);
    DigitIs(v, i + k);
  }

  /** Bit `j` of some bytes: most significant first in a byte, the low bits only of a last byte that is not whole. */
  lemma {:induction false} BitsOfDigits(bytes: seq<Byte>, n: nat, j: nat)
    requires j < n <= 8 * |bytes|
    ensures BitsOf(bytes, n)[j] <==> Digit(bytes[j / 8], (if 8 * (j / 8) + 8 <= n then 7 else n % 8 - 1) - j % 8)
  {
    hide Digit, ToBits;
    if n < 8 {
      ToBitsDigits(bytes[0], n, j);
    } else if j < 8 {
      ToBitsDigits(bytes[0], 8, j);
    } else {
      BitsOfDigits(bytes[1..], n - 8, j - 8);
      ByteBefore(n, j);
    }
  }

  lemma ByteBefore(n: nat, j: nat)
    requires j >= 8 && n >= 8
    ensures j / 8 == (j - 8) / 8 + 1 && j % 8 == (j - 8) % 8 && n % 8 == (n - 8) % 8
  {
  }

  lemma {:induction false} BitsOfNumber(bits: seq<bool>)
    ensures ToBits(Number(bits), |bits|) == bits
  {
    if bits != [] {
      var init := bits[..|bits| - 1];
      BitsOfNumber(init);
      assert Number(bits) / 2 == Number(init) && bits == init + [bits[|bits| - 1]];
    }
  }

  /** Any bits are the low bits of the number their bytes make, and that number is no larger than they can hold. */
  lemma {:induction false} LowBitsAre(bits: seq<bool>, size: nat)
    requires |bits| <= 8 * size
    ensures var x := LittleValue(BytesFrom(bits)); x < Pow2(|bits|) && BitsOf(LittleBytes(x, size), |bits|) == bits
    decreases size
  {
    hide *;
    if |bits| < 8 {
      FewBitsAre(bits, size);
    } else {
      var a, b := bits[..8], bits[8..];
      assert bits == a + b;
      BitsOfNumber(a);
      WholeByte(a);
      BytesConcat(a, b);
      LowBitsAre(b, size - 1);
      var low: Byte := Number(a);
      var y := LittleValue(BytesFrom(b));
      ValueOfFirst(low, BytesFrom(b));
      DivOf(low + 256 * y, 256, y, low);
      LowByteOf(low + 256 * y, size, |bits|);
      Pow2Byte(|b|);
    }
  }

  lemma FewBitsAre(bits: seq<bool>, size: nat)
    requires |bits| < 8 && |bits| <= 8 * size
    ensures var x := LittleValue(BytesFrom(bits)); x < Pow2(|bits|) && BitsOf(LittleBytes(x, size), |bits|) == bits
  {
    hide *;
    BitsOfNumber(bits);
    Pow2Monotone(|bits|, 8);
    Pow2Byte(0);
    if bits == [] {
      NoBits(0);
      NoValue();
      FewLow(0, size, 0);
    } else {
      OneByte(bits);
      ValueOfFirst(Number(bits), []);
      NoValue();
      FewLow(Number(bits), size, |bits|);
    }
  }

  lemma NoValue()
    ensures LittleValue([]) == 0 && BytesFrom([]) == [] && Pow2(0) == 1
  {
  }

  // ---------------------------------------------------------------- integer types

  datatype IntType = IntType(size: nat, signed: bool) {
    function Modulus(): (m: nat)
      ensures m > 0
    {
      Pow2(8 * size)
    }

    predicate Has(v: int) {
      if signed then 0 - Modulus() <= 2 * v < Modulus() else 0 <= v < Modulus()
    }

    /** What is kept of a number in memory; a number out of range wraps round. */
    function Raw(v: int): (r: nat)
      ensures r < Modulus()
    {
      v % Modulus()
    }

    function Read(raw: nat): int {
      if signed && 2 * raw >= Modulus() then raw - Modulus() else raw
    }

    lemma RawRoundTrip(v: int)
      requires Has(v)
      ensures Read(Raw(v)) == v
    {
      Wrapped(v, Modulus());
    }

    /** A difference that wraps round comes back when the minimum is added again. */
    lemma DifferenceRoundTrip(v: int, minimum: int, maximum: int)
      requires Has(v) && Has(minimum) && Has(maximum) && minimum <= v <= maximum
      ensures Raw(v - minimum) == v - minimum && Raw(maximum - minimum) == maximum - minimum && Read(Raw(Raw(v - minimum) + minimum)) == v
    {
      Wrapped(v - minimum, Modulus());
      Wrapped(maximum - minimum, Modulus());
      RawRoundTrip(v);
    }
  }

  lemma Wrapped(x: int, m: int)
    requires -m <= x < m && m > 0
    ensures x % m == if x < 0 then x + m else x
  {
    if x < 0 {
      assert x % m == (x + m) % m;
    }
  }
}
