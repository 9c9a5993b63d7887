/** A stream of bits, written and read an item at a time. */
module BitStream {
  import opened Bits

  /** The next multiple of eight. */
  function Aligned(n: nat): (r: nat)
    ensures n <= r < n + 8 && r % 8 == 0
  {
    n + (8 - ((n - 1) % 8 + 1))
  }

  // ---------------------------------------------------------------- what can be written

  datatype Value = Truth(yes: bool) | Quantity(v: int)

  datatype Item =
    | Bool(b: bool)
    | Three(n: nat)
    | Whole(v: int, t: IntType)
    | Delta(v: int, last: int, t: IntType)
    | Ranged(v: int, minimum: int, maximum: int, t: IntType, allowOutside: bool)
  {
    /** What the writer may be given. */
    predicate Fits() {
      match this
      case Bool(_) => true
      case Three(n) => n < Pow2(24)
      case Whole(v, t) => t.size > 0 && t.Has(v)
      case Delta(v, last, t) => t.size > 0 && t.Has(v) && t.Has(last)
      case Ranged(v, minimum, maximum, t, allowOutside) =>
        t.size > 0 && t.Has(v) && t.Has(minimum) && t.Has(maximum) && minimum < maximum && (allowOutside || minimum <= v <= maximum)
    }

    /** What the reader must know of it. */
    function Wanted(): Request {
      match this
      case Bool(_) => ABool
      case Three(_) => AThree
      case Whole(_, t) => AWhole(t)
      case Delta(_, last, t) => ADelta(last, t)
      case Ranged(_, minimum, maximum, t, allowOutside) => ARanged(minimum, maximum, t, allowOutside)
    }

    function Carried(): Value {
      match this
      case Bool(b) => Truth(b)
      case Three(n) => Quantity(n)
      case Whole(v, _) => Quantity(v)
      case Delta(v, _, _) => Quantity(v)
      case Ranged(v, _, _, _, _) => Quantity(v)
    }

    /** Its bits; the same on every host. */
    function Code(): seq<bool>
      requires Fits()
    {
      match this
      case Bool(b) => [b]
      case Three(n) => BitsOf(LittleBytes(n, 3), 24)
      case Whole(v, t) => WholeCode(v, t)
      case Delta(v, last, t) => if v == last then [false] else [true] + WholeCode(v, t)
      case Ranged(v, minimum, maximum, t, allowOutside) =>
        if !allowOutside then RangeCode(v, minimum, maximum, t)
        else if v < minimum || v > maximum then [true] + WholeCode(v, t)
        else [false] + RangeCode(v, minimum, maximum, t)
    }

    /** Where it goes when the stream stands at `n`. */
    function Start(n: nat): (r: nat)
      ensures n <= r
    {
      if Three? then Aligned(n) else n
    }

    function End(n: nat): (r: nat)
      requires Fits()
      ensures n <= r
    {
      Start(n) + |Code()|
    }
  }

  datatype Request = ABool | AThree | AWhole(t: IntType) | ADelta(last: int, t: IntType) | ARanged(minimum: int, maximum: int, t: IntType, allowOutside: bool) {
    predicate Fits() {
      match this
      case ABool => true
      case AThree => true
      case AWhole(t) => t.size > 0
      case ADelta(_, t) => t.size > 0
      case ARanged(minimum, maximum, t, _) => t.size > 0 && t.Has(minimum) && t.Has(maximum) && minimum < maximum
    }
  }

  /** Most significant byte first. */
  function WholeCode(v: int, t: IntType): (r: seq<bool>)
    ensures |r| == 8 * t.size
  {
    BitsOf(Reversed(LittleBytes(t.Raw(v), t.size)), 8 * t.size)
  }

  function RangeBits(minimum: int, maximum: int, t: IntType): (n: nat)
    ensures n <= 8 * t.size
  {
    BitLengthFits(t.Raw(maximum - minimum), 8 * t.size);
    BitLength(t.Raw(maximum - minimum))
  }

  function RangeCode(v: int, minimum: int, maximum: int, t: IntType): (r: seq<bool>)
    ensures |r| == RangeBits(minimum, maximum, t)
  {
    BitsOf(LittleBytes(t.Raw(v - minimum), t.size), RangeBits(minimum, maximum, t))
  }

  /** The binary digits of a number, most significant first. */
  ghost predicate HighFirst(bits: seq<bool>, v: nat) {
    forall j :: 0 <= j < |bits| ==> (bits[j] <==> v / Pow2(|bits| - 1 - j) % 2 == 1)
  }

  /** The low binary digits of a number, lowest byte first and most significant first in each byte; a last byte may be only its low bits. */
  ghost predicate LowByteFirst(bits: seq<bool>, v: nat) {
    forall j :: 0 <= j < |bits| ==> (bits[j] <==> v / Pow2(LowByteWeight(|bits|, j)) % 2 == 1)
  }

  function LowByteWeight(n: nat, j: nat): nat
    requires j < n
  {
    8 * (j / 8) + (if 8 * (j / 8) + 8 <= n then 7 else n % 8 - 1) - j % 8
  }

  lemma Behind(s: seq<bool>, code: seq<bool>)
    ensures (s + code)[|s|..] == code
  {
  }

  lemma WholeDigits(v: int, t: IntType)
    ensures HighFirst(WholeCode(v, t), t.Raw(v))
  {
    hide WholeCode, Pow2;
    forall j | 0 <= j < |WholeCode(v, t)| ensures WholeCode(v, t)[j] <==> t.Raw(v) / Pow2(8 * t.size - 1 - j) % 2 == 1 {
      WholeDigit(v, t, j);
    }
  }

  lemma WholeDigit(v: int, t: IntType, j: nat)
    requires j < 8 * t.size
    ensures WholeCode(v, t)[j] <==> Digit(t.Raw(v), 8 * t.size - 1 - j)
  {
    hide Digit, ToBits, LittleBytes, BitsOf, Pow2;
    var bytes := LittleBytes(t.Raw(v), t.size);
    BitsOfDigits(Reversed(bytes), 8 * t.size, j);
    LittleDigit(t.Raw(v), t.size, t.size - 1 - j / 8, 7 - j % 8);
  }

  lemma LowDigits(v: nat, size: nat, n: nat)
    requires n <= 8 * size
    ensures LowByteFirst(BitsOf(LittleBytes(v, size), n), v)
  {
    hide BitsOf, LittleBytes, Pow2, LowByteWeight, Digit;
    forall j | 0 <= j < n ensures BitsOf(LittleBytes(v, size), n)[j] <==> v / Pow2(LowByteWeight(n, j)) % 2 == 1 {
      LowDigitAt(v, size, n, j);
      DigitIs(v, LowByteWeight(n, j));
    }
  }

  lemma LowDigitAt(v: nat, size: nat, n: nat, j: nat)
    requires j < n <= 8 * size
    ensures BitsOf(LittleBytes(v, size), n)[j] <==> Digit(v, LowByteWeight(n, j))
  {
    hide Digit, ToBits, LittleBytes, BitsOf, Pow2;
    BitsOfDigits(LittleBytes(v, size), n, j);
    LittleDigit(v, size, j / 8, (if 8 * (j / 8) + 8 <= n then 7 else n % 8 - 1) - j % 8);
  }

  // ---------------------------------------------------------------- what a read gives

  /** `offset` is where the reader stands afterwards; a failed read says nothing of the value. */
  datatype Outcome = Outcome(ok: bool, value: Value, offset: nat)

  function ReadWholeAt(bits: seq<bool>, at: nat, t: IntType): Outcome {
    if at + 8 * t.size > |bits| then Outcome(false, Quantity(0), at)
    else Outcome(true, Quantity(t.Read(LittleValue(Reversed(BytesFrom(bits[at..at + 8 * t.size]))))), at + 8 * t.size)
  }

  function ReadRangeAt(bits: seq<bool>, at: nat, minimum: int, maximum: int, t: IntType): Outcome {
    var n := RangeBits(minimum, maximum, t);
    if at + n > |bits| then Outcome(false, Quantity(0), at)
    else Outcome(true, Quantity(t.Read(t.Raw(LittleValue(BytesFrom(bits[at..at + n])) + minimum))), at + n)
  }

  function Decode(r: Request, bits: seq<bool>, at: nat): Outcome {
    match r
    case ABool => if at + 1 > |bits| then Outcome(false, Truth(false), at) else Outcome(true, Truth(bits[at]), at + 1)
    case AThree =>
      var a := Aligned(at);
      if a + 24 > |bits| then Outcome(false, Quantity(0), a) else Outcome(true, Quantity(LittleValue(BytesFrom(bits[a..a + 24]))), a + 24)
    case AWhole(t) => ReadWholeAt(bits, at, t)
    case ADelta(last, t) =>
      if at + 1 > |bits| then Outcome(false, Quantity(0), at)
      else if bits[at] then ReadWholeAt(bits, at + 1, t) else Outcome(true, Quantity(last), at + 1)
    case ARanged(minimum, maximum, t, allowOutside) =>
      if !allowOutside then ReadRangeAt(bits, at, minimum, maximum, t)
      else if at + 1 > |bits| then Outcome(false, Quantity(0), at)
      else if bits[at] then ReadWholeAt(bits, at + 1, t) else ReadRangeAt(bits, at + 1, minimum, maximum, t)
  }

  /** The bits of `code` stand at `at`. */
  ghost predicate Stands(code: seq<bool>, bits: seq<bool>, at: nat) {
    at + |code| <= |bits| && bits[at..at + |code|] == code
  }

  ghost predicate Present(item: Item, bits: seq<bool>, at: nat)
    requires item.Fits()
  {
    Stands(item.Code(), bits, item.Start(at))
  }

  lemma ReadWholeStanding(code: seq<bool>, t: IntType, bits: seq<bool>, at: nat)
    requires |code| == 8 * t.size && Stands(code, bits, at)
    ensures ReadWholeAt(bits, at, t) == Outcome(true, Quantity(t.Read(LittleValue(Reversed(BytesFrom(code))))), at + 8 * t.size)
  {
    hide LittleValue, Reversed, BytesFrom, IntType.Read;
  }

  lemma WholeCodeIs(v: int, t: IntType)
    requires t.Has(v)
    ensures t.Raw(v) < Pow2(8 * t.size) && WholeCode(v, t) == BitsOf(Reversed(LittleBytes(t.Raw(v), t.size)), 8 * t.size)
  {
  }

  lemma WholeReadsBack(v: int, t: IntType, bits: seq<bool>, at: nat)
    requires t.Has(v) && Stands(WholeCode(v, t), bits, at)
    ensures ReadWholeAt(bits, at, t) == Outcome(true, Quantity(v), at + 8 * t.size)
  {
    hide *;
    WholeCodeIs(v, t);
    ReadWholeStanding(WholeCode(v, t), t, bits, at);
    var bytes := LittleBytes(t.Raw(v), t.size);
    WholeBytesRoundTrip(Reversed(bytes));
    ReversedTwice(bytes);
    LittleRoundTrip(t.Raw(v), t.size);
    t.RawRoundTrip(v);
  }

  lemma RangedReadsBack(v: int, minimum: int, maximum: int, t: IntType, bits: seq<bool>, at: nat)
    requires t.Has(v) && t.Has(minimum) && t.Has(maximum) && minimum <= v <= maximum && Stands(RangeCode(v, minimum, maximum, t), bits, at)
    ensures ReadRangeAt(bits, at, minimum, maximum, t) == Outcome(true, Quantity(v), at + RangeBits(minimum, maximum, t))
  {
    t.DifferenceRoundTrip(v, minimum, maximum);
    var n := RangeBits(minimum, maximum, t);
    LowBitsRoundTrip(t.Raw(v - minimum), t.size, n);
  }

  lemma FlagFirst(b: bool, code: seq<bool>, bits: seq<bool>, at: nat)
    requires Stands([b] + code, bits, at)
    ensures bits[at] == b && Stands(code, bits, at + 1)
  {
    assert bits[at..at + 1 + |code|][0] == b;
    assert bits[at + 1..at + 1 + |code|] == bits[at..at + 1 + |code|][1..];
  }

  lemma ItemCode(item: Item, n: nat)
    requires item.Fits()
    ensures item.End(n) == item.Start(n) + |item.Code()|
    ensures match item
      case Bool(b) => item.Code() == [b] && item.Start(n) == n && item.Wanted() == ABool && item.Carried() == Truth(b)
      case Three(m) =>
        && m < Pow2(24) && item.Code() == BitsOf(LittleBytes(m, 3), 24) && item.Start(n) == Aligned(n)
        && item.Wanted() == AThree && item.Carried() == Quantity(m)
      case Whole(v, t) =>
        && item.Code() == WholeCode(v, t) && item.Start(n) == n && t.size > 0 && t.Has(v)
        && item.Wanted() == AWhole(t) && item.Carried() == Quantity(v)
      case Delta(v, last, t) =>
        && item.Code() == (if v == last then [false] else [true] + WholeCode(v, t)) && item.Start(n) == n && t.size > 0 && t.Has(v)
        && item.Wanted() == ADelta(last, t) && item.Carried() == Quantity(v)
      case Ranged(v, minimum, maximum, t, allowOutside) =>
        && item.Start(n) == n && t.Has(v) && t.Has(minimum) && t.Has(maximum) && (!allowOutside ==> minimum <= v <= maximum)
        && item.Wanted() == ARanged(minimum, maximum, t, allowOutside) && item.Carried() == Quantity(v)
        && item.Code() == (if !allowOutside then RangeCode(v, minimum, maximum, t)
          else if v < minimum || v > maximum then [true] + WholeCode(v, t) else [false] + RangeCode(v, minimum, maximum, t))
  {
    hide WholeCode, RangeCode, LittleBytes, BitsOf, Pow2, IntType.Has;
  }

  lemma DecodeBool(b: bool, bits: seq<bool>, at: nat)
    requires Stands([b], bits, at)
    ensures Decode(ABool, bits, at) == Outcome(true, Truth(b), at + 1)
  {
    assert bits[at..at + 1][0] == b;
  }

  lemma DecodeThree(n: nat, bits: seq<bool>, at: nat)
    requires n < Pow2(24) && Stands(BitsOf(LittleBytes(n, 3), 24), bits, Aligned(at))
    ensures Decode(AThree, bits, at) == Outcome(true, Quantity(n), Aligned(at) + 24)
  {
    hide BitsOf, LittleBytes, LittleValue, BytesFrom, Pow2, Aligned;
    LowBitsRoundTrip(n, 3, 24);
  }

  lemma DecodeDelta(v: int, last: int, t: IntType, bits: seq<bool>, at: nat)
    requires t.Has(v) && Stands(if v == last then [false] else [true] + WholeCode(v, t), bits, at)
    ensures Decode(ADelta(last, t), bits, at) == Outcome(true, Quantity(v), at + 1 + if v == last then 0 else 8 * t.size)
  {
    hide ReadWholeAt, WholeCode, IntType.Has;
    if v == last {
      assert bits[at..at + 1][0] == false;
    } else {
      FlagFirst(true, WholeCode(v, t), bits, at);
      WholeReadsBack(v, t, bits, at + 1);
    }
  }

  lemma DecodeRanged(v: int, minimum: int, maximum: int, t: IntType, allowOutside: bool, bits: seq<bool>, at: nat)
    requires t.Has(v) && t.Has(minimum) && t.Has(maximum) && (!allowOutside ==> minimum <= v <= maximum)
    requires Stands(if !allowOutside then RangeCode(v, minimum, maximum, t)
      else if v < minimum || v > maximum then [true] + WholeCode(v, t) else [false] + RangeCode(v, minimum, maximum, t), bits, at)
    ensures Decode(ARanged(minimum, maximum, t, allowOutside), bits, at) == Outcome(true, Quantity(v),
      if !allowOutside then at + RangeBits(minimum, maximum, t)
      else if v < minimum || v > maximum then at + 1 + 8 * t.size else at + 1 + RangeBits(minimum, maximum, t))
  {
    hide ReadWholeAt, ReadRangeAt, WholeCode, RangeCode, RangeBits, IntType.Has;
    if !allowOutside {
      RangedReadsBack(v, minimum, maximum, t, bits, at);
    } else if v < minimum || v > maximum {
      FlagFirst(true, WholeCode(v, t), bits, at);
      WholeReadsBack(v, t, bits, at + 1);
    } else {
      FlagFirst(false, RangeCode(v, minimum, maximum, t), bits, at);
      RangedReadsBack(v, minimum, maximum, t, bits, at + 1);
    }
  }

  lemma PresentIs(item: Item, bits: seq<bool>, at: nat)
    requires item.Fits() && Present(item, bits, at)
    ensures Stands(item.Code(), bits, item.Start(at))
  {
  }

  lemma DecodeWhole(t: IntType, bits: seq<bool>, at: nat)
    ensures Decode(AWhole(t), bits, at) == ReadWholeAt(bits, at, t)
  {
  }

  /** A read where an item was written gives the item back and stops where the item ends. */
  lemma DecodePresent(item: Item, bits: seq<bool>, at: nat)
    requires item.Fits() && Present(item, bits, at)
    ensures Decode(item.Wanted(), bits, at) == Outcome(true, item.Carried(), item.End(at))
  {
    hide *;
    ItemCode(item, at);
    PresentIs(item, bits, at);
    match item
    case Bool(b) => DecodeBool(b, bits, at);
    case Three(n) => DecodeThree(n, bits, at);
    case Whole(v, t) =>
      DecodeWhole(t, bits, at);
      WholeReadsBack(v, t, bits, at);
    case Delta(v, last, t) => DecodeDelta(v, last, t, bits, at);
    case Ranged(v, minimum, maximum, t, allowOutside) => DecodeRanged(v, minimum, maximum, t, allowOutside, bits, at);
  }

  // ---------------------------------------------------------------- the stream

  /** Two hosts that differ in byte order write the same bits. */
  lemma SwappedMemory(v: nat, size: nat, bigEndian: bool)
    ensures (if bigEndian then Memory(v, size, bigEndian) else Reversed(Memory(v, size, bigEndian))) == Reversed(LittleBytes(v, size))
    ensures (if bigEndian then Reversed(Memory(v, size, bigEndian)) else Memory(v, size, bigEndian)) == LittleBytes(v, size)
    ensures size == 1 ==> Memory(v, size, bigEndian) == Reversed(LittleBytes(v, size)) == LittleBytes(v, size)
  {
    ReversedTwice(LittleBytes(v, size));
  }

  lemma SwappedBack(bytes: seq<Byte>, bigEndian: bool)
    ensures FromMemory(if bigEndian then bytes else Reversed(bytes), bigEndian) == LittleValue(Reversed(bytes))
    ensures FromMemory(if bigEndian then Reversed(bytes) else bytes, bigEndian) == LittleValue(bytes)
    ensures |bytes| == 1 ==> FromMemory(bytes, bigEndian) == LittleValue(Reversed(bytes))
  {
    ReversedTwice(bytes);
  }

  lemma FlagThenCode(s: seq<bool>, code: seq<bool>)
    ensures s + [true] + code == s + ([true] + code)
  {
  }

  /** Three bytes set one after another. */
  lemma ThreeSet(d0: seq<bool>, d1: seq<bool>, d2: seq<bool>, d3: seq<bool>, at: nat, a: seq<bool>, b: seq<bool>, c: seq<bool>)
    requires |a| == |b| == |c| == 8 && at + 24 <= |d0| == |d1| == |d2|
    requires d1 == d0[..at] + a + d0[at + 8..] && d2 == d1[..at + 8] + b + d1[at + 16..] && d3 == d2[..at + 16] + c + d2[at + 24..]
    ensures d3 == d0[..at] + (a + b + c) + d0[at + 24..]
  {
    assert d1[..at + 8] == d0[..at] + a && d1[at + 16..] == d0[at + 16..];
    assert d2[..at + 16] == d0[..at] + a + b && d2[at + 24..] == d0[at + 24..];
  }

  class BitStream {
    const bigEndian: bool
    /** Every bit of storage, used or not. */
    var data: seq<bool>
    var numberOfBitsUsed: nat
    var readOffset: nat

    predicate Valid()
      reads this
    {
      numberOfBitsUsed <= |data| && |data| % 8 == 0
    }

    function Written(): (s: seq<bool>)
      requires Valid()
      reads this
      ensures |s| == numberOfBitsUsed
    {
      data[..numberOfBitsUsed]
    }

    constructor (bigEndian: bool)
      ensures Valid() && Written() == [] && readOffset == 0 && this.bigEndian == bigEndian
    {
      this.bigEndian, data, numberOfBitsUsed, readOffset := bigEndian, [], 0, 0;
    }

    /** The bits passed over keep whatever was in storage. */
    method AlignWriteToByteBoundary()
      requires Valid()
      modifies this`numberOfBitsUsed
      ensures Valid() && numberOfBitsUsed == Aligned(old(numberOfBitsUsed)) && old(Written()) <= Written()
    {
      numberOfBitsUsed := numberOfBitsUsed + (8 - ((numberOfBitsUsed - 1) % 8 + 1));
    }

    method AlignReadToByteBoundary()
      modifies this`readOffset
      ensures readOffset == Aligned(old(readOffset))
    {
      readOffset := readOffset + (8 - ((readOffset - 1) % 8 + 1));
    }

    method AddBitsAndReallocate(numberOfBitsToWrite: nat)
      requires Valid()
      modifies this`data
      ensures Valid() && |data| >= numberOfBitsUsed + numberOfBitsToWrite && Written() == old(Written())
    {
      var size := Aligned(numberOfBitsUsed + numberOfBitsToWrite);
      if size > |data| {
        data := data + seq(size - |data|, _ => false);
      }
    }

    method Append(code: seq<bool>)
      requires Valid()
      modifies this`data, this`numberOfBitsUsed
      ensures Valid() && Written() == old(Written()) + code
    {
      AddBitsAndReallocate(|code|);
      data := data[..numberOfBitsUsed] + code + data[numberOfBitsUsed + |code|..];
      numberOfBitsUsed := numberOfBitsUsed + |code|;
    }

    method WriteBits(bytes: seq<Byte>, n: nat)
      requires Valid() && n <= 8 * |bytes|
      modifies this`data, this`numberOfBitsUsed
      ensures Valid() && Written() == old(Written()) + BitsOf(bytes, n)
    {
      Append(BitsOf(bytes, n));
    }

    method WriteBool(b: bool)
      requires Valid()
      modifies this`data, this`numberOfBitsUsed
      ensures Valid() && Written() == old(Written()) + [b]
    {
      Append([b]);
    }

    /** The host's bytes are turned into most significant first, unless there is only one. */
    method WriteWhole(v: int, t: IntType)
      requires Valid() && t.size > 0
      modifies this`data, this`numberOfBitsUsed
      ensures Valid() && Written() == old(Written()) + WholeCode(v, t)
      ensures numberOfBitsUsed == old(numberOfBitsUsed) + 8 * t.size && HighFirst(Written()[old(numberOfBitsUsed)..], t.Raw(v))
    {
      hide *;
      WholeCodeOf(v, t);
      WholeDigits(v, t);
      Behind(Written(), WholeCode(v, t));
      var bytes := Memory(t.Raw(v), t.size, bigEndian);
      SwappedMemory(t.Raw(v), t.size, bigEndian);
      if t.size == 1 {
        WriteBits(bytes, 8 * t.size);
      } else if !bigEndian {
        WriteBits(Reversed(bytes), 8 * t.size);
      } else {
        WriteBits(bytes, 8 * t.size);
      }
    }

    /** Storage byte `i` is overwritten. */
    method SetByte(i: nat, b: Byte)
      requires Valid() && 8 * i + 8 <= |data|
      modifies this`data
      ensures Valid() && data == old(data)[..8 * i] + ToBits(b, 8) + old(data)[8 * i + 8..]
    {
      data := data[..8 * i] + ToBits(b, 8) + data[8 * i + 8..];
    }

    /** A number of three bytes, least significant first, from the next whole byte on. */
    method WriteThree(n: nat)
      requires Valid() && n < Pow2(24)
      modifies this`data, this`numberOfBitsUsed
      ensures Valid() && Present(Three(n), Written(), old(numberOfBitsUsed)) && numberOfBitsUsed == Aligned(old(numberOfBitsUsed)) + 24
      ensures old(Written()) <= Written()
      ensures LowByteFirst(Written()[numberOfBitsUsed - 24..], n)
    {
      hide *;
      AlignWriteToByteBoundary();
      AddBitsAndReallocate(3 * 8);
      ghost var was, used := data, numberOfBitsUsed;
      AlignedEnds(old(numberOfBitsUsed));
      WrittenIs();
      var val := Memory(n, 4, bigEndian);
      MemoryOfThree(n, bigEndian);
      var at := numberOfBitsUsed / 8;
      if !bigEndian {
        SetThree(at, val[0], val[1], val[2]);
      } else {
        SetThree(at, val[3], val[2], val[1]);
      }
      numberOfBitsUsed := numberOfBitsUsed + 3 * 8;
      ThreeBytesStand(n, was, data, used);
      WrittenIs();
      ThreePresent(n, data, old(numberOfBitsUsed));
      LowDigits(n, 3, 24);
      Behind(data[..used], BitsOf(LittleBytes(n, 3), 24));
      assert Written() == data[..used] + data[used..used + 24];
    }

    method SetThree(at: nat, a: Byte, b: Byte, c: Byte)
      requires Valid() && 8 * at + 24 <= |data|
      modifies this`data
      ensures Valid() && data == old(data)[..8 * at] + (ToBits(a, 8) + ToBits(b, 8) + ToBits(c, 8)) + old(data)[8 * at + 24..]
    {
      hide *;
      ghost var d0 := data;
      SetByte(at, a);
      ghost var d1 := data;
      SetByte(at + 1, b);
      ghost var d2 := data;
      SetByte(at + 2, c);
      ThreeSet(d0, d1, d2, data, 8 * at, ToBits(a, 8), ToBits(b, 8), ToBits(c, 8));
    }

    lemma WrittenIs()
      ensures Valid() <==> numberOfBitsUsed <= |data| && |data| % 8 == 0
      ensures Valid() ==> Written() == data[..numberOfBitsUsed]
    {
    }

    /** The distance from the minimum, in as many bits as the widest distance needs. */
    method WriteRange(v: int, minimum: int, maximum: int, t: IntType)
      requires Valid() && t.size > 0
      modifies this`data, this`numberOfBitsUsed
      ensures Valid() && Written() == old(Written()) + RangeCode(v, minimum, maximum, t)
      ensures numberOfBitsUsed == old(numberOfBitsUsed) + BitLength(t.Raw(maximum - minimum))
      ensures LowByteFirst(Written()[old(numberOfBitsUsed)..], t.Raw(v - minimum))
    {
      hide *;
      RangeCodeOf(v, minimum, maximum, t);
      LowDigits(t.Raw(v - minimum), t.size, BitLength(t.Raw(maximum - minimum)));
      Behind(Written(), RangeCode(v, minimum, maximum, t));
      var requiredBits := 8 * t.size - (8 * t.size - BitLength(t.Raw(maximum - minimum)));
      var valueOffMin := Memory(t.Raw(v - minimum), t.size, bigEndian);
      SwappedMemory(t.Raw(v - minimum), t.size, bigEndian);
      if bigEndian {
        WriteBits(Reversed(valueOffMin), requiredBits);
      } else {
        WriteBits(valueOffMin, requiredBits);
      }
    }

    method WriteDelta(currentValue: int, lastValue: int, t: IntType)
      requires Valid() && t.size > 0
      modifies this`data, this`numberOfBitsUsed
      ensures Valid() && Written() == old(Written()) + if currentValue == lastValue then [false] else [true] + WholeCode(currentValue, t)
    {
      hide *;
      if currentValue == lastValue {
        WriteBool(false);
      } else {
        FlagThenCode(Written(), WholeCode(currentValue, t));
        WriteBool(true);
        WriteWhole(currentValue, t);
      }
    }

    method WriteBitsFromIntegerRange(value: int, minimum: int, maximum: int, t: IntType, allowOutsideRange: bool)
      requires Valid() && Ranged(value, minimum, maximum, t, allowOutsideRange).Fits()
      modifies this`data, this`numberOfBitsUsed
      ensures Valid() && Written() == old(Written()) + Ranged(value, minimum, maximum, t, allowOutsideRange).Code()
      ensures Written() == old(Written()) +
        if !allowOutsideRange then RangeCode(value, minimum, maximum, t)
        else if value < minimum || value > maximum then [true] + WholeCode(value, t)
        else [false] + RangeCode(value, minimum, maximum, t)
    {
      hide *;
      RangedCode(value, minimum, maximum, t, allowOutsideRange, Written());
      if allowOutsideRange {
        if value < minimum || value > maximum {
          WriteBool(true);
          WriteWhole(value, t);
          return;
        }
        WriteBool(false);
      }
      WriteRange(value, minimum, maximum, t);
    }

    /** Whatever is written stands where the stream stood, and nothing before it changes. */
    method Write(item: Item)
      requires Valid() && item.Fits()
      modifies this`data, this`numberOfBitsUsed
      ensures Valid() && Present(item, Written(), old(numberOfBitsUsed)) && numberOfBitsUsed == item.End(old(numberOfBitsUsed))
      ensures old(Written()) <= Written()
    {
      hide *;
      ItemCode(item, numberOfBitsUsed);
      ghost var was := Written();
      match item {
        case Bool(b) => WriteBool(b);
        case Three(n) => WriteThree(n); return;
        case Whole(v, t) => WriteWhole(v, t);
        case Delta(v, last, t) => WriteDelta(v, last, t);
        case Ranged(v, minimum, maximum, t, allowOutside) => WriteBitsFromIntegerRange(v, minimum, maximum, t, allowOutside);
      }
      AppendedStands(item, was);
    }

    // -------------------------------------------------------------- reading

    method ReadBits(n: nat) returns (ok: bool, bytes: seq<Byte>)
      requires Valid()
      modifies this`readOffset
      ensures ok == (old(readOffset) + n <= numberOfBitsUsed) && readOffset == old(readOffset) + if ok then n else 0
      ensures ok ==> bytes == BytesFrom(Written()[old(readOffset)..old(readOffset) + n])
    {
      if readOffset + n > numberOfBitsUsed {
        return false, [];
      }
      assert Written()[readOffset..readOffset + n] == data[readOffset..readOffset + n];
      ok, bytes := true, BytesFrom(data[readOffset..readOffset + n]);
      readOffset := readOffset + n;
    }

    method ReadBool() returns (ok: bool, b: bool)
      requires Valid()
      modifies this`readOffset
      ensures Same(ok, Truth(b), readOffset, Decode(ABool, Written(), old(readOffset)))
      ensures ok <==> old(readOffset) + 1 <= numberOfBitsUsed
      ensures if ok then readOffset == old(readOffset) + 1 && b == data[old(readOffset)] else readOffset == old(readOffset)
    {
      if readOffset + 1 > numberOfBitsUsed {
        b := *;
        return false, b;
      }
      b := data[readOffset];
      readOffset := readOffset + 1;
      ok := true;
    }

    method ReadThree() returns (ok: bool, n: nat)
      requires Valid()
      modifies this`readOffset
      ensures Same(ok, Quantity(n), readOffset, Decode(AThree, Written(), old(readOffset)))
      ensures ok <==> (old(readOffset) + 7) / 8 * 8 + 24 <= numberOfBitsUsed
      ensures readOffset == (old(readOffset) + 7) / 8 * 8 + if ok then 24 else 0
      ensures ok ==> var a := readOffset - 24;
        n == Bits.Number(data[a..a + 8]) + 256 * Bits.Number(data[a + 8..a + 16]) + 65536 * Bits.Number(data[a + 16..a + 24])
    {
      hide *;
      WrittenIs();
      ThreeSpelt(data, numberOfBitsUsed, readOffset);
      AlignReadToByteBoundary();
      WrittenIs();
      if readOffset + 3 * 8 > numberOfBitsUsed {
        n := *;
        ok := false;
      } else {
        var at := readOffset / 8;
        var a, b, c := ByteAt(at), ByteAt(at + 1), ByteAt(at + 2);
        ThreeAt(at);
        n := FromMemory(if bigEndian then [0, c, b, a] else [a, b, c, 0], bigEndian);
        ThreeFromMemory(a, b, c, bigEndian);
        ThreeValue(a, b, c);
        readOffset := readOffset + 3 * 8;
        ok := true;
      }
      WrittenIs();
      SameAs(ok, Quantity(n), readOffset, Decode(AThree, Written(), old(readOffset)));
    }

    lemma ThreeAt(i: nat)
      requires 8 * i + 24 <= |data|
      ensures ByteAt(i) == Bits.Number(data[8 * i..8 * i + 8])
      ensures ByteAt(i + 1) == Bits.Number(data[8 * i + 8..8 * i + 16]) && ByteAt(i + 2) == Bits.Number(data[8 * i + 16..8 * i + 24])
    {
    }

    function ByteAt(i: nat): Byte
      requires 8 * i + 8 <= |data|
      reads this
    {
      Pow2Byte(0);
      Bits.Number(data[8 * i..8 * i + 8])
    }

    method ReadWhole(t: IntType) returns (ok: bool, v: int)
      requires Valid() && t.size > 0
      modifies this`readOffset
      ensures Same(ok, Quantity(v), readOffset, ReadWholeAt(Written(), old(readOffset), t))
      ensures ok <==> old(readOffset) + 8 * t.size <= numberOfBitsUsed
      ensures readOffset == old(readOffset) + if ok then 8 * t.size else 0
      ensures ok ==> v == t.Read(Bits.Number(data[old(readOffset)..old(readOffset) + 8 * t.size]))
    {
      hide *;
      WrittenIs();
      ReadWholeSpelt(data, numberOfBitsUsed, readOffset, t);
      var bytes;
      ok, bytes := ReadBits(8 * t.size);
      if ok {
        SwappedBack(bytes, bigEndian);
        v := t.Read(FromMemory(if t.size == 1 || bigEndian then bytes else Reversed(bytes), bigEndian));
      } else {
        v := *;
      }
      WrittenIs();
      SameAs(ok, Quantity(v), readOffset, ReadWholeAt(Written(), old(readOffset), t));
    }

    method ReadRange(minimum: int, maximum: int, t: IntType) returns (ok: bool, v: int)
      requires Valid() && t.size > 0
      modifies this`readOffset
      ensures Same(ok, Quantity(v), readOffset, ReadRangeAt(Written(), old(readOffset), minimum, maximum, t))
      ensures var n := BitLength(t.Raw(maximum - minimum));
        (ok <==> old(readOffset) + n <= numberOfBitsUsed) && readOffset == old(readOffset) + if ok then n else 0
      ensures ok ==> Offset(data[old(readOffset)..readOffset], v, minimum, t)
    {
      hide *;
      WrittenIs();
      RangeBitsIs(minimum, maximum, t);
      OffsetRead(data, numberOfBitsUsed, readOffset, minimum, maximum, t);
      var requiredBits := 8 * t.size - (8 * t.size - BitLength(t.Raw(maximum - minimum)));
      var output;
      ok, output := ReadBits(requiredBits);
      if ok {
        var value := FromOutput(output, t.size, bigEndian);
        v := t.Read(t.Raw(value + minimum));
      } else {
        v := *;
      }
      WrittenIs();
      RangeOutcome(Written(), old(readOffset), minimum, maximum, t);
      SameAs(ok, Quantity(v), readOffset, ReadRangeAt(Written(), old(readOffset), minimum, maximum, t));
    }

    /** The variable holds the last value; it keeps it when no other was written. */
    method ReadDelta(last: int, t: IntType) returns (ok: bool, v: int)
      requires Valid() && t.size > 0
      modifies this`readOffset
      ensures Same(ok, Quantity(v), readOffset, Decode(ADelta(last, t), Written(), old(readOffset)))
      ensures old(readOffset) + 1 > numberOfBitsUsed ==> !ok && readOffset == old(readOffset)
      ensures old(readOffset) + 1 <= numberOfBitsUsed && !data[old(readOffset)] ==> ok && v == last && readOffset == old(readOffset) + 1
      ensures old(readOffset) + 1 <= numberOfBitsUsed && data[old(readOffset)] ==>
        && (ok <==> old(readOffset) + 1 + 8 * t.size <= numberOfBitsUsed)
        && readOffset == old(readOffset) + 1 + (if ok then 8 * t.size else 0)
        && (ok ==> v == t.Read(Bits.Number(data[old(readOffset) + 1..readOffset])))
    {
      hide ReadWholeAt, WholeCode, IntType.Read, IntType.Raw;
      NothingLeft(Written(), readOffset, t);
      v := last;
      var dataWritten;
      ok, dataWritten := ReadBool();
      if dataWritten {
        ok, v := ReadWhole(t);
      }
    }

    method ReadBitsFromIntegerRange(minimum: int, maximum: int, t: IntType, allowOutsideRange: bool) returns (ok: bool, v: int)
      requires Valid() && ARanged(minimum, maximum, t, allowOutsideRange).Fits()
      modifies this`readOffset
      ensures Same(ok, Quantity(v), readOffset, Decode(ARanged(minimum, maximum, t, allowOutsideRange), Written(), old(readOffset)))
      ensures allowOutsideRange && old(readOffset) + 1 > numberOfBitsUsed ==> !ok && readOffset == old(readOffset)
      ensures allowOutsideRange && old(readOffset) + 1 <= numberOfBitsUsed && data[old(readOffset)] ==>
        && (ok <==> old(readOffset) + 1 + 8 * t.size <= numberOfBitsUsed)
        && readOffset == old(readOffset) + 1 + (if ok then 8 * t.size else 0)
        && (ok ==> v == t.Read(Bits.Number(data[old(readOffset) + 1..readOffset])))
      ensures var from, n := old(readOffset) + (if allowOutsideRange then 1 else 0), BitLength(t.Raw(maximum - minimum));
        (!allowOutsideRange || (from <= numberOfBitsUsed && !data[old(readOffset)])) ==>
          && (ok <==> from + n <= numberOfBitsUsed) && readOffset == from + (if ok then n else 0)
          && (ok ==> Offset(data[from..readOffset], v, minimum, t))
    {
      hide Offset, ReadWholeAt, ReadRangeAt, RangeBits, WholeCode, IntType.Read, IntType.Raw, IntType.Has, Pow2;
      NothingLeft(Written(), readOffset, t);
      NothingInRange(Written(), readOffset, minimum, maximum, t);
      if allowOutsideRange {
        var _, isOutsideRange := ReadBool();
        if isOutsideRange {
          ok, v := ReadWhole(t);
          return;
        }
      }
      ok, v := ReadRange(minimum, maximum, t);
    }

    method Read(r: Request) returns (ok: bool, value: Value)
      requires Valid() && r.Fits()
      modifies this`readOffset
      ensures Same(ok, value, readOffset, Decode(r, Written(), old(readOffset)))
    {
      hide *;
      var b, v;
      match r {
        case ABool =>
          ok, b := ReadBool();
          value := Truth(b);
        case AThree =>
          ok, v := ReadThree();
          value := Quantity(v);
        case AWhole(t) =>
          RequestFits(r, Written(), readOffset);
          WrittenIs();
          ok, v := ReadWhole(t);
          WrittenIs();
          RequestFits(r, Written(), old(readOffset));
          value := Quantity(v);
        case ADelta(last, t) =>
          RequestFits(r, Written(), readOffset);
          ok, v := ReadDelta(last, t);
          value := Quantity(v);
        case ARanged(minimum, maximum, t, allowOutside) =>
          ok, v := ReadBitsFromIntegerRange(minimum, maximum, t, allowOutside);
          value := Quantity(v);
      }
    }
  }

  lemma RangeBitsIs(minimum: int, maximum: int, t: IntType)
    ensures RangeBits(minimum, maximum, t) == BitLength(t.Raw(maximum - minimum)) <= 8 * t.size
  {
    BitLengthFits(t.Raw(maximum - minimum), 8 * t.size);
  }

  /** The bits hold, low byte first, how far the value lies above the minimum, counted round the type. */
  ghost predicate Offset(bits: seq<bool>, v: int, minimum: int, t: IntType) {
    exists x: nat :: x < Pow2(|bits|) && LowByteFirst(bits, x) && v == t.Read(t.Raw(x + minimum))
  }

  lemma OffsetRead(data: seq<bool>, used: nat, at: nat, minimum: int, maximum: int, t: IntType)
    requires used <= |data|
    ensures var n := BitLength(t.Raw(maximum - minimum));
      at + n <= used ==> Offset(data[at..at + n], t.Read(t.Raw(LittleValue(BytesFrom(data[..used][at..at + n])) + minimum)), minimum, t)
  {
    hide *;
    var n := BitLength(t.Raw(maximum - minimum));
    if at + n <= used {
      var bits := data[at..at + n];
      assert data[..used][at..at + n] == bits;
      RangeBitsIs(minimum, maximum, t);
      LowBitsAre(bits, t.size);
      LowDigits(LittleValue(BytesFrom(bits)), t.size, n);
      OffsetIs(bits, LittleValue(BytesFrom(bits)), minimum, t);
    }
  }

  lemma OffsetIs(bits: seq<bool>, x: nat, minimum: int, t: IntType)
    requires x < Pow2(|bits|) && LowByteFirst(bits, x)
    ensures Offset(bits, t.Read(t.Raw(x + minimum)), minimum, t)
  {
    hide Pow2, LowByteFirst, IntType.Read, IntType.Raw;
  }

  lemma RangeOutcome(bits: seq<bool>, at: nat, minimum: int, maximum: int, t: IntType)
    ensures var n := RangeBits(minimum, maximum, t);
      ReadRangeAt(bits, at, minimum, maximum, t) == if at + n > |bits| then Outcome(false, Quantity(0), at)
      else Outcome(true, Quantity(t.Read(t.Raw(LittleValue(BytesFrom(bits[at..at + n])) + minimum))), at + n)
  {
  }

  lemma SameAs(ok: bool, value: Value, offset: nat, outcome: Outcome)
    requires ok == outcome.ok && offset == outcome.offset && (ok ==> value == outcome.value)
    ensures Same(ok, value, offset, outcome)
  {
  }

  /** The bytes read, with zeroes above them, taken as a number of the host. */
  method FromOutput(output: seq<Byte>, size: nat, bigEndian: bool) returns (value: nat)
    requires |output| <= size
    ensures value == LittleValue(output)
  {
    var zeroes: seq<Byte> := seq(size - |output|, _ => 0);
    ZeroesAbove(output, zeroes);
    SwappedBack(output + zeroes, bigEndian);
    value := FromMemory(if bigEndian then Reversed(output + zeroes) else output + zeroes, bigEndian);
  }

  /** With no bit left, every read fails where it stands. */
  lemma NothingLeft(bits: seq<bool>, at: nat, t: IntType)
    requires t.size > 0
    ensures at >= |bits| ==> ReadWholeAt(bits, at, t) == Outcome(false, Quantity(0), at)
  {
  }

  lemma NothingInRange(bits: seq<bool>, at: nat, minimum: int, maximum: int, t: IntType)
    requires ARanged(minimum, maximum, t, true).Fits()
    ensures at >= |bits| ==> ReadRangeAt(bits, at, minimum, maximum, t) == Outcome(false, Quantity(0), at)
  {
    t.DifferenceRoundTrip(maximum, minimum, maximum);
  }

  lemma RequestFits(r: Request, bits: seq<bool>, at: nat)
    requires r.Fits()
    ensures r.AWhole? ==> r.t.size > 0 && Decode(r, bits, at) == ReadWholeAt(bits, at, r.t)
    ensures r.ADelta? ==> r.t.size > 0
  {
  }

  lemma ThreeBytesRead(data: seq<bool>, at: nat, used: nat)
    requires at + 24 <= used <= |data|
    ensures BytesFrom(data[..used][at..at + 24]) == [Bits.Number(data[at..at + 8]), Bits.Number(data[at + 8..at + 16]), Bits.Number(data[at + 16..at + 24])]
  {
    var bits := data[at..at + 24];
    assert data[..used][at..at + 24] == bits;
    var later, last := bits[8..], bits[8..][8..];
    assert bits[..8] == data[at..at + 8] && later[..8] == data[at + 8..at + 16] && last[..8] == data[at + 16..at + 24] && last[8..] == [];
    assert BytesFrom(bits) == [Bits.Number(bits[..8])] + BytesFrom(later);
    assert BytesFrom(later) == [Bits.Number(later[..8])] + BytesFrom(last);
    assert BytesFrom(last) == [Bits.Number(last[..8])] + BytesFrom(last[8..]);
  }

  /** Three bytes from the next boundary on, if they are all there. */
  lemma ThreeSpelt(data: seq<bool>, used: nat, at: nat)
    requires used <= |data|
    ensures Aligned(at) == (at + 7) / 8 * 8 && 8 * (Aligned(at) / 8) == Aligned(at)
    ensures Decode(AThree, data[..used], at) ==
      var a := Aligned(at);
      if a + 24 > used then Outcome(false, Quantity(0), a)
      else Outcome(true, Quantity(Bits.Number(data[a..a + 8]) + 256 * Bits.Number(data[a + 8..a + 16]) + 65536 * Bits.Number(data[a + 16..a + 24])), a + 24)
  {
    var a := Aligned(at);
    if a + 24 <= used {
      ThreeBytesRead(data, a, used);
      ThreeValue(Bits.Number(data[a..a + 8]), Bits.Number(data[a + 8..a + 16]), Bits.Number(data[a + 16..a + 24]));
    }
  }

  lemma ThreeValue(a: Byte, b: Byte, c: Byte)
    ensures LittleValue([a, b, c]) == a + 256 * b + 65536 * c
  {
    ValueOfFirst(a, [b, c]);
    ValueOfFirst(b, [c]);
    ValueOfFirst(c, []);
    assert [a] + [b, c] == [a, b, c] && [b] + [c] == [b, c] && [c] + [] == [c] && LittleValue([]) == 0;
  }

  lemma ReadWholeSpelt(data: seq<bool>, used: nat, at: nat, t: IntType)
    requires used <= |data|
    ensures if at + 8 * t.size > used then ReadWholeAt(data[..used], at, t) == Outcome(false, Quantity(0), at)
            else
              var v := t.Read(Bits.Number(data[at..at + 8 * t.size]));
              && ReadWholeAt(data[..used], at, t) == Outcome(true, Quantity(v), at + 8 * t.size)
              && v == t.Read(LittleValue(Reversed(BytesFrom(data[..used][at..at + 8 * t.size]))))
              && |BytesFrom(data[..used][at..at + 8 * t.size])| == t.size
  {
    if at + 8 * t.size <= used {
      assert data[..used][at..at + 8 * t.size] == data[at..at + 8 * t.size];
      BytesSpell(data[at..at + 8 * t.size]);
    }
  }

  lemma ThreeFromMemory(a: Byte, b: Byte, c: Byte, bigEndian: bool)
    ensures FromMemory(if bigEndian then [0, c, b, a] else [a, b, c, 0], bigEndian) == LittleValue([a, b, c])
  {
    ZeroesAbove([a, b, c], [0]);
    assert Reversed<Byte>([0, c, b, a]) == [a, b, c, 0] == [a, b, c] + [0];
  }

  /** The reader's outcome is the one computed; a failed read leaves the value as it was. */
  predicate Same(ok: bool, value: Value, offset: nat, outcome: Outcome) {
    ok == outcome.ok && offset == outcome.offset && (ok ==> value == outcome.value)
  }

  lemma AlignedEnds(n: nat)
    ensures n <= Aligned(n) && 8 * (Aligned(n) / 8) == Aligned(n)
  {
  }

  lemma MemoryOfThree(n: nat, bigEndian: bool)
    ensures var val, low := Memory(n, 4, bigEndian), LittleBytes(n, 3);
      if bigEndian then val[3] == low[0] && val[2] == low[1] && val[1] == low[2] else val[0] == low[0] && val[1] == low[1] && val[2] == low[2]
  {
    var m, l := n / 256, n / 256 / 256;
    assert LittleBytes(l, 1) == [l % 256] + LittleBytes(l / 256, 0) && LittleBytes(l, 2) == [l % 256] + LittleBytes(l / 256, 1);
    assert LittleBytes(m, 2) == [m % 256] + LittleBytes(l, 1) && LittleBytes(m, 3) == [m % 256] + LittleBytes(l, 2);
    assert LittleBytes(n, 3) == [n % 256] + LittleBytes(m, 2) && LittleBytes(n, 4) == [n % 256] + LittleBytes(m, 3);
  }

  lemma ThreeBytesStand(n: nat, was: seq<bool>, bits: seq<bool>, at: nat)
    requires at + 24 <= |was|
    requires var low := LittleBytes(n, 3); bits == was[..at] + (ToBits(low[0], 8) + ToBits(low[1], 8) + ToBits(low[2], 8)) + was[at + 24..]
    ensures |bits| == |was| && bits[at..at + 24] == BitsOf(LittleBytes(n, 3), 24) && bits[..at] == was[..at]
  {
    hide LittleBytes, ToBits;
    ghost var low := LittleBytes(n, 3);
    assert BitsOf(low, 24) == ToBits(low[0], 8) + BitsOf(low[1..], 16);
    assert BitsOf(low[1..], 16) == ToBits(low[1], 8) + BitsOf(low[1..][1..], 8);
    assert BitsOf(low[1..][1..], 8) == ToBits(low[2], 8) + [];
  }

  lemma ThreePresent(n: nat, data: seq<bool>, at: nat)
    requires n < Pow2(24) && Aligned(at) + 24 <= |data| && data[Aligned(at)..Aligned(at) + 24] == BitsOf(LittleBytes(n, 3), 24)
    ensures Three(n).Fits() && Present(Three(n), data[..Aligned(at) + 24], at)
  {
    assert data[..Aligned(at) + 24][Aligned(at)..Aligned(at) + 24] == data[Aligned(at)..Aligned(at) + 24];
  }

  lemma RangeCodeOf(v: int, minimum: int, maximum: int, t: IntType)
    ensures BitLength(t.Raw(maximum - minimum)) <= 8 * t.size
    ensures RangeCode(v, minimum, maximum, t) == BitsOf(LittleBytes(t.Raw(v - minimum), t.size), BitLength(t.Raw(maximum - minimum)))
  {
    BitLengthFits(t.Raw(maximum - minimum), 8 * t.size);
  }

  lemma RangedCode(v: int, minimum: int, maximum: int, t: IntType, allowOutside: bool, s: seq<bool>)
    requires Ranged(v, minimum, maximum, t, allowOutside).Fits()
    ensures t.size > 0
    ensures s + Ranged(v, minimum, maximum, t, allowOutside).Code() ==
      if !allowOutside then s + RangeCode(v, minimum, maximum, t)
      else if v < minimum || v > maximum then s + [true] + WholeCode(v, t)
      else s + [false] + RangeCode(v, minimum, maximum, t)
  {
    hide RangeCode, WholeCode, IntType.Has;
    assert forall b, c: seq<bool> :: s + ([b] + c) == s + [b] + c;
  }

  lemma AppendedStands(item: Item, was: seq<bool>)
    requires item.Fits() && !item.Three?
    ensures Present(item, was + item.Code(), |was|) && was <= was + item.Code() && item.End(|was|) == |was + item.Code()|
  {
    hide Item.Code;
  }

  lemma WholeCodeOf(v: int, t: IntType)
    ensures WholeCode(v, t) == BitsOf(Reversed(LittleBytes(t.Raw(v), t.size)), 8 * t.size)
  {
  }

  // ---------------------------------------------------------------- a whole run of items

  predicate AllFit(items: seq<Item>) {
    forall i :: 0 <= i < |items| ==> items[i].Fits()
  }

  /** Where a stream that stood at `n` stands after the items. */
  function EndOf(items: seq<Item>, n: nat): (r: nat)
    requires AllFit(items)
    ensures n <= r
  {
    if items == [] then n else items[|items| - 1].End(EndOf(items[..|items| - 1], n))
  }

  ghost predicate AllPresent(items: seq<Item>, bits: seq<bool>, at: nat)
    requires AllFit(items)
  {
    forall i :: 0 <= i < |items| ==> Present(items[i], bits, EndOf(items[..i], at))
  }

  lemma PresentStays(item: Item, bits: seq<bool>, more: seq<bool>, at: nat)
    requires item.Fits() && Present(item, bits, at) && bits <= more
    ensures Present(item, more, at)
  {
    hide Item.Code;
    var from, to := item.Start(at), item.Start(at) + |item.Code()|;
    assert more[..|bits|][from..to] == more[from..to];
  }

  /** One more item, written after the others. */
  lemma OneMorePresent(items: seq<Item>, i: nat, bits: seq<bool>, more: seq<bool>, at: nat)
    requires AllFit(items) && i < |items| && AllPresent(items[..i], bits, at)
    requires bits <= more && Present(items[i], more, EndOf(items[..i], at))
    ensures AllPresent(items[..i + 1], more, at) && EndOf(items[..i + 1], at) == items[i].End(EndOf(items[..i], at))
  {
    hide Present, Item.Code, Item.End, Item.Fits;
    var sofar := items[..i + 1];
    assert sofar[..i] == items[..i];
    forall j | 0 <= j < i + 1 ensures Present(sofar[j], more, EndOf(sofar[..j], at)) {
      if j < i {
        assert items[..i][j] == items[j] && items[..i][..j] == items[..j] == sofar[..j];
        PresentStays(items[j], bits, more, EndOf(items[..j], at));
      }
    }
  }

  lemma NonePresent(items: seq<Item>, bits: seq<bool>, at: nat)
    requires AllFit(items)
    ensures AllFit(items[..0]) && AllPresent(items[..0], bits, at) && EndOf(items[..0], at) == at && items[..|items|] == items
  {
  }

  lemma OneFits(items: seq<Item>, i: nat)
    requires AllFit(items) && i < |items|
    ensures items[i].Fits() && AllFit(items[..i]) && AllFit(items[..i + 1])
  {
  }

  /** Each item lies where the stream stood when it was written. */
  method WriteAll(stream: BitStream, items: seq<Item>)
    requires stream.Valid() && AllFit(items)
    modifies stream`data, stream`numberOfBitsUsed
    ensures stream.Valid() && AllPresent(items, stream.Written(), old(stream.numberOfBitsUsed))
    ensures stream.numberOfBitsUsed == EndOf(items, old(stream.numberOfBitsUsed)) && old(stream.Written()) <= stream.Written()
  {
    hide *;
    var i := 0;
    ghost var at := stream.numberOfBitsUsed;
    NonePresent(items, stream.Written(), at);
    while i < |items|
      invariant 0 <= i <= |items| && stream.Valid() && old(stream.Written()) <= stream.Written()
      invariant AllFit(items[..i]) && AllPresent(items[..i], stream.Written(), at) && stream.numberOfBitsUsed == EndOf(items[..i], at)
    {
      OneFits(items, i);
      ghost var was := stream.Written();
      stream.Write(items[i]);
      OneMorePresent(items, i, was, stream.Written(), at);
      i := i + 1;
    }
  }

  /** Reads that mirror the writes each begin where their write began, and give back what was written. */
  method ReadAll(stream: BitStream, requests: seq<Request>, ghost items: seq<Item>) returns (values: seq<Value>, offsets: seq<nat>)
    requires stream.Valid() && AllFit(items) && AllPresent(items, stream.Written(), stream.readOffset)
    requires |requests| == |items| && forall i :: 0 <= i < |items| ==> requests[i] == items[i].Wanted()
    modifies stream`readOffset
    ensures |values| == |offsets| == |items| && stream.readOffset == EndOf(items, old(stream.readOffset))
    ensures forall i :: 0 <= i < |items| ==> values[i] == items[i].Carried() && offsets[i] == EndOf(items[..i], old(stream.readOffset))
  {
    hide *;
    values, offsets := [], [];
    var i := 0;
    ghost var at, bits := stream.readOffset, stream.Written();
    NonePresent(items, bits, at);
    while i < |requests|
      invariant 0 <= i <= |items| && stream.Valid() && stream.Written() == bits && |values| == |offsets| == i
      invariant AllFit(items[..i]) && stream.readOffset == EndOf(items[..i], at)
      invariant forall j :: 0 <= j < i ==> values[j] == items[j].Carried() && AllFit(items[..j]) && offsets[j] == EndOf(items[..j], at)
    {
      OneRead(items, i, bits, at);
      offsets := offsets + [stream.readOffset];
      stream.WrittenIs();
      var ok, value := stream.Read(requests[i]);
      stream.WrittenIs();
      OutcomeOf(ok, value, stream.readOffset, Decode(requests[i], bits, EndOf(items[..i], at)));
      values := values + [value];
      i := i + 1;
    }
  }

  lemma OutcomeOf(ok: bool, value: Value, offset: nat, outcome: Outcome)
    requires Same(ok, value, offset, outcome)
    ensures ok == outcome.ok && offset == outcome.offset && (ok ==> value == outcome.value)
  {
  }

  lemma OneRead(items: seq<Item>, i: nat, bits: seq<bool>, at: nat)
    requires AllFit(items) && i < |items| && AllPresent(items, bits, at)
    ensures AllFit(items[..i]) && AllFit(items[..i + 1]) && items[i].Fits() && items[i].Wanted().Fits()
    ensures EndOf(items[..i + 1], at) == items[i].End(EndOf(items[..i], at))
    ensures Decode(items[i].Wanted(), bits, EndOf(items[..i], at)) == Outcome(true, items[i].Carried(), EndOf(items[..i + 1], at))
  {
    hide Present, Item.Code, Item.End, Decode, Item.Carried, IntType.Has;
    assert items[..i + 1][..i] == items[..i];
    DecodePresent(items[i], bits, EndOf(items[..i], at));
  }
}
