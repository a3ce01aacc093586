/** UID conversion: bit order, byte order and the eight text formats. */
module UidFormat {
  import opened Numerals

  datatype Format = Compact | Spaced | Hex10 | Hex8 | Ik3Is | Ik2 | ZkCodier | Is

  // ---------------------------------------------------------------- bit and byte order

  /** The swap network on one byte: nibbles, then bit pairs, then bits. */
  function ReverseBits(value: bv8): bv8 {
    var v1 := (value >> 4) | (value << 4);
    var v2 := ((v1 & 0xCC) >> 2) | ((v1 & 0x33) << 2);
    ((v2 & 0xAA) >> 1) | ((v2 & 0x55) << 1)
  }

  /** The byte string with every byte bit-reversed. */
  function ReverseEach(uid: seq<bv8>): seq<bv8> {
    seq(|uid|, i requires 0 <= i < |uid| => ReverseBits(uid[i]))
  }

  /** The n low bits of x appended below acc in the opposite order. */
  function ReverseOnto(x: nat, n: nat, acc: nat): nat {
    if n == 0 then acc else ReverseOnto(x / 2, n - 1, 2 * acc + x % 2)
  }

  /** The number whose n low bits are those of x in the opposite order. */
  function ReverseNumber(x: nat, n: nat): nat {
    ReverseOnto(x, n, 0)
  }

  function BitAt(x: nat, k: nat): nat {
    if k == 0 then x % 2 else BitAt(x / 2, k - 1)
  }

  function BigEndian(uid: seq<bv8>): nat {
    if uid == [] then 0 else BigEndian(uid[..|uid| - 1]) * 256 + uid[|uid| - 1] as nat
  }

  function LittleEndian(uid: seq<bv8>): nat {
    if uid == [] then 0 else uid[0] as nat + 256 * LittleEndian(uid[1..])
  }

  function Reverse(s: seq<bv8>): (r: seq<bv8>)
    ensures |r| == |s|
    ensures forall i :: 0 <= i < |s| ==> r[i] == s[|s| - 1 - i]
  {
    seq(|s|, i requires 0 <= i < |s| => s[|s| - 1 - i])
  }

  /** A byte shifted left by i bytes. */
  function ShiftBytes(b: nat, i: nat): nat {
    if i == 0 then b else 256 * ShiftBytes(b, i - 1)
  }

  lemma {:induction false} BigEndianBound(uid: seq<bv8>)
    ensures BigEndian(uid) < ShiftBytes(1, |uid|)
  {
    if uid != [] {
      BigEndianBound(uid[..|uid| - 1]);
    }
  }

  lemma {:induction false} LittleEndianBound(uid: seq<bv8>)
    ensures LittleEndian(uid) < ShiftBytes(1, |uid|)
  {
    if uid != [] {
      LittleEndianBound(uid[1..]);
    }
  }

  /** For every length, reading little-endian is reading the reversed string big-endian. */
  lemma {:induction false} LittleIsBigReversed(uid: seq<bv8>)
    ensures LittleEndian(uid) == BigEndian(Reverse(uid))
  {
    if uid != [] {
      LittleIsBigReversed(uid[1..]);
      assert Reverse(uid)[..|uid| - 1] == Reverse(uid[1..]);
    }
  }

  lemma {:induction false} BigEndianInjective(a: seq<bv8>, b: seq<bv8>)
    requires |a| == |b|
    ensures BigEndian(a) == BigEndian(b) <==> a == b
  {
    if a != [] {
      var n := |a| - 1;
      BigEndianInjective(a[..n], b[..n]);
      assert a == a[..n] + [a[n]] && b == b[..n] + [b[n]];
    }
  }

  /** One more byte at the high end. */
  lemma {:induction false} LittleEndianSnoc(uid: seq<bv8>, b: bv8)
    ensures LittleEndian(uid + [b]) == LittleEndian(uid) + ShiftBytes(b as nat, |uid|)
  {
    if uid == [] {
      assert [b][1..] == [];
      assert uid + [b] == [b];
    } else {
      LittleEndianSnoc(uid[1..], b);
      assert (uid + [b])[1..] == uid[1..] + [b];
    }
  }

  lemma EightBytesFitUint64(uid: seq<bv8>)
    requires |uid| <= 8
    ensures BigEndian(uid) < 0x1_0000_0000_0000_0000
    ensures LittleEndian(uid) < 0x1_0000_0000_0000_0000
  {
    BigEndianBound(uid);
    LittleEndianBound(uid);
    OneShiftedEight(|uid|);
  }

  lemma OneShiftedEight(n: nat)
    requires n <= 8
    ensures ShiftBytes(1, n) <= 0x1_0000_0000_0000_0000
    ensures n == 5 ==> ShiftBytes(1, n) == 0x100_0000_0000
  {
    assert ShiftBytes(1, 2) == 0x1_0000;
    assert ShiftBytes(1, 3) == 256 * ShiftBytes(1, 2);
    assert ShiftBytes(1, 4) == 256 * ShiftBytes(1, 3);
    assert ShiftBytes(1, 5) == 256 * ShiftBytes(1, 4);
    assert ShiftBytes(1, 6) == 256 * ShiftBytes(1, 5);
    assert ShiftBytes(1, 7) == 256 * ShiftBytes(1, 6);
    assert ShiftBytes(1, 8) == 256 * ShiftBytes(1, 7);
  }

  /** One more byte at the low end fits as long as there are at most eight. */
  lemma ShiftInByte(front: seq<bv8>, b: bv8)
    requires |front| < 8
    ensures BigEndian(front + [b]) == BigEndian(front) * 256 + b as nat
    ensures BigEndian(front) * 256 < 0x1_0000_0000_0000_0000
  {
    assert (front + [b])[..|front|] == front;
    EightBytesFitUint64(front + [b]);
  }

  /** Big-endian value of the last eight bytes, accumulated by shift and or. The 64-bit
      register never overflows: at most eight bytes enter it. */
  method UidToUint64Be(uid: seq<bv8>) returns (value: nat)
    ensures value == BigEndian(uid[if |uid| > 8 then |uid| - 8 else 0..])
    ensures value < 0x1_0000_0000_0000_0000
  {
    value := 0;
    var start := if |uid| > 8 then |uid| - 8 else 0;
    var i := start;
    while i < |uid|
      invariant start <= i <= |uid|
      invariant value == BigEndian(uid[start..i])
    {
      ShiftInByte(uid[start..i], uid[i]);
      assert uid[start..i] + [uid[i]] == uid[start..i + 1];
      value := (value * 256) % 0x1_0000_0000_0000_0000 + uid[i] as nat;
      i := i + 1;
    }
    assert uid[start..i] == uid[start..];
    EightBytesFitUint64(uid[start..]);
  }

  /** Little-endian value of the first eight bytes. Each byte is or-ed in above all bits set
      so far (`value < 256^i`), so the bitwise or is an addition. */
  method UidToUint64Le(uid: seq<bv8>) returns (value: nat)
    ensures value == LittleEndian(uid[..if |uid| > 8 then 8 else |uid|])
    ensures value < 0x1_0000_0000_0000_0000
  {
    value := 0;
    var count := if |uid| > 8 then 8 else |uid|;
    var i := 0;
    while i < count
      invariant 0 <= i <= count
      invariant value == LittleEndian(uid[..i]) < ShiftBytes(1, i)
    {
      assert uid[..i + 1] == uid[..i] + [uid[i]];
      LittleEndianSnoc(uid[..i], uid[i]);
      LittleEndianBound(uid[..i + 1]);
      value := value + ShiftBytes(uid[i] as nat, i);
      i := i + 1;
    }
    EightBytesFitUint64(uid[..count]);
  }

  // ---------------------------------------------------------------- the 40-bit reversal

  /** ReverseNumber really reverses: bit k of the result is bit n-1-k of x, and nothing is above bit n-1. */
  lemma {:induction false} ReverseNumberBit(x: nat, n: nat, acc: nat, k: nat)
    ensures BitAt(ReverseOnto(x, n, acc), k) == if k < n then BitAt(x, n - 1 - k) else BitAt(acc, k - n)
    decreases n
  {
    if n > 0 {
      ReverseNumberBit(x / 2, n - 1, 2 * acc + x % 2, k);
      assert (2 * acc + x % 2) / 2 == acc && (2 * acc + x % 2) % 2 == x % 2;
    }
  }

  lemma ByteBits(v: bv8)
    ensures v as nat == ((v & 1) as nat) + 2 * (((v >> 1) & 1) as nat) + 4 * (((v >> 2) & 1) as nat)
                        + 8 * (((v >> 3) & 1) as nat) + 16 * (((v >> 4) & 1) as nat) + 32 * (((v >> 5) & 1) as nat)
                        + 64 * (((v >> 6) & 1) as nat) + 128 * (((v >> 7) & 1) as nat)
  {
  }

  /** The swap network moves bit k to bit 7 - k. */
  lemma SwapNetwork(v: bv8)
    ensures ReverseBits(v) & 1 == (v >> 7) & 1 && (ReverseBits(v) >> 1) & 1 == (v >> 6) & 1
    ensures (ReverseBits(v) >> 2) & 1 == (v >> 5) & 1 && (ReverseBits(v) >> 3) & 1 == (v >> 4) & 1
    ensures (ReverseBits(v) >> 4) & 1 == (v >> 3) & 1 && (ReverseBits(v) >> 5) & 1 == (v >> 2) & 1
    ensures (ReverseBits(v) >> 6) & 1 == (v >> 1) & 1 && (ReverseBits(v) >> 7) & 1 == v & 1
  {
  }

  lemma ReverseStep(bit: nat, y: nat, n: nat, acc: nat)
    requires bit < 2
    ensures ReverseOnto(bit + 2 * y, n + 1, acc) == ReverseOnto(y, n, 2 * acc + bit)
  {
  }

  lemma ReverseFourSteps(b0: nat, b1: nat, b2: nat, b3: nat, y: nat, n: nat, acc: nat)
    requires b0 < 2 && b1 < 2 && b2 < 2 && b3 < 2
    ensures ReverseOnto(b0 + 2 * b1 + 4 * b2 + 8 * b3 + 16 * y, n + 4, acc)
         == ReverseOnto(y, n, 16 * acc + 8 * b0 + 4 * b1 + 2 * b2 + b3)
  {
    ReverseStep(b0, b1 + 2 * b2 + 4 * b3 + 8 * y, n + 3, acc);
    ReverseStep(b1, b2 + 2 * b3 + 4 * y, n + 2, 2 * acc + b0);
    ReverseStep(b2, b3 + 2 * y, n + 1, 4 * acc + 2 * b0 + b1);
    ReverseStep(b3, y, n, 8 * acc + 4 * b0 + 2 * b1 + b2);
  }

  /** The eight bits of a byte, read in either order. */
  lemma EightBits(v: bv8) returns (b0: nat, b1: nat, b2: nat, b3: nat, b4: nat, b5: nat, b6: nat, b7: nat)
    ensures b0 < 2 && b1 < 2 && b2 < 2 && b3 < 2 && b4 < 2 && b5 < 2 && b6 < 2 && b7 < 2
    ensures v as nat == b0 + 2 * b1 + 4 * b2 + 8 * b3 + 16 * b4 + 32 * b5 + 64 * b6 + 128 * b7
    ensures ReverseBits(v) as nat == b7 + 2 * b6 + 4 * b5 + 8 * b4 + 16 * b3 + 32 * b2 + 64 * b1 + 128 * b0
  {
    ByteBits(v);
    ByteBits(ReverseBits(v));
    SwapNetwork(v);
    b0, b1, b2, b3 := (v & 1) as nat, ((v >> 1) & 1) as nat, ((v >> 2) & 1) as nat, ((v >> 3) & 1) as nat;
    b4, b5, b6, b7 := ((v >> 4) & 1) as nat, ((v >> 5) & 1) as nat, ((v >> 6) & 1) as nat, ((v >> 7) & 1) as nat;
  }

  /** Reversing a number whose low byte is v starts with the swap network's result on v. */
  lemma ReverseLowByte(v: bv8, y: nat, n: nat, acc: nat)
    ensures ReverseOnto(v as nat + 256 * y, n + 8, acc) == ReverseOnto(y, n, 256 * acc + ReverseBits(v) as nat)
  {
    var b0, b1, b2, b3, b4, b5, b6, b7 := EightBits(v);
    ReverseFourSteps(b0, b1, b2, b3, b4 + 2 * b5 + 4 * b6 + 8 * b7 + 16 * y, n + 4, acc);
    ReverseFourSteps(b4, b5, b6, b7, y, n, 16 * acc + 8 * b0 + 4 * b1 + 2 * b2 + b3);
  }

  lemma ReverseBitsInvolution(v: bv8)
    ensures ReverseBits(ReverseBits(v)) == v
  {
  }

  /** Big-endian accumulation from the left. */
  function BigEndianOnto(uid: seq<bv8>, acc: nat): nat {
    if uid == [] then acc else BigEndianOnto(uid[1..], 256 * acc + uid[0] as nat)
  }

  lemma {:induction false} BigEndianFromLeft(uid: seq<bv8>, acc: nat)
    requires uid != []
    ensures BigEndianOnto(uid, acc) == 256 * BigEndianOnto(uid[..|uid| - 1], acc) + uid[|uid| - 1] as nat
  {
    if |uid| == 1 {
      assert uid[1..] == [] && uid[..0] == [];
    } else {
      BigEndianFromLeft(uid[1..], 256 * acc + uid[0] as nat);
      assert uid[1..][..|uid| - 2] == uid[..|uid| - 1][1..];
    }
  }

  lemma {:induction false} BigEndianIsLeftFold(uid: seq<bv8>)
    ensures BigEndian(uid) == BigEndianOnto(uid, 0)
  {
    if uid != [] {
      BigEndianIsLeftFold(uid[..|uid| - 1]);
      BigEndianFromLeft(uid, 0);
    }
  }

  lemma {:induction false} ReversedBytesOnto(uid: seq<bv8>, acc: nat)
    ensures BigEndianOnto(ReverseEach(uid), acc) == ReverseOnto(LittleEndian(uid), 8 * |uid|, acc)
  {
    if uid != [] {
      ReversedBytesOnto(uid[1..], 256 * acc + ReverseBits(uid[0]) as nat);
      assert ReverseEach(uid)[1..] == ReverseEach(uid[1..]);
      ReverseLowByte(uid[0], LittleEndian(uid[1..]), 8 * |uid[1..]|, acc);
    }
  }

  /** Big-endian over bit-reversed bytes is the bit reversal of little-endian, for every length. */
  lemma {:induction false} ReversedBytesReverseNumber(uid: seq<bv8>)
    ensures BigEndian(ReverseEach(uid)) == ReverseNumber(LittleEndian(uid), 8 * |uid|)
  {
    ReversedBytesOnto(uid, 0);
    BigEndianIsLeftFold(ReverseEach(uid));
  }

  // ---------------------------------------------------------------- texts

  function HexPairs(uid: seq<bv8>): string {
    if uid == [] then "" else HexPairs(uid[..|uid| - 1]) + Hex(uid[|uid| - 1] as nat, 2)
  }

  function SpacedPairs(uid: seq<bv8>): string {
    if uid == [] then ""
    else if |uid| == 1 then Hex(uid[0] as nat, 2)
    else SpacedPairs(uid[..|uid| - 1]) + " " + Hex(uid[|uid| - 1] as nat, 2)
  }

  /** Each hexadecimal digit written as two decimal digits. */
  function TwoDigitsEach(hex: string): (s: string)
    ensures |s| == 2 * |hex|
  {
    if hex == "" then ""
    else
      var d := DigitOf(hex[|hex| - 1]);
      TwoDigitsEach(hex[..|hex| - 1]) + [DigitChar(d / 10), DigitChar(d % 10)]
  }

  function Without(s: string, k: nat): string
    requires k < |s|
  {
    s[..k] + s[k + 1..]
  }

  /** What each format means. */
  function Text(uid: seq<bv8>, format: Format): string {
    if uid == [] then "N/A"
    else match format
      case Compact => HexPairs(uid)
      case Spaced => SpacedPairs(uid)
      case Hex10 => if |uid| < 5 then "N/A" else Hex(BigEndian(ReverseEach(uid[..5])), 10)
      case Hex8 => if |uid| < 4 then "N/A" else Hex(BigEndian(ReverseEach(uid[..4])), 8)
      case Ik3Is => if |uid| < 5 then "N/A" else Dec(LittleEndian(uid[..5]), 13)
      case Ik2 => if |uid| < 5 then "N/A" else Dec(BigEndian(ReverseEach(uid[..5])), 13)
      case ZkCodier =>
        if |uid| < 5 then "N/A" else ZkText(uid[..5])
      case Is => Dec(LittleEndian(uid[..if |uid| > 8 then 8 else |uid|]), 0)
  }

  /** Ten hexadecimal digits of the little-endian value with the sixth dropped. */
  function ZkDigits(five: seq<bv8>): (digits: string)
    requires |five| == 5
    ensures |digits| == 9
  {
    HexOfFive(five);
    Without(Hex(LittleEndian(five), 10), 5)
  }

  function ZkText(five: seq<bv8>): string
    requires |five| == 5
  {
    TwoDigitsEach(ZkDigits(five))
  }

  lemma HexOfFive(five: seq<bv8>)
    requires |five| == 5
    ensures Hex(LittleEndian(five), 10) == HexPairs(Reverse(five))
    ensures |Hex(LittleEndian(five), 10)| == 10
  {
    LittleIsBigReversed(five);
    HexOfBigEndian(Reverse(five));
    HexPairsLength(Reverse(five));
  }

  lemma {:induction false} HexPairsLength(uid: seq<bv8>)
    ensures |HexPairs(uid)| == 2 * |uid|
  {
    if uid != [] {
      HexPairsLength(uid[..|uid| - 1]);
      PairDigits(uid[|uid| - 1] as nat);
    }
  }

  lemma PairDigits(b: nat)
    requires b < 256
    ensures Hex(b, 2) == [DigitChar(b / 16), DigitChar(b % 16)]
  {
    assert Hex(b / 16, 1) == [DigitChar(b / 16)];
  }

  /** The zero-padded hexadecimal form of a big-endian value is the bytes' hex pairs in order. */
  lemma {:induction false} HexOfBigEndian(uid: seq<bv8>)
    requires uid != []
    ensures Hex(BigEndian(uid), 2 * |uid|) == HexPairs(uid)
  {
    var n := |uid| - 1;
    var b := uid[n] as nat;
    PairDigits(b);
    if n == 0 {
      assert uid[..0] == [];
      assert BigEndian(uid) == b;
      assert HexPairs(uid) == "" + Hex(b, 2) == Hex(b, 2);
    } else {
      HexOfBigEndian(uid[..n]);
      AppendHexPair(BigEndian(uid[..n]), b, 2 * n);
      assert HexPairs(uid) == HexPairs(uid[..n]) + Hex(b, 2);
    }
  }

  /** Shifting in one byte appends its two digits. */
  lemma AppendHexPair(x: nat, b: nat, width: nat)
    requires b < 256 && width > 0
    ensures Hex(x * 256 + b, width + 2) == Hex(x, width) + [DigitChar(b / 16), DigitChar(b % 16)]
  {
    var y := x * 256 + b;
    assert y / 16 == x * 16 + b / 16 && y % 16 == b % 16;
    assert y / 16 / 16 == x && (y / 16) % 16 == b / 16;
    assert Hex(y / 16, width + 1) == Hex(x, width) + [DigitChar(b / 16)];
  }

  /** The bit-reversed copy of the first n bytes. */
  method ReversePrefix(uid: seq<bv8>, n: nat) returns (reversed: seq<bv8>)
    requires n <= |uid|
    ensures reversed == ReverseEach(uid[..n]) && reversed[0..] == reversed
  {
    reversed := [];
    var i := 0;
    while i < n
      invariant 0 <= i <= n
      invariant reversed == ReverseEach(uid[..i])
    {
      reversed := reversed + [ReverseBits(uid[i])];
      i := i + 1;
    }
  }

  method FormatHexBytes(uid: seq<bv8>, spaced: bool) returns (output: string)
    ensures output == if spaced then SpacedPairs(uid) else HexPairs(uid)
  {
    output := "";
    var i := 0;
    while i < |uid|
      invariant 0 <= i <= |uid|
      invariant output == if spaced then SpacedPairs(uid[..i]) else HexPairs(uid[..i])
    {
      assert uid[..i + 1][..i] == uid[..i];
      if spaced && i > 0 {
        output := output + " ";
      }
      output := output + Hex(uid[i] as nat, 2);
      i := i + 1;
    }
    assert uid[..i] == uid;
  }

  /** One loop skips the sixth hexadecimal digit, a second one expands the nine that are left. */
  method FormatZkCodier(five: seq<bv8>) returns (output: string)
    requires |five| == 5
    ensures output == ZkText(five)
  {
    var value := UidToUint64Le(five);
    assert five[..5] == five;
    HexOfFive(five);
    var trimmed := DropSixth(Hex(value, 10));
    output := ExpandDigits(trimmed);
  }

  method DropSixth(hexValue: string) returns (trimmed: string)
    requires |hexValue| == 10
    ensures trimmed == Without(hexValue, 5)
  {
    trimmed := "";
    var i := 0;
    while i < 10
      invariant 0 <= i <= 10
      invariant trimmed == if i <= 5 then hexValue[..i] else hexValue[..5] + hexValue[6..i]
    {
      if i != 5 {
        trimmed := trimmed + [hexValue[i]];
      }
      i := i + 1;
    }
  }

  method ExpandDigits(trimmed: string) returns (output: string)
    ensures output == TwoDigitsEach(trimmed)
  {
    output := "";
    var i := 0;
    while i < |trimmed|
      invariant 0 <= i <= |trimmed|
      invariant output == TwoDigitsEach(trimmed[..i])
    {
      assert trimmed[..i + 1][..i] == trimmed[..i];
      var digit := DigitOf(trimmed[i]);
      assert Dec(digit / 10, 1) == [DigitChar(digit / 10)];
      output := output + Dec(digit, 2);
      i := i + 1;
    }
    assert trimmed[..i] == trimmed;
  }

  /** The formatter, case by case. */
  method FormatUid(uid: seq<bv8>, format: Format) returns (output: string)
    ensures output == Text(uid, format)
  {
    output := "N/A";
    if |uid| == 0 {
      return;
    }
    match format {
      case Compact =>
        output := FormatHexBytes(uid, false);
      case Spaced =>
        output := FormatHexBytes(uid, true);
      case Hex10 =>
        if |uid| >= 5 {
          var reversed := ReversePrefix(uid, 5);
          var value := UidToUint64Be(reversed);
          output := Hex(value, 10);
        }
      case Hex8 =>
        if |uid| >= 4 {
          var reversed := ReversePrefix(uid, 4);
          var value := UidToUint64Be(reversed);
          output := Hex(value, 8);
        }
      case Ik3Is =>
        if |uid| >= 5 {
          var value := UidToUint64Le(uid[..5]);
          assert uid[..5][..5] == uid[..5];
          output := Dec(value, 13);
        }
      case Ik2 =>
        if |uid| >= 5 {
          var reversed := ReversePrefix(uid, 5);
          var value := UidToUint64Be(reversed);
          output := Dec(value, 13);
        }
      case ZkCodier =>
        if |uid| >= 5 {
          output := FormatZkCodier(uid[..5]);
        }
      case Is =>
        var value := UidToUint64Le(uid);
        output := Dec(value, 0);
    }
  }
}

/** What the texts tell about the UID. */
module UidTheorems {
  import opened Numerals
  import opened UidFormat

  /** The IK2 number is the 40-bit reversal of the IK3/IS number. */
  lemma Ik2IsReversedIk3(uid: seq<bv8>)
    requires |uid| >= 5
    ensures DecValue(Text(uid, Ik2)) == ReverseNumber(DecValue(Text(uid, Ik3Is)), 40)
  {
    ReversedBytesReverseNumber(uid[..5]);
    DecRoundTrip(BigEndian(ReverseEach(uid[..5])), 13);
    DecRoundTrip(LittleEndian(uid[..5]), 13);
  }

  /** Both decimal forms have exactly 13 digits. */
  lemma DecimalFormsHaveThirteenDigits(uid: seq<bv8>, format: Format)
    requires |uid| >= 5 && format in {Ik3Is, Ik2}
    ensures |Text(uid, format)| == 13
    ensures forall i :: 0 <= i < 13 ==> IsDecimal(Text(uid, format)[i])
  {
    LittleEndianBound(uid[..5]);
    BigEndianBound(ReverseEach(uid[..5]));
    OneShiftedEight(5);
    TenToThirteen();
    var v := if format == Ik2 then BigEndian(ReverseEach(uid[..5])) else LittleEndian(uid[..5]);
    DecWidth(v, 13);
  }

  lemma TenToThirteen()
    ensures TenToThe(13) == 10_000_000_000_000
  {
    assert TenToThe(3) == 1_000;
    assert TenToThe(5) == 10 * (10 * TenToThe(3));
    assert TenToThe(7) == 10 * (10 * TenToThe(5));
    assert TenToThe(9) == 10 * (10 * TenToThe(7));
    assert TenToThe(11) == 10 * (10 * TenToThe(9));
    assert TenToThe(13) == 10 * (10 * TenToThe(11));
  }

  /** Each decimal form determines the first five bytes, and nothing more. */
  lemma DecimalFormsDetermineFiveBytes(a: seq<bv8>, b: seq<bv8>, format: Format)
    requires |a| >= 5 && |b| >= 5 && format in {Ik3Is, Ik2}
    ensures Text(a, format) == Text(b, format) <==> a[..5] == b[..5]
  {
    var x, y := a[..5], b[..5];
    if Text(a, format) == Text(b, format) {
      if format == Ik2 {
        DecRoundTrip(BigEndian(ReverseEach(x)), 13);
        DecRoundTrip(BigEndian(ReverseEach(y)), 13);
        BigEndianInjective(ReverseEach(x), ReverseEach(y));
        ReverseEachInjective(x, y);
      } else {
        DecRoundTrip(LittleEndian(x), 13);
        DecRoundTrip(LittleEndian(y), 13);
        LittleIsBigReversed(x);
        LittleIsBigReversed(y);
        BigEndianInjective(Reverse(x), Reverse(y));
        ReverseInjective(x, y);
      }
    }
  }

  lemma ReverseInjective(a: seq<bv8>, b: seq<bv8>)
    requires Reverse(a) == Reverse(b)
    ensures a == b
  {
    forall i | 0 <= i < |a|
      ensures a[i] == b[i]
    {
      assert Reverse(a)[|a| - 1 - i] == Reverse(b)[|a| - 1 - i];
    }
  }

  lemma ReverseEachInjective(a: seq<bv8>, b: seq<bv8>)
    requires ReverseEach(a) == ReverseEach(b)
    ensures a == b
  {
    assert |a| == |ReverseEach(a)| == |b|;
    forall i | 0 <= i < |a|
      ensures a[i] == b[i]
    {
      assert ReverseEach(a)[i] == ReverseEach(b)[i];
      ReverseBitsInvolution(a[i]);
      ReverseBitsInvolution(b[i]);
    }
  }

  // ---------------------------------------------------------------- hexadecimal forms

  /** Hex10 is the compact text of the first five bytes bit-reversed. */
  lemma Hex10IsReversedCompact(uid: seq<bv8>)
    requires |uid| >= 5
    ensures Text(uid, Hex10) == Text(ReverseEach(uid[..5]), Compact)
    ensures |Text(uid, Hex10)| == 10
  {
    HexOfBigEndian(ReverseEach(uid[..5]));
    HexPairsLength(ReverseEach(uid[..5]));
  }

  /** Hex8 is the first eight characters of Hex10. */
  lemma Hex8IsPrefixOfHex10(uid: seq<bv8>)
    requires |uid| >= 5
    ensures |Text(uid, Hex10)| == 10 && Text(uid, Hex8) == Text(uid, Hex10)[..8]
  {
    Hex10IsReversedCompact(uid);
    HexOfBigEndian(ReverseEach(uid[..4]));
    HexPairsLength(ReverseEach(uid[..4]));
    var r := ReverseEach(uid[..5]);
    assert r[..4] == ReverseEach(uid[..4]);
    assert HexPairs(r) == HexPairs(r[..4]) + Hex(r[4] as nat, 2);
  }

  function WithoutSpaces(s: string): string {
    if s == "" then ""
    else WithoutSpaces(s[..|s| - 1]) + (if s[|s| - 1] == ' ' then "" else [s[|s| - 1]])
  }

  lemma {:induction false} WithoutSpacesPair(s: string, b: nat)
    requires b < 256
    ensures WithoutSpaces(s + Hex(b, 2)) == WithoutSpaces(s) + Hex(b, 2)
  {
    PairDigits(b);
    var d, e := DigitChar(b / 16), DigitChar(b % 16);
    assert (s + [d, e])[..|s| + 1] == s + [d];
    assert (s + [d])[..|s|] == s;
    assert WithoutSpaces(s + [d]) == WithoutSpaces(s) + [d];
    assert WithoutSpaces(s + [d, e]) == WithoutSpaces(s + [d]) + [e];
    assert WithoutSpaces(s) + [d] + [e] == WithoutSpaces(s) + [d, e];
  }

  lemma WithoutSpacesSpace(s: string)
    ensures WithoutSpaces(s + " ") == WithoutSpaces(s)
  {
    assert (s + " ")[..|s|] == s;
  }

  lemma OnePair(uid: seq<bv8>)
    requires |uid| == 1
    ensures SpacedPairs(uid) == HexPairs(uid) == "" + Hex(uid[0] as nat, 2)
  {
    assert HexPairs(uid[..0]) == "";
  }

  lemma {:induction false} SpacedPairsWithoutSpaces(uid: seq<bv8>)
    ensures WithoutSpaces(SpacedPairs(uid)) == HexPairs(uid)
  {
    if |uid| == 1 {
      OnePair(uid);
      WithoutSpacesPair("", uid[0] as nat);
    } else if |uid| > 1 {
      var n := |uid| - 1;
      var head := SpacedPairs(uid[..n]);
      SpacedPairsWithoutSpaces(uid[..n]);
      WithoutSpacesSpace(head);
      WithoutSpacesPair(head + " ", uid[n] as nat);
    }
  }

  /** The spaced text with its spaces removed is the compact text. */
  lemma SpacedIsCompactWithSpaces(uid: seq<bv8>)
    ensures WithoutSpaces(SpacedPairs(uid)) == HexPairs(uid)
    ensures uid != [] ==> WithoutSpaces(Text(uid, Spaced)) == Text(uid, Compact)
  {
    SpacedPairsWithoutSpaces(uid);
  }

  /** Reads hexadecimal pairs back into byte values. */
  function ParsePairs(s: string): seq<nat> {
    if |s| < 2 then []
    else ParsePairs(s[..|s| - 2]) + [DigitOf(s[|s| - 2]) * 16 + DigitOf(s[|s| - 1])]
  }

  function Values(uid: seq<bv8>): seq<nat> {
    seq(|uid|, i requires 0 <= i < |uid| => uid[i] as nat)
  }

  lemma ParseTwo(s: string, c: char, d: char)
    ensures ParsePairs(s + [c, d]) == ParsePairs(s) + [DigitOf(c) * 16 + DigitOf(d)]
  {
    var t := s + [c, d];
    assert t[..|t| - 2] == s && t[|t| - 2] == c && t[|t| - 1] == d;
  }

  lemma ParsePair(s: string, b: nat)
    requires b < 256
    ensures ParsePairs(s + Hex(b, 2)) == ParsePairs(s) + [b]
  {
    PairDigits(b);
    DigitRoundTrip(b / 16);
    DigitRoundTrip(b % 16);
    ParseTwo(s, DigitChar(b / 16), DigitChar(b % 16));
  }

  lemma ValuesSnoc(uid: seq<bv8>)
    requires uid != []
    ensures Values(uid) == Values(uid[..|uid| - 1]) + [uid[|uid| - 1] as nat]
  {
  }

  lemma {:induction false} PairsRoundTrip(uid: seq<bv8>)
    ensures ParsePairs(HexPairs(uid)) == Values(uid)
  {
    if uid != [] {
      var n := |uid| - 1;
      PairsRoundTrip(uid[..n]);
      ParsePair(HexPairs(uid[..n]), uid[n] as nat);
      ValuesSnoc(uid);
    }
  }

  /** The compact text parses back to the UID. */
  lemma CompactRoundTrip(uid: seq<bv8>)
    ensures ParsePairs(HexPairs(uid)) == Values(uid)
    ensures uid != [] ==> ParsePairs(Text(uid, Compact)) == Values(uid)
  {
    PairsRoundTrip(uid);
  }

  // ---------------------------------------------------------------- ZK/Codier

  lemma {:induction false} TwoDigitsEachDecimal(hex: string)
    ensures forall i :: 0 <= i < |TwoDigitsEach(hex)| ==> IsDecimal(TwoDigitsEach(hex)[i])
  {
    if hex != "" {
      TwoDigitsEachDecimal(hex[..|hex| - 1]);
      DigitRoundTrip(DigitOf(hex[|hex| - 1]) / 10);
      DigitRoundTrip(DigitOf(hex[|hex| - 1]) % 10);
    }
  }

  /** The ZK/Codier text is always 18 digits. */
  lemma ZkTextHasEighteenDigits(uid: seq<bv8>)
    requires |uid| >= 5
    ensures |Text(uid, ZkCodier)| == 18
    ensures forall i :: 0 <= i < 18 ==> IsDecimal(Text(uid, ZkCodier)[i])
  {
    TwoDigitsEachDecimal(ZkDigits(uid[..5]));
  }

  lemma TenDigits(x: nat, y: nat)
    requires x < 16 && y < 16
    requires DigitChar(x / 10) == DigitChar(y / 10) && DigitChar(x % 10) == DigitChar(y % 10)
    ensures x == y
  {
    DigitRoundTrip(x / 10);
    DigitRoundTrip(x % 10);
    DigitRoundTrip(y / 10);
    DigitRoundTrip(y % 10);
  }

  lemma SameEnds(s: string, c: char, d: char, s': string, c': char, d': char)
    requires |s| == |s'| && s + [c, d] == s' + [c', d']
    ensures s == s' && c == c' && d == d'
  {
    var t, t' := s + [c, d], s' + [c', d'];
    assert t[..|s|] == s && t'[..|s|] == s';
    assert t[|s|] == c && t'[|s|] == c' && t[|s| + 1] == d && t'[|s| + 1] == d';
  }

  /** Two digits each determine the hexadecimal digits they came from. */
  lemma {:induction false} TwoDigitsEachInjective(a: string, b: string)
    requires |a| == |b|
    requires TwoDigitsEach(a) == TwoDigitsEach(b)
    ensures forall i :: 0 <= i < |a| ==> DigitOf(a[i]) == DigitOf(b[i])
  {
    if a != "" {
      var n := |a| - 1;
      var x, y := DigitOf(a[n]), DigitOf(b[n]);
      SameEnds(TwoDigitsEach(a[..n]), DigitChar(x / 10), DigitChar(x % 10),
               TwoDigitsEach(b[..n]), DigitChar(y / 10), DigitChar(y % 10));
      TenDigits(x, y);
      TwoDigitsEachInjective(a[..n], b[..n]);
    }
  }

  lemma {:induction false} TwoDigitsEachDepends(a: string, b: string)
    requires |a| == |b|
    requires forall i :: 0 <= i < |a| ==> DigitOf(a[i]) == DigitOf(b[i])
    ensures TwoDigitsEach(a) == TwoDigitsEach(b)
  {
    if a != "" {
      TwoDigitsEachDepends(a[..|a| - 1], b[..|b| - 1]);
    }
  }

  /** Agreement in the first five bytes everywhere except the low nibble of byte 2. */
  predicate AgreeButNibble(a: seq<bv8>, b: seq<bv8>)
    requires |a| >= 5 && |b| >= 5
  {
    a[0] == b[0] && a[1] == b[1] && a[2] as nat / 16 == b[2] as nat / 16 && a[3] == b[3] && a[4] == b[4]
  }

  function High(b: nat): char
    requires b < 256
  {
    DigitChar(b / 16)
  }

  function Low(b: nat): char
    requires b < 256
  {
    DigitChar(b % 16)
  }

  lemma {:induction false} HexPairsAt(uid: seq<bv8>, i: nat)
    requires i < |uid|
    ensures |HexPairs(uid)| == 2 * |uid|
    ensures HexPairs(uid)[2 * i] == High(uid[i] as nat) && HexPairs(uid)[2 * i + 1] == Low(uid[i] as nat)
  {
    HexPairsLength(uid);
    HexPairsLength(uid[..|uid| - 1]);
    PairDigits(uid[|uid| - 1] as nat);
    if i < |uid| - 1 {
      HexPairsAt(uid[..|uid| - 1], i);
    }
  }

  /** The nine digits that ZK/Codier keeps of five bytes: every nibble but the middle byte's low one. */
  function NineOf(b4: nat, b3: nat, b2: nat, b1: nat, b0: nat): (s: string)
    requires b4 < 256 && b3 < 256 && b2 < 256 && b1 < 256 && b0 < 256
    ensures |s| == 9
  {
    [High(b4), Low(b4), High(b3), Low(b3), High(b2), High(b1), Low(b1), High(b0), Low(b0)]
  }

  lemma NinePairs(r: seq<bv8>)
    requires |r| == 5
    ensures |HexPairs(r)| == 10
    ensures Without(HexPairs(r), 5) == NineOf(r[0] as nat, r[1] as nat, r[2] as nat, r[3] as nat, r[4] as nat)
  {
    HexPairsAt(r, 0);
    HexPairsAt(r, 1);
    HexPairsAt(r, 2);
    HexPairsAt(r, 3);
    HexPairsAt(r, 4);
    WithoutSixth(HexPairs(r));
  }

  lemma WithoutSixth(h: string)
    requires |h| == 10
    ensures Without(h, 5) == [h[0], h[1], h[2], h[3], h[4], h[6], h[7], h[8], h[9]]
  {
  }

  lemma NineDigits(five: seq<bv8>)
    requires |five| == 5
    ensures ZkDigits(five)
         == NineOf(five[4] as nat, five[3] as nat, five[2] as nat, five[1] as nat, five[0] as nat)
  {
    HexOfFive(five);
    NinePairs(Reverse(five));
  }

  lemma SameDigits(b: nat, c: nat)
    requires b < 256 && c < 256
    ensures DigitOf(High(b)) == DigitOf(High(c)) <==> b / 16 == c / 16
    ensures DigitOf(High(b)) == DigitOf(High(c)) && DigitOf(Low(b)) == DigitOf(Low(c)) <==> b == c
  {
  }

  lemma SameByte(b: bv8, c: bv8)
    ensures b as nat == c as nat <==> b == c
  {
  }

  predicate SameDigitsThroughout(s: string, t: string)
    requires |s| == |t|
  {
    forall i :: 0 <= i < |s| ==> DigitOf(s[i]) == DigitOf(t[i])
  }

  /** Nine digits agree exactly when the bytes do, low nibble of the middle byte aside. */
  lemma DigitsAgree(x4: nat, x3: nat, x2: nat, x1: nat, x0: nat, y4: nat, y3: nat, y2: nat, y1: nat, y0: nat)
    requires x4 < 256 && x3 < 256 && x2 < 256 && x1 < 256 && x0 < 256
    requires y4 < 256 && y3 < 256 && y2 < 256 && y1 < 256 && y0 < 256
    ensures SameDigitsThroughout(NineOf(x4, x3, x2, x1, x0), NineOf(y4, y3, y2, y1, y0))
       <==> x0 == y0 && x1 == y1 && x2 / 16 == y2 / 16 && x3 == y3 && x4 == y4
  {
    var s, t := NineOf(x4, x3, x2, x1, x0), NineOf(y4, y3, y2, y1, y0);
    SameDigits(x0, y0);
    SameDigits(x1, y1);
    SameDigits(x2, y2);
    SameDigits(x3, y3);
    SameDigits(x4, y4);
    if SameDigitsThroughout(s, t) {
      assert DigitOf(s[0]) == DigitOf(t[0]) && DigitOf(s[1]) == DigitOf(t[1]) && DigitOf(s[2]) == DigitOf(t[2]);
      assert DigitOf(s[3]) == DigitOf(t[3]) && DigitOf(s[4]) == DigitOf(t[4]) && DigitOf(s[5]) == DigitOf(t[5]);
      assert DigitOf(s[6]) == DigitOf(t[6]) && DigitOf(s[7]) == DigitOf(t[7]) && DigitOf(s[8]) == DigitOf(t[8]);
    }
  }

  lemma ZkDigitsAgree(x: seq<bv8>, y: seq<bv8>)
    requires |x| == |y| == 5
    ensures SameDigitsThroughout(ZkDigits(x), ZkDigits(y)) <==> AgreeButNibble(x, y)
  {
    NineDigits(x);
    NineDigits(y);
    DigitsAgree(x[4] as nat, x[3] as nat, x[2] as nat, x[1] as nat, x[0] as nat,
                y[4] as nat, y[3] as nat, y[2] as nat, y[1] as nat, y[0] as nat);
    SameByte(x[0], y[0]);
    SameByte(x[1], y[1]);
    SameByte(x[3], y[3]);
    SameByte(x[4], y[4]);
  }

  /** Exactly which UIDs share a ZK/Codier text. */
  lemma ZkTextCollisions(a: seq<bv8>, b: seq<bv8>)
    requires |a| >= 5 && |b| >= 5
    ensures Text(a, ZkCodier) == Text(b, ZkCodier) <==> AgreeButNibble(a, b)
  {
    var s, t := ZkDigits(a[..5]), ZkDigits(b[..5]);
    ZkDigitsAgree(a[..5], b[..5]);
    if TwoDigitsEach(s) == TwoDigitsEach(t) {
      TwoDigitsEachInjective(s, t);
    } else if SameDigitsThroughout(s, t) {
      TwoDigitsEachDepends(s, t);
    }
  }

  // ---------------------------------------------------------------- character by character

  /** The sixteen digits. */
  lemma DigitsAre(d: nat)
    requires d < 16
    ensures DigitChar(d) == "0123456789ABCDEF"[d]
  {
    assert d in {0, 1, 2, 3, 4, 5, 6, 7, 8, 9, 10, 11, 12, 13, 14, 15};
  }

  /** The compact text is two digits a byte, the high one first; the spaced text has a space between two
      bytes and nowhere else. */
  lemma {:induction false} PairsByPosition(uid: seq<bv8>, i: nat)
    requires i < |uid|
    ensures |Text(uid, Compact)| == 2 * |uid| && |Text(uid, Spaced)| == 3 * |uid| - 1
    ensures Text(uid, Compact)[2 * i] == DigitChar(uid[i] as nat / 16)
    ensures Text(uid, Compact)[2 * i + 1] == DigitChar(uid[i] as nat % 16)
    ensures Text(uid, Spaced)[3 * i..3 * i + 2] == [DigitChar(uid[i] as nat / 16), DigitChar(uid[i] as nat % 16)]
    ensures i < |uid| - 1 ==> Text(uid, Spaced)[3 * i + 2] == ' '
  {
    PairDigits(uid[i] as nat);
    HexPairsAt(uid, i);
    SpacedPairsAt(uid, i);
  }

  lemma PairLength(b: nat)
    requires b < 256
    ensures |Hex(b, 2)| == 2
  {
    PairDigits(b);
  }

  /** The i-th pair of a spaced text, and the space behind it if there is more. */
  predicate PairAt(s: string, i: nat, pair: string, more: bool) {
    3 * i + 2 <= |s| && s[3 * i..3 * i + 2] == pair && (more ==> 3 * i + 2 < |s| && s[3 * i + 2] == ' ')
  }

  lemma OneMorePair(s: string, n: nat, last: string, i: nat, pair: string)
    requires i < n && |s| == 3 * n - 1 && PairAt(s, i, pair, i < n - 1) && |last| == 2
    ensures var t := s + " " + last;
      |t| == 3 * n + 2 && PairAt(t, i, pair, true) && PairAt(t, n, last, false)
  {
    var t := s + " " + last;
    assert t[3 * i..3 * i + 2] == s[3 * i..3 * i + 2];
    assert t[3 * n..3 * n + 2] == last;
  }

  lemma {:induction false} SpacedPairsAt(uid: seq<bv8>, i: nat)
    requires i < |uid|
    ensures |SpacedPairs(uid)| == 3 * |uid| - 1
    ensures PairAt(SpacedPairs(uid), i, Hex(uid[i] as nat, 2), i < |uid| - 1)
  {
    var n := |uid| - 1;
    var last := Hex(uid[n] as nat, 2);
    PairLength(uid[n] as nat);
    if n > 0 {
      var k := if i < n then i else n - 1;
      SpacedPairsAt(uid[..n], k);
      OneMorePair(SpacedPairs(uid[..n]), n, last, k, Hex(uid[k] as nat, 2));
    }
  }

  /** Hex8 needs four bytes and is the compact text of the first four bit-reversed. */
  lemma Hex8IsReversedCompact(uid: seq<bv8>)
    requires |uid| >= 4
    ensures Text(uid, Hex8) == Text(ReverseEach(uid[..4]), Compact) && |Text(uid, Hex8)| == 8
  {
    HexOfBigEndian(ReverseEach(uid[..4]));
    HexPairsLength(ReverseEach(uid[..4]));
  }

  function ByteOr0(uid: seq<bv8>, i: nat): nat {
    if i < |uid| then uid[i] as nat else 0
  }

  lemma EightBytesLittleEndian(uid: seq<bv8>)
    requires |uid| <= 8
    ensures LittleEndian(uid) ==
      ByteOr0(uid, 0) + 256 * (ByteOr0(uid, 1) + 256 * (ByteOr0(uid, 2) + 256 * (ByteOr0(uid, 3)
      + 256 * (ByteOr0(uid, 4) + 256 * (ByteOr0(uid, 5) + 256 * (ByteOr0(uid, 6) + 256 * ByteOr0(uid, 7)))))))
  {
    if uid != [] {
      ShiftedLeft(uid, 7);
      EightBytesLittleEndian(uid[1..]);
    }
  }

  /** Dropping the first byte moves the others down by one. */
  lemma ShiftedLeft(uid: seq<bv8>, n: nat)
    requires uid != []
    ensures forall i :: 0 <= i < n ==> ByteOr0(uid[1..], i) == ByteOr0(uid, i + 1)
  {
  }

  function FiveByteValue(b0: nat, b1: nat, b2: nat, b3: nat, b4: nat): nat {
    b0 + 0x100 * b1 + 0x1_0000 * b2 + 0x100_0000 * b3 + 0x1_0000_0000 * b4
  }

  lemma FiveBytes(uid: seq<bv8>)
    requires |uid| == 5
    ensures LittleEndian(uid)
         == FiveByteValue(uid[0] as nat, uid[1] as nat, uid[2] as nat, uid[3] as nat, uid[4] as nat)
  {
    EightBytesLittleEndian(uid);
  }

  /** The number behind the IK3/IS form. */
  lemma Ik3IsByBytes(uid: seq<bv8>)
    requires |uid| >= 5
    ensures DecValue(Text(uid, Ik3Is))
         == FiveByteValue(uid[0] as nat, uid[1] as nat, uid[2] as nat, uid[3] as nat, uid[4] as nat)
  {
    FiveBytes(uid[..5]);
    DecRoundTrip(LittleEndian(uid[..5]), 13);
  }

  /** An unpadded number has decimal digits only, and no leading zero. */
  lemma {:induction false} DecUnpadded(v: nat)
    ensures var s := Dec(v, 0);
      s != "" && (forall i :: 0 <= i < |s| ==> IsDecimal(s[i])) && (s[0] == '0' ==> v == 0 && s == "0")
  {
    if v >= 10 {
      DecUnpadded(v / 10);
    }
  }

  /** The number behind the IS form, which has no leading zero. */
  lemma IsByBytes(uid: seq<bv8>)
    requires uid != []
    ensures DecValue(Text(uid, Is)) ==
      ByteOr0(uid, 0) + 256 * (ByteOr0(uid, 1) + 256 * (ByteOr0(uid, 2) + 256 * (ByteOr0(uid, 3)
      + 256 * (ByteOr0(uid, 4) + 256 * (ByteOr0(uid, 5) + 256 * (ByteOr0(uid, 6) + 256 * ByteOr0(uid, 7)))))))
    ensures Text(uid, Is) != "" && (Text(uid, Is)[0] == '0' ==> Text(uid, Is) == "0")
    ensures forall i :: 0 <= i < |Text(uid, Is)| ==> IsDecimal(Text(uid, Is)[i])
  {
    var eight := uid[..if |uid| > 8 then 8 else |uid|];
    EightBytesLittleEndian(eight);
    assert forall i :: 0 <= i < 8 ==> ByteOr0(eight, i) == ByteOr0(uid, i);
    DecRoundTrip(LittleEndian(eight), 0);
    DecUnpadded(LittleEndian(eight));
  }

  /** The nibbles of five bytes that ZK/Codier writes, in order. */
  function Nibble(b0: nat, b1: nat, b2: nat, b3: nat, b4: nat, i: nat): nat
    requires i < 9
  {
    if i == 0 then b4 / 16 else if i == 1 then b4 % 16
    else if i == 2 then b3 / 16 else if i == 3 then b3 % 16
    else if i == 4 then b2 / 16
    else if i == 5 then b1 / 16 else if i == 6 then b1 % 16
    else if i == 7 then b0 / 16 else b0 % 16
  }

  lemma NineOfAt(b0: nat, b1: nat, b2: nat, b3: nat, b4: nat, i: nat)
    requires b0 < 256 && b1 < 256 && b2 < 256 && b3 < 256 && b4 < 256 && i < 9
    ensures Nibble(b0, b1, b2, b3, b4, i) < 16
    ensures DigitOf(NineOf(b4, b3, b2, b1, b0)[i]) == Nibble(b0, b1, b2, b3, b4, i)
  {
    DigitRoundTrip(Nibble(b0, b1, b2, b3, b4, i));
  }

  lemma {:induction false} TwoDigitsAt(hex: string, i: nat)
    requires i < |hex|
    ensures TwoDigitsEach(hex)[2 * i] == DigitChar(DigitOf(hex[i]) / 10)
    ensures TwoDigitsEach(hex)[2 * i + 1] == DigitChar(DigitOf(hex[i]) % 10)
  {
    if i < |hex| - 1 {
      TwoDigitsAt(hex[..|hex| - 1], i);
    }
  }

  /** Each of them is written as two decimal digits. */
  lemma ZkTextByPosition(uid: seq<bv8>, i: nat)
    requires |uid| >= 5 && i < 9
    ensures |Text(uid, ZkCodier)| == 18
    ensures var n := Nibble(uid[0] as nat, uid[1] as nat, uid[2] as nat, uid[3] as nat, uid[4] as nat, i);
      n < 16 && Text(uid, ZkCodier)[2 * i] == DigitChar(n / 10) && Text(uid, ZkCodier)[2 * i + 1] == DigitChar(n % 10)
  {
    var five := uid[..5];
    NineDigits(five);
    TwoDigitsAt(ZkDigits(five), i);
    NineOfAt(uid[0] as nat, uid[1] as nat, uid[2] as nat, uid[3] as nat, uid[4] as nat, i);
  }

  /** Which UIDs are too short for which form. */
  lemma NotAvailableExactlyWhen(uid: seq<bv8>, format: Format)
    ensures Text(uid, format) == "N/A" <==>
      uid == [] || (|uid| < 5 && format in {Hex10, Ik3Is, Ik2, ZkCodier}) || (|uid| < 4 && format == Hex8)
  {
    if uid != [] {
      PairsByPosition(uid, 0);
      DecUnpadded(LittleEndian(uid[..if |uid| > 8 then 8 else |uid|]));
      if |uid| >= 4 {
        Hex8IsReversedCompact(uid);
      }
      if |uid| >= 5 {
        Hex10IsReversedCompact(uid);
        DecimalFormsHaveThirteenDigits(uid, Ik3Is);
        DecimalFormsHaveThirteenDigits(uid, Ik2);
      }
    }
  }
}
