/** The binary-string helpers of bindings/python/rad_util.py: `int2bin` through a hexadecimal table,
    `bin2int`, and the ripple counter `binary_range`. */
module BinaryStrings {

  function Pow2(n: nat): (p: nat)
    ensures p >= 1
  {
    if n == 0 then 1 else 2 * Pow2(n - 1)
  }

  function Bit(b: nat): char {
    if b == 0 then '0' else '1'
  }

  /** The reference: the lowest `n` bits of `k`, most significant first. */
  ghost function Bits(k: nat, n: nat): (s: string)
    ensures |s| == n
  {
    if n == 0 then "" else Bits(k / 2, n - 1) + [Bit(k % 2)]
  }

  // ---------------------------------------------------------------- facts about the reference

  /** `k` without its lowest `b` bits. */
  ghost function Shift(k: nat, b: nat): nat
    decreases b
  {
    if b == 0 then k else Shift(k / 2, b - 1)
  }

  lemma {:induction false} BitsSplit(k: nat, m: nat, b: nat)
    requires b <= m
    ensures Bits(k, m) == Bits(Shift(k, b), m - b) + Bits(k, b)
    decreases b
  {
    if b == 0 {
      assert Bits(k, m) + "" == Bits(k, m);
    } else {
      BitsSplit(k / 2, m - 1, b - 1);
      var high, low, last := Bits(Shift(k, b), m - b), Bits(k / 2, b - 1), [Bit(k % 2)];
      assert high + low + last == high + (low + last);
    }
  }

  lemma {:induction false} ShiftFits(k: nat, m: nat, b: nat)
    requires b <= m
    ensures Shift(k, b) < Pow2(m - b) <==> k < Pow2(m)
    decreases b
  {
    if b > 0 { ShiftFits(k / 2, m - 1, b - 1); }
  }

  function Zeros(n: int): string {
    if n <= 0 then "" else Zeros(n - 1) + "0"
  }

  lemma {:induction false} BitsOfZero(n: nat)
    ensures Bits(0, n) == Zeros(n)
  {
    if n > 0 { BitsOfZero(n - 1); }
  }

  /** A number that fits has a one among its bits unless it is zero. */
  lemma {:induction false} OneInBits(k: nat, n: nat)
    requires k < Pow2(n)
    ensures '1' in Bits(k, n) <==> k > 0
  {
    if n > 0 { OneInBits(k / 2, n - 1); }
  }

  // ---------------------------------------------------------------- int2bin

  datatype Outcome = KeyError | ValueError | Ok(value: string)

  function HexDigit(d: nat): char
    requires d < 16
  {
    "0123456789abcdef"[d]
  }

  /** What follows "0x" in `hex(i)`. */
  function Hex(i: nat): string {
    if i < 16 then [HexDigit(i)] else Hex(i / 16) + [HexDigit(i % 16)]
  }

  /** The table from hexadecimal digits to bits. */
  function HexToBin(c: char): string {
    match c
    case '0' => "0000" case '1' => "0001" case '2' => "0010" case '3' => "0011"
    case '4' => "0100" case '5' => "0101" case '6' => "0110" case '7' => "0111"
    case '8' => "1000" case '9' => "1001" case 'a' => "1010" case 'b' => "1011"
    case 'c' => "1100" case 'd' => "1101" case 'e' => "1110" case 'f' => "1111"
    case _ => ""
  }

  function Expand(s: string): string {
    if s == "" then "" else Expand(s[..|s| - 1]) + HexToBin(s[|s| - 1])
  }

  /** Python's `s[:-n]` and `s[-n:]`. */
  function AllBut(s: string, n: int): string {
    if n > 0 then (if n < |s| then s[..|s| - n] else "") else if -n < |s| then s[..-n] else s
  }

  function LastOf(s: string, n: int): string {
    if n > 0 then (if n < |s| then s[|s| - n..] else s) else if -n < |s| then s[-n..] else ""
  }

  /** Truncating and padding the expansion to `n` characters. */
  function Fit(result: string, n: int): Outcome {
    if '1' in AllBut(result, n) then ValueError
    else Ok(Zeros(n - |LastOf(result, n)|) + LastOf(result, n))
  }

  /** Python's `hex`. */
  function PyHex(i: int): string {
    if i < 0 then "-0x" + Hex(-i) else "0x" + Hex(i)
  }

  predicate InTable(c: char) {
    HexToBin(c) != ""
  }

  function Int2Bin(i: int, n: int): Outcome {
    var digits := PyHex(i)[2..];
    if exists k :: 0 <= k < |digits| && !InTable(digits[k]) then KeyError else Fit(Expand(digits), n)
  }

  lemma {:induction false} HexInTable(i: nat)
    ensures forall k :: 0 <= k < |Hex(i)| ==> InTable(Hex(i)[k])
  {
    if i >= 16 { HexInTable(i / 16); }
    assert InTable(HexDigit(i % 16));
  }

  /** A negative number starts with a sign, so that "x" reaches the table; every other number is looked up in full. */
  lemma KeyErrorIffNegative(i: int, n: int)
    ensures Int2Bin(i, n).KeyError? <==> i < 0
    ensures i >= 0 ==> Int2Bin(i, n) == Fit(Expand(Hex(i)), n)
  {
    if i < 0 {
      assert PyHex(i)[2..][0] == 'x' && !InTable('x');
    } else {
      HexInTable(i);
      assert PyHex(i)[2..] == Hex(i);
    }
  }

  lemma FourBits(d: nat)
    ensures Bits(d, 4) == [Bit(d / 2 / 2 / 2 % 2), Bit(d / 2 / 2 % 2), Bit(d / 2 % 2), Bit(d % 2)]
  {
    var d1 := d / 2;
    var d2 := d1 / 2;
    var d3 := d2 / 2;
    assert Bits(d3, 1) == [Bit(d3 % 2)] by { assert Bits(d3 / 2, 0) == ""; }
    assert Bits(d2, 2) == [Bit(d3 % 2), Bit(d2 % 2)];
    assert Bits(d1, 3) == [Bit(d3 % 2), Bit(d2 % 2), Bit(d1 % 2)];
  }

  lemma TableIsBits(d: nat)
    requires d < 16
    ensures HexToBin(HexDigit(d)) == Bits(d, 4)
  {
    FourBits(d);
  }

  lemma NibbleOf(i: nat)
    ensures Bits(i, 4) == Bits(i % 16, 4)
  {
    var q, r := i / 16, i % 16;
    assert i % 2 == r % 2 && i / 2 == 8 * q + r / 2;
    assert i / 2 % 2 == r / 2 % 2 && i / 2 / 2 == 4 * q + r / 2 / 2;
    assert i / 2 / 2 % 2 == r / 2 / 2 % 2 && i / 2 / 2 / 2 == 2 * q + r / 2 / 2 / 2;
    assert i / 2 / 2 / 2 % 2 == r / 2 / 2 / 2 % 2;
    FourBits(i);
    FourBits(r);
  }

  lemma AppendNibble(i: nat, n: nat)
    ensures Bits(i, n + 4) == Bits(i / 16, n) + Bits(i, 4)
    ensures i / 16 < Pow2(n) ==> i < Pow2(n + 4)
  {
    BitsSplit(i, n + 4, 4);
    ShiftFits(i, n + 4, 4);
  }

  lemma ExpandLast(s: string, i: nat)
    ensures Expand(s + [HexDigit(i % 16)]) == Expand(s) + Bits(i, 4)
  {
    var c := HexDigit(i % 16);
    assert (s + [c])[..|s|] == s;
    TableIsBits(i % 16);
    NibbleOf(i);
  }

  /** One more hexadecimal digit is four more bits. */
  lemma HexStep(i: nat, m: nat) returns (nibble: string)
    requires i >= 16
    ensures Expand(Hex(i)) == Expand(Hex(i / 16)) + nibble
    ensures Bits(i, m + 4) == Bits(i / 16, m) + nibble
    ensures i / 16 < Pow2(m) ==> i < Pow2(m + 4)
  {
    nibble := Bits(i, 4);
    AppendNibble(i, m);
    ExpandLast(Hex(i / 16), i);
  }

  lemma HexDigitIsBits(i: nat)
    requires i < 16
    ensures Expand(Hex(i)) == Bits(i, 4) && i < Pow2(4)
  {
    var c := HexDigit(i);
    assert [c][..0] == "";
    assert Expand([c]) == Expand("") + HexToBin(c) == HexToBin(c);
    TableIsBits(i);
    assert Pow2(4) == 2 * Pow2(3) == 4 * Pow2(2);
  }

  /** The hexadecimal detour gives the bits, four per digit, and enough of them. */
  lemma {:induction false} ExpandIsBits(i: nat) returns (n: nat)
    ensures Expand(Hex(i)) == Bits(i, n) && i < Pow2(n)
  {
    if i < 16 {
      HexDigitIsBits(i);
      n := 4;
    } else {
      var m := ExpandIsBits(i / 16);
      var nibble := HexStep(i, m);
      n := m + 4;
    }
  }

  lemma FitTruncates(high: string, low: string)
    requires low != ""
    ensures Fit(high + low, |low|) == if '1' in high then ValueError else Ok(low)
  {
    var s := high + low;
    assert s[..|s| - |low|] == high && s[|s| - |low|..] == low;
    assert "" + low == low;
    if high == "" { assert s == low; }
  }

  lemma TruncatedBits(i: nat, m: nat, n: nat)
    requires 1 <= n <= m && i < Pow2(m)
    ensures Fit(Bits(i, m), n) == if i < Pow2(n) then Ok(Bits(i, n)) else ValueError
  {
    BitsSplit(i, m, n);
    ShiftFits(i, n, n);
    ShiftFits(i, m, n);
    OneInBits(Shift(i, n), m - n);
    FitTruncates(Bits(Shift(i, n), m - n), Bits(i, n));
  }

  lemma LeadingZeros(i: nat, m: nat, n: nat)
    requires m <= n && i < Pow2(m)
    ensures Bits(i, n) == Zeros(n - m) + Bits(i, m) && i < Pow2(n)
  {
    assert Shift(i, m) == 0 by { ShiftFits(i, m, m); }
    BitsSplit(i, n, m);
    BitsOfZero(n - m);
    assert i < Pow2(n) by { ShiftFits(i, n, m); }
  }

  lemma PaddedBits(i: nat, m: nat, n: nat)
    requires m <= n && 1 <= n && i < Pow2(m)
    ensures Fit(Bits(i, m), n) == Ok(Bits(i, n)) && i < Pow2(n)
  {
    var low := Bits(i, m);
    assert Fit(low, n) == Ok(Zeros(n - m) + low) by { assert low[0..] == low; }
    assert Bits(i, n) == Zeros(n - m) + low && i < Pow2(n) by { LeadingZeros(i, m, n); }
  }

  /** For a natural number and at least one bit, the result is the reference bits, and the call raises
      exactly when the number does not fit. */
  lemma Int2BinIsBits(i: nat, n: nat)
    requires n >= 1
    ensures Int2Bin(i, n) == if i < Pow2(n) then Ok(Bits(i, n)) else ValueError
  {
    KeyErrorIffNegative(i, n);
    var m := ExpandIsBits(i);
    if n < m { TruncatedBits(i, m, n); } else { PaddedBits(i, m, n); }
  }

  lemma FitDrops(high: string, low: string, n: int)
    requires n <= 0 && |high| <= -n && (low == "" || |high| == -n)
    ensures Fit(high + low, n) == if '1' in high then ValueError else Ok(low)
  {
    var s := high + low;
    assert AllBut(s, n) == high && LastOf(s, n) == low;
    assert "" + low == low;
  }

  lemma DroppedBits(i: nat, m: nat, left: nat, n: int)
    requires n <= 0 && i < Pow2(m) && left == if m + n < 0 then 0 else m + n
    ensures Fit(Bits(i, m), n) == if i < Pow2(left) then Ok(Bits(i, left)) else ValueError
  {
    var high, low := Bits(Shift(i, left), m - left), Bits(i, left);
    assert Bits(i, m) == high + low by { BitsSplit(i, m, left); }
    assert '1' in high <==> i >= Pow2(left) by {
      ShiftFits(i, left, left);
      ShiftFits(i, m, left);
      OneInBits(Shift(i, left), m - left);
    }
    FitDrops(high, low, n);
  }

  /** With a width of zero or less, Python's slices drop that many characters from the front instead; that is right as
      long as they are zeros. */
  lemma NoWidthIsBits(i: nat, n: int) returns (m: nat)
    requires n <= 0
    ensures i < Pow2(m) && Expand(Hex(i)) == Bits(i, m)
    ensures var left := if m + n < 0 then 0 else m + n;
            Int2Bin(i, n) == if i < Pow2(left) then Ok(Bits(i, left)) else ValueError
  {
    KeyErrorIffNegative(i, n);
    m := ExpandIsBits(i);
    DroppedBits(i, m, if m + n < 0 then 0 else m + n, n);
  }

  // ---------------------------------------------------------------- bin2int

  /** `int(s, 2)` on strings of zeros and ones. */
  function Bin2Int(s: string): nat {
    if s == "" then 0 else 2 * Bin2Int(s[..|s| - 1]) + if s[|s| - 1] == '1' then 1 else 0
  }

  lemma {:induction false} BitsValue(k: nat, n: nat)
    requires k < Pow2(n)
    ensures Bin2Int(Bits(k, n)) == k
  {
    if n > 0 {
      BitsValue(k / 2, n - 1);
      assert Bits(k, n)[..n - 1] == Bits(k / 2, n - 1);
    }
  }

  /** Whatever `int2bin` returns has `n` characters, all bits, and reads back as the number. */
  lemma RoundTrip(i: nat, n: nat)
    requires n >= 1
    ensures Int2Bin(i, n).ValueError? <==> i >= Pow2(n)
    ensures Int2Bin(i, n).Ok? ==> |Int2Bin(i, n).value| == n && Bin2Int(Int2Bin(i, n).value) == i
  {
    Int2BinIsBits(i, n);
    if i < Pow2(n) { BitsValue(i, n); }
  }

  // ---------------------------------------------------------------- binary_range

  ghost predicate AllBits(v: seq<char>) {
    forall i :: 0 <= i < |v| ==> v[i] == '0' || v[i] == '1'
  }

  /** The value of a little-endian counter. */
  ghost function Count(v: seq<char>): nat {
    if v == [] then 0 else (if v[0] == '1' then 1 else 0) + 2 * Count(v[1..])
  }

  function Reversed(v: seq<char>): string {
    if v == [] then "" else Reversed(v[1..]) + [v[0]]
  }

  lemma {:induction false} ReversedIsBits(v: seq<char>)
    requires AllBits(v)
    ensures Reversed(v) == Bits(Count(v), |v|) && Count(v) < Pow2(|v|)
  {
    if v != [] { ReversedIsBits(v[1..]); }
  }

  lemma {:induction false} CountUpdate(v: seq<char>, i: nat, c: char)
    requires i < |v|
    ensures Count(v[i := c]) + (if v[i] == '1' then Pow2(i) else 0) == Count(v) + if c == '1' then Pow2(i) else 0
  {
    if i == 0 {
      assert v[0 := c][1..] == v[1..];
    } else {
      assert v[i := c][1..] == v[1..][i - 1 := c];
      CountUpdate(v[1..], i - 1, c);
    }
  }

  lemma {:induction false} CountOfZeros(v: seq<char>)
    requires forall i :: 0 <= i < |v| ==> v[i] == '0'
    ensures Count(v) == 0
  {
    if v != [] { CountOfZeros(v[1..]); }
  }

  /** One ripple: the counter goes up by one, and a one in `carry` says that it wrapped. */
  method Ripple(bits: nat, v: array<char>) returns (carry: int)
    requires v.Length == bits && AllBits(v[..])
    modifies v
    ensures AllBits(v[..]) && (carry == 0 || carry == 1)
    ensures Count(v[..]) + carry * Pow2(bits) == old(Count(v[..])) + 1
  {
    var toggle := new int[bits + 1](i => if i == 0 then 1 else 0);
    var i := 0;
    while i < bits && toggle[i] == 1
      invariant 0 <= i <= bits && AllBits(v[..])
      invariant toggle[i] == 0 || toggle[i] == 1
      invariant forall j :: i < j <= bits ==> toggle[j] == 0
      invariant Count(v[..]) + (if toggle[i] == 1 then Pow2(i) else 0) == old(Count(v[..])) + 1
    {
      FlipCounts(v[..], i);
      ghost var flipped := v[..][i := if v[i] == '0' then '1' else '0'];
      if v[i] == '0' {
        v[i] := '1';
        toggle[i + 1] := 0;
      } else {
        v[i] := '0';
        toggle[i + 1] := 1;
      }
      assert v[..] == flipped;
      i := i + 1;
    }
    carry := toggle[bits];
    assert i < bits ==> carry == 0;
  }

  /** Flipping bit `i` adds its weight, or takes it away and leaves a carry of twice the weight. */
  lemma FlipCounts(v: seq<char>, i: nat)
    requires AllBits(v) && i < |v|
    ensures var flipped := v[i := if v[i] == '0' then '1' else '0'];
            && AllBits(flipped)
            && Count(flipped) + (if v[i] == '0' then 0 else Pow2(i + 1)) == Count(v) + Pow2(i)
  {
    CountUpdate(v, i, if v[i] == '0' then '1' else '0');
  }

  /** All numbers of the given width in order; for zero bits the loop is never entered. */
  method BinaryRange(bits: nat) returns (l: seq<string>)
    ensures |l| == if bits == 0 then 0 else Pow2(bits)
    ensures forall k :: 0 <= k < |l| ==> l[k] == Bits(k, bits)
    ensures bits >= 1 ==> forall k :: 0 <= k < |l| ==> Int2Bin(k, bits) == Ok(l[k])
  {
    l := [];
    var v := new char[bits](_ => '0');
    CountOfZeros(v[..]);
    var carry := if bits == 0 then 1 else 0;
    while carry != 1
      invariant AllBits(v[..]) && (carry == 0 || carry == 1)
      invariant forall k :: 0 <= k < |l| ==> l[k] == Bits(k, bits)
      invariant bits == 0 ==> l == [] && carry == 1
      invariant bits > 0 ==> Count(v[..]) + carry * Pow2(bits) == |l| <= Pow2(bits)
      decreases Pow2(bits) - |l|, 1 - carry
    {
      ReversedIsBits(v[..]);
      l := l + [Reversed(v[..])];
      carry := Ripple(bits, v);
      ReversedIsBits(v[..]);
    }
    if bits >= 1 {
      forall k | 0 <= k < |l| ensures Int2Bin(k, bits) == Ok(l[k]) { Int2BinIsBits(k, bits); }
    }
  }
}
