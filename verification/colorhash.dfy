/** `generateColorFromString` (src/utils/financeUtils.ts): a string hash
    folded over UTF-16 code units and rendered as `#` and six lower-case
    hex digits. Two models of the hash: `JsHash`, the loop as JavaScript
    evaluates it (int32 shifts, exact float additions), and `Hash`, the
    fold `h := 31 * h + unit` modulo 2^32 that it amounts to. */
module ColorHash {

  const TwoTo31: int := 0x8000_0000
  const TwoTo32: int := 0x1_0000_0000

  /** The UTF-16 code units of `s`, as `charCodeAt` returns them: a scalar
      value above 0xFFFF becomes a surrogate pair. */
  function Utf16(s: string): (r: seq<int>)
    ensures forall i :: 0 <= i < |r| ==> 0 <= r[i] < 0x1_0000
    ensures |s| <= |r| <= 2 * |s|
  {
    if |s| == 0 then []
    else
      var c := s[0] as int;
      (if c < 0x1_0000 then [c]
       else [0xD800 + (c - 0x1_0000) / 0x400, 0xDC00 + (c - 0x1_0000) % 0x400])
      + Utf16(s[1..])
  }

  /** JavaScript's ToInt32: `x` modulo 2^32, read as a signed 32-bit value. */
  function ToInt32(x: int): (r: int)
    ensures -TwoTo31 <= r < TwoTo31
    ensures r % TwoTo32 == x % TwoTo32
  {
    var m := x % TwoTo32;
    if m >= TwoTo31 then m - TwoTo32 else m
  }

  /** One iteration of `hash = str.charCodeAt(i) + ((hash << 5) - hash)`:
      the shift takes ToInt32 of `hash` and yields an int32, while the
      subtraction and the addition are exact (the values stay far below
      2^53, see `JsHash`). Modulo 2^32 the step is `31 * hash + unit`. */
  function JsStep(hash: int, unit: int): (r: int)
    ensures r % TwoTo32 == (31 * (hash % TwoTo32) + unit) % TwoTo32
  {
    JsStepMod(hash, unit);
    unit + (ToInt32(ToInt32(hash) * 32) - hash)
  }

  /** The JavaScript loop over the code units, from `hash = 0`. Its value
      is not reduced modulo 2^32, but grows by at most 2^31 + 2^16 per unit,
      so it stays an exactly representable double for strings of up to
      about four million code units. */
  function JsHash(units: seq<int>): (h: int)
    requires forall i :: 0 <= i < |units| ==> 0 <= units[i] < 0x1_0000
    ensures -|units| * (TwoTo31 + 0x1_0000) <= h <= |units| * (TwoTo31 + 0x1_0000)
    decreases |units|
  {
    if |units| == 0 then 0
    else JsStep(JsHash(units[..|units| - 1]), units[|units| - 1])
  }

  /** The reference hash: `h := 31 * h + unit` modulo 2^32, from 0. */
  function Hash(units: seq<int>): (h: int)
    ensures 0 <= h < TwoTo32
    decreases |units|
  {
    if |units| == 0 then 0
    else (31 * Hash(units[..|units| - 1]) + units[|units| - 1]) % TwoTo32
  }

  lemma ModOfMultipleShift(x: int, k: int)
    ensures (x + k * TwoTo32) % TwoTo32 == x % TwoTo32
  {
  }

  /** The shift-and-subtract of the JavaScript step agrees with
      `31 * h + unit` modulo 2^32. */
  lemma JsStepMod(h: int, unit: int)
    ensures (unit + (ToInt32(ToInt32(h) * 32) - h)) % TwoTo32 == (31 * (h % TwoTo32) + unit) % TwoTo32
  {
    var a := ToInt32(h);
    var b := ToInt32(a * 32);
    var ka := (a - h) / TwoTo32;
    var kb := (b - a * 32) / TwoTo32;
    assert a == h + ka * TwoTo32;
    assert b == a * 32 + kb * TwoTo32;
    assert unit + (b - h) == 31 * h + unit + (32 * ka + kb) * TwoTo32;
    ModOfMultipleShift(31 * h + unit, 32 * ka + kb);
    var q := h / TwoTo32;
    assert 31 * h + unit == 31 * (h % TwoTo32) + unit + (31 * q) * TwoTo32;
    ModOfMultipleShift(31 * (h % TwoTo32) + unit, 31 * q);
  }

  /** The loop as JavaScript runs it computes, modulo 2^32, the reference
      hash. */
  lemma {:induction false} JsHashIsHash(units: seq<int>)
    requires forall i :: 0 <= i < |units| ==> 0 <= units[i] < 0x1_0000
    ensures JsHash(units) % TwoTo32 == Hash(units)
    decreases |units|
  {
    if |units| > 0 {
      var n := |units| - 1;
      JsHashIsHash(units[..n]);
    }
  }

  /** 256 to the power `i`, the divisor of `>> (i * 8)`. */
  function Pow256(i: nat): (p: int)
    ensures p > 0
  {
    if i == 0 then 1 else 256 * Pow256(i - 1)
  }

  /** `(hash >> (i * 8)) & 0xFF` in JavaScript: an arithmetic shift of
      ToInt32(hash), which rounds towards minus infinity, then the low eight
      bits of the two's-complement result. For the bytes 0 to 2 this is
      byte `i` of `hash` reduced modulo 2^32. */
  function JsByte(hash: int, i: nat): (b: int)
    ensures 0 <= b < 256
    ensures i < 3 ==> b == Byte(hash % TwoTo32, i)
  {
    if i < 3 then ByteCongruent(ToInt32(hash), hash % TwoTo32, i); (ToInt32(hash) / Pow256(i)) % 256
    else (ToInt32(hash) / Pow256(i)) % 256
  }

  /** Byte `i` of a hash in [0, 2^32). */
  function Byte(h: int, i: nat): (b: int)
    ensures 0 <= b < 256
  {
    (h / Pow256(i)) % 256
  }

  /** Adding a multiple of 256 leaves the remainder modulo 256 alone. */
  lemma ShiftMod256(x: int, t: int)
    ensures (x + 256 * t) % 256 == x % 256
  {
  }

  /** Adding `t` multiples of `d` adds `t` to the quotient by `d`. */
  lemma ShiftDiv(x: int, d: int, t: int)
    requires d == 256 || d == 0x1_0000
    ensures (x + d * t) / d == x / d + t
  {
    if d == 256 {
      assert (x + 256 * t) / 256 == x / 256 + t;
    } else {
      assert (x + 0x1_0000 * t) / 0x1_0000 == x / 0x1_0000 + t;
    }
  }

  lemma Byte0Shift(b: int, k: int)
    ensures (b + k * TwoTo32) % 256 == b % 256
  {
    assert b + k * TwoTo32 == b + 256 * (k * 0x100_0000);
    ShiftMod256(b, k * 0x100_0000);
  }

  lemma Byte1Shift(b: int, k: int)
    ensures ((b + k * TwoTo32) / 256) % 256 == (b / 256) % 256
  {
    assert b + k * TwoTo32 == b + 256 * (k * 0x100_0000);
    ShiftDiv(b, 256, k * 0x100_0000);
    assert b / 256 + k * 0x100_0000 == b / 256 + 256 * (k * 0x1_0000);
    ShiftMod256(b / 256, k * 0x1_0000);
  }

  lemma Byte2Shift(b: int, k: int)
    ensures ((b + k * TwoTo32) / 0x1_0000) % 256 == (b / 0x1_0000) % 256
  {
    assert b + k * TwoTo32 == b + 0x1_0000 * (k * 0x1_0000);
    ShiftDiv(b, 0x1_0000, k * 0x1_0000);
    assert b / 0x1_0000 + k * 0x1_0000 == b / 0x1_0000 + 256 * (k * 256);
    ShiftMod256(b / 0x1_0000, k * 256);
  }

  /** Bytes 0 to 2 depend only on the value modulo 2^32. */
  lemma ByteCongruent(a: int, b: int, i: nat)
    requires i < 3
    requires a % TwoTo32 == b % TwoTo32
    ensures (a / Pow256(i)) % 256 == (b / Pow256(i)) % 256
  {
    var k := a / TwoTo32 - b / TwoTo32;
    assert a == b + k * TwoTo32;
    if i == 0 {
      assert Pow256(0) == 1;
      Byte0Shift(b, k);
    } else if i == 1 {
      assert Pow256(1) == 256;
      Byte1Shift(b, k);
    } else {
      assert Pow256(2) == 0x1_0000;
      Byte2Shift(b, k);
    }
  }

  /** The bytes JavaScript extracts from its unreduced hash are the bytes
      of the reference hash. */
  lemma JsBytesAreHashBytes(units: seq<int>, i: nat)
    requires forall k :: 0 <= k < |units| ==> 0 <= units[k] < 0x1_0000
    requires i < 3
    ensures JsByte(JsHash(units), i) == Byte(Hash(units), i)
  {
    JsHashIsHash(units);
  }

  /** The lower-case hex digit of `d`. */
  function HexDigit(d: int): char
    requires 0 <= d < 16
  {
    if d < 10 then ('0' as int + d) as char else ('a' as int + d - 10) as char
  }

  /** A lower-case hex digit. */
  predicate IsHexDigit(c: char) {
    '0' <= c <= '9' || 'a' <= c <= 'f'
  }

  /** The value of a lower-case hex digit; it inverts `HexDigit`. */
  function HexValue(c: char): (d: int)
    requires IsHexDigit(c)
    ensures 0 <= d < 16 && HexDigit(d) == c
  {
    if c <= '9' then c as int - '0' as int else c as int - 'a' as int + 10
  }

  /** `b` as exactly two lower-case hex digits. */
  function TwoHex(b: int): string
    requires 0 <= b < 256
  {
    [HexDigit(b / 16), HexDigit(b % 16)]
  }

  /** `Number.prototype.toString(16)` of a non-negative integer: the
      shortest lower-case hex numeral. */
  function ToHex(v: nat): (s: string)
    ensures 1 <= |s|
    ensures forall i :: 0 <= i < |s| ==> IsHexDigit(s[i])
    ensures v < 16 ==> s == [HexDigit(v)]
    ensures 16 <= v < 256 ==> s == [HexDigit(v / 16), HexDigit(v % 16)]
  {
    if v < 16 then [HexDigit(v)] else ToHex(v / 16) + [HexDigit(v % 16)]
  }

  /** `('00' + value.toString(16)).substr(-2)`: the last two characters
      of the padded numeral, which for a byte are exactly its two digits. */
  function Pad2(v: nat): (s: string)
    requires v < 256
    ensures s == TwoHex(v)
  {
    var t := "00" + ToHex(v);
    t[|t| - 2..]
  }

  /** `generateColorFromString`: `#` followed by bytes 0, 1 and 2 of the
      hash, each as two hex digits. The string is `#` and six lower-case hex
      digits whose pairs are the bytes of the reference hash, lowest byte
      first. */
  function ColorFromString(str: string): (color: string)
    ensures |color| == 7 && color[0] == '#'
    ensures forall i :: 1 <= i < 7 ==> IsHexDigit(color[i])
    ensures var h := Hash(Utf16(str));
            color[1..3] == TwoHex(Byte(h, 0))
            && color[3..5] == TwoHex(Byte(h, 1))
            && color[5..7] == TwoHex(Byte(h, 2))
  {
    var units := Utf16(str);
    var hash := JsHash(units);
    var h := Hash(units);
    JsHashIsHash(units);
    ColorLayout(Byte(h, 0), Byte(h, 1), Byte(h, 2));
    "#" + Pad2(JsByte(hash, 0)) + Pad2(JsByte(hash, 1)) + Pad2(JsByte(hash, 2))
  }

  /** `#` and three bytes in hex is seven characters, the pairs at
      1, 3 and 5 being the bytes' digits. */
  lemma ColorLayout(x: int, y: int, z: int)
    requires 0 <= x < 256 && 0 <= y < 256 && 0 <= z < 256
    ensures var c := "#" + TwoHex(x) + TwoHex(y) + TwoHex(z);
            && |c| == 7 && c[0] == '#'
            && (forall i :: 1 <= i < 7 ==> IsHexDigit(c[i]))
            && c[1..3] == TwoHex(x) && c[3..5] == TwoHex(y) && c[5..7] == TwoHex(z)
  {
  }

  /** Reads two hex digits back as a byte. */
  function ParseByte(s: string): int
    requires |s| == 2 && IsHexDigit(s[0]) && IsHexDigit(s[1])
  {
    16 * HexValue(s[0]) + HexValue(s[1])
  }

  /** Reading the colour back yields the three low bytes of the reference
      hash: the rendering loses nothing of them. */
  lemma ColorRoundTrip(str: string)
    ensures var color := ColorFromString(str);
            var h := Hash(Utf16(str));
            ParseByte(color[1..3]) == Byte(h, 0)
            && ParseByte(color[3..5]) == Byte(h, 1)
            && ParseByte(color[5..7]) == Byte(h, 2)
  {
    var h := Hash(Utf16(str));
    ParseTwoHex(Byte(h, 0));
    ParseTwoHex(Byte(h, 1));
    ParseTwoHex(Byte(h, 2));
  }

  lemma ParseTwoHex(b: int)
    requires 0 <= b < 256
    ensures ParseByte(TwoHex(b)) == b
  {
    var s := TwoHex(b);
    assert HexValue(s[0]) == b / 16 && HexValue(s[1]) == b % 16;
  }

  /** The empty string hashes to 0 and renders as black. */
  lemma EmptyStringIsBlack(s: string)
    requires |s| == 0
    ensures ColorFromString(s) == "#000000"
  {
    assert Utf16(s) == [];
    assert Hash([]) == 0;
    assert Byte(0, 0) == 0 && Byte(0, 1) == 0 && Byte(0, 2) == 0;
    assert TwoHex(0) == "00";
    BlackColor(ColorFromString(s));
  }

  lemma BlackColor(color: string)
    requires |color| == 7 && color[0] == '#'
    requires color[1..3] == "00" && color[3..5] == "00" && color[5..7] == "00"
    ensures color == "#000000"
  {
    assert color == color[..1] + color[1..3] + color[3..5] + color[5..7];
  }
}
