/**
 * MongoDB ObjectIDs: twelve bytes, written as 24 hexadecimal digits.
 * `ObjectIdFromHex` is the driver's `primitive.ObjectIDFromHex`, which every
 * handler uses to validate an id taken from a URL or a request body; `Hex` is
 * `ObjectID.Hex()`, which always writes lower-case digits.
 */
module ObjectIds {
  import opened Wrappers

  newtype Byte = x: int | 0 <= x < 256

  datatype ObjectId = ObjectId(bytes: seq<Byte>)

  const IdBytes: nat := 12
  const HexLength: nat := 24

  predicate IsHexDigit(c: char) {
    ('0' <= c <= '9') || ('a' <= c <= 'f') || ('A' <= c <= 'F')
  }

  predicate AllHex(s: string) {
    forall i :: 0 <= i < |s| ==> IsHexDigit(s[i])
  }

  /** What the driver accepts: exactly 24 characters, each a hex digit of either case. */
  predicate IsHexId(s: string) {
    |s| == HexLength && AllHex(s)
  }

  function HexDigitValue(c: char): (v: int)
    requires IsHexDigit(c)
    ensures 0 <= v < 16
  {
    if '0' <= c <= '9' then c as int - '0' as int
    else if 'a' <= c <= 'f' then c as int - 'a' as int + 10
    else c as int - 'A' as int + 10
  }

  /** The lower-case digit for a value below 16. */
  function HexDigit(v: int): (c: char)
    requires 0 <= v < 16
    ensures IsHexDigit(c) && HexDigitValue(c) == v
    ensures !('A' <= c <= 'F')
  {
    if v < 10 then ('0' as int + v) as char else ('a' as int + v - 10) as char
  }

  /** Maps an upper-case hex letter to lower case and leaves every other character alone. */
  function LowerHexDigit(c: char): (d: char)
    ensures IsHexDigit(c) ==> IsHexDigit(d) && HexDigitValue(d) == HexDigitValue(c) && !('A' <= d <= 'F')
  {
    if 'A' <= c <= 'F' then (c as int - 'A' as int + 'a' as int) as char else c
  }

  /** The string with its hex letters `A`-`F` lowered; every other character is kept. */
  function LowerHex(s: string): (t: string)
    ensures |t| == |s|
    ensures forall i :: 0 <= i < |s| ==> t[i] == LowerHexDigit(s[i])
  {
    seq(|s|, i requires 0 <= i < |s| => LowerHexDigit(s[i]))
  }

  /** The byte a pair of hex digits stands for, high digit first. */
  function ByteOf(hi: char, lo: char): (b: Byte)
    requires IsHexDigit(hi) && IsHexDigit(lo)
    ensures b as int / 16 == HexDigitValue(hi) && b as int % 16 == HexDigitValue(lo)
  {
    (16 * HexDigitValue(hi) + HexDigitValue(lo)) as Byte
  }

  /**
   * `hex.Decode`: each pair of digits becomes one byte, high digit first; any
   * character that is not a hex digit makes the whole decoding fail.
   */
  function DecodeHex(s: string): (r: Option<seq<Byte>>)
    requires |s| % 2 == 0
    ensures r.Some? <==> AllHex(s)
    ensures r.Some? ==> |r.value| == |s| / 2
    ensures r.Some? ==> forall i :: 0 <= i < |r.value| ==>
              r.value[i] as int == 16 * HexDigitValue(s[2 * i]) + HexDigitValue(s[2 * i + 1])
  {
    if AllHex(s) then Some(seq(|s| / 2, i requires 0 <= i < |s| / 2 => ByteOf(s[2 * i], s[2 * i + 1])))
    else None
  }

  /** `primitive.ObjectIDFromHex`. */
  function ObjectIdFromHex(s: string): (r: Option<ObjectId>)
    ensures r.Some? <==> IsHexId(s)
    ensures r.Some? ==> |r.value.bytes| == IdBytes
  {
    if |s| != HexLength then None
    else
      match DecodeHex(s)
      case None => None
      case Some(bytes) => Some(ObjectId(bytes))
  }

  /** The digit at position `i` of the lower-case hexadecimal text of `bs`. */
  function HexChar(bs: seq<Byte>, i: int): char
    requires 0 <= i < 2 * |bs|
  {
    if i % 2 == 0 then HexDigit(bs[i / 2] as int / 16) else HexDigit(bs[i / 2] as int % 16)
  }

  function HexBytes(bs: seq<Byte>): (s: string)
    ensures |s| == 2 * |bs|
    ensures AllHex(s)
  {
    seq(2 * |bs|, i requires 0 <= i < 2 * |bs| => HexChar(bs, i))
  }

  /** `ObjectID.Hex()`: the 24 lower-case digits of an id. */
  function Hex(id: ObjectId): string {
    HexBytes(id.bytes)
  }

  lemma DecodeHexBytes(bs: seq<Byte>)
    ensures DecodeHex(HexBytes(bs)) == Some(bs)
  {
    var s := HexBytes(bs);
    var r := DecodeHex(s).value;
    forall i | 0 <= i < |bs|
      ensures r[i] == bs[i]
    {
      assert (2 * i) / 2 == i && (2 * i) % 2 == 0;
      assert (2 * i + 1) / 2 == i && (2 * i + 1) % 2 == 1;
      assert s[2 * i] == HexDigit(bs[i] as int / 16);
      assert s[2 * i + 1] == HexDigit(bs[i] as int % 16);
    }
    assert (2 * |bs|) / 2 == |bs|;
    assert r == bs;
  }

  /** Parsing what `Hex` prints gives back the id. */
  lemma HexRoundTrip(id: ObjectId)
    requires |id.bytes| == IdBytes
    ensures IsHexId(Hex(id))
    ensures ObjectIdFromHex(Hex(id)) == Some(id)
  {
    DecodeHexBytes(id.bytes);
  }

  /** The lower-case digit of a hex digit's value is the digit in lower case. */
  lemma HexDigitOfValue(c: char)
    requires IsHexDigit(c)
    ensures HexDigit(HexDigitValue(c)) == LowerHexDigit(c)
  {
  }

  lemma HexBytesOfDecode(s: string)
    requires |s| % 2 == 0 && AllHex(s)
    ensures HexBytes(DecodeHex(s).value) == LowerHex(s)
  {
    var bs := DecodeHex(s).value;
    var t := HexBytes(bs);
    forall j | 0 <= j < |s|
      ensures t[j] == LowerHexDigit(s[j])
    {
      var i := j / 2;
      assert 2 * i == j || 2 * i + 1 == j;
      assert bs[i] == ByteOf(s[2 * i], s[2 * i + 1]);
      HexDigitOfValue(s[j]);
    }
  }

  /**
   * The driver is case-insensitive: an accepted string denotes the id whose
   * canonical spelling is the string in lower case.
   */
  lemma HexOfParsed(s: string)
    requires IsHexId(s)
    ensures Hex(ObjectIdFromHex(s).value) == LowerHex(s)
  {
    HexBytesOfDecode(s);
  }

  /** Upper- and lower-case spellings of an id parse alike: the same id, or both fail. */
  lemma ObjectIdFromHexIgnoresCase(s: string)
    ensures ObjectIdFromHex(LowerHex(s)) == ObjectIdFromHex(s)
  {
    var t := LowerHex(s);
    if IsHexId(s) {
      assert IsHexId(t);
      var a, b := DecodeHex(s).value, DecodeHex(t).value;
      forall i | 0 <= i < |a|
        ensures a[i] == b[i]
      {
        assert a[i] == ByteOf(s[2 * i], s[2 * i + 1]);
        assert b[i] == ByteOf(t[2 * i], t[2 * i + 1]);
      }
      assert a == b;
    } else if |s| == HexLength {
      var i :| 0 <= i < |s| && !IsHexDigit(s[i]);
      assert !IsHexDigit(t[i]);
    }
  }
}
