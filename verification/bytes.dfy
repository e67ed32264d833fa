/** Byte-level vocabulary of the balance-board wire protocol: octets, big-endian
    16-bit words, Python-style slicing, the driver's habit of reading a byte's two
    hex digits as a decimal number, and the exceptions malformed input raises. */
module Bytes {

  /** One octet of a Bluetooth report or command. */
  type byte = b: int | 0 <= b < 256

  datatype Option<T> = None | Some(value: T)

  /** The exceptions the driver raises on input it cannot decode. */
  datatype Fault =
    | MissingByte     // int('', 16): the slice that should hold a byte is empty (ValueError)
    | NonDecimalType  // int('3a'): a report-type byte with a hex digit above 9 (ValueError)
    | ZeroDivision    // calc_mass with equal 17 kg and 34 kg references (ZeroDivisionError)

  /** A value, or the exception raised while computing it. */
  datatype Result<T> = Ok(value: T) | Fail(fault: Fault)

  /** The big-endian word `(hi << 8) | lo`. */
  function Word(hi: byte, lo: byte): (w: int)
    ensures 0 <= w < 0x1_0000
  {
    hi * 256 + lo
  }

  /** The two bytes of a 16-bit word, high byte first. */
  function WordBytes(w: int): (b: seq<byte>)
    requires 0 <= w < 0x1_0000
    ensures |b| == 2 && Word(b[0], b[1]) == w
  {
    [w / 256, w % 256]
  }

  /** Splitting a word gives back the two bytes it was made from, so a word and
      its byte pair determine each other. */
  lemma {:induction false} WordRoundTrip(hi: byte, lo: byte)
    ensures WordBytes(Word(hi, lo)) == [hi, lo]
  {
    var w := Word(hi, lo);
    assert w / 256 == hi && w % 256 == lo by {
      assert w == hi * 256 + lo && 0 <= lo < 256;
    }
  }

  /** Python's `s[lo:hi]` for `lo <= hi`: both ends are clamped to the length of `s`,
      so a slice past the end is short or empty rather than an error. */
  function Slice<T>(s: seq<T>, lo: nat, hi: nat): (r: seq<T>)
    requires lo <= hi
    ensures |r| == if hi <= |s| then hi - lo else if lo <= |s| then |s| - lo else 0
    ensures forall k :: 0 <= k < |r| ==> r[k] == s[lo + k]
  {
    if |s| <= lo then [] else if |s| <= hi then s[lo..] else s[lo..hi]
  }

  /** `bytes.fromhex(str(n))` for a two-digit decimal constant: its tens and units
      digits become the two hex digits of one byte. The driver spells only the
      constants 11, 12, 16, 17 and 32 this way; for n below 10, `str(n)` has a single
      digit and would shift the hex string, so this function does not model it. It
      also serves as the reference for reading a report type, where every n below
      100 matters. */
  function DecimalAsHex(n: nat): (b: byte)
    requires n < 100
    ensures b / 16 == n / 10 && b % 16 == n % 10
  {
    16 * (n / 10) + n % 10
  }

  /** `int(b.hex())`: the two hex digits of `b` read as a decimal number. Python
      raises ValueError when either digit is a-f; that case is None here. */
  function HexAsDecimal(b: byte): (r: Option<nat>)
    ensures r.Some? <==> b / 16 < 10 && b % 16 < 10
    ensures r.Some? ==> r.value < 100
  {
    if b / 16 < 10 && b % 16 < 10 then Some(10 * (b / 16) + b % 16) else None
  }

  /** Reading a byte's hex digits as decimal undoes writing a decimal constant as
      hex digits, in both directions: the two readings are inverse on [0, 100). */
  lemma {:induction false} HexDecimalInverse(b: byte, n: nat)
    requires n < 100
    ensures HexAsDecimal(b) == Some(n) <==> b == DecimalAsHex(n)
  {
    if b == DecimalAsHex(n) {
      assert b / 16 == n / 10 && b % 16 == n % 10;
    }
    if HexAsDecimal(b) == Some(n) {
      assert 10 * (b / 16) + b % 16 == n;
      assert n / 10 == b / 16 && n % 10 == b % 16;
    }
  }

  /** The report type of a received frame, `int(data.hex()[2:4])`: the second
      byte's hex digits read as decimal. A frame of fewer than two bytes leaves
      an empty string to convert, which raises. */
  function ReportType(frame: seq<byte>): (r: Result<nat>)
    ensures r.Ok? <==> |frame| >= 2 && frame[1] / 16 < 10 && frame[1] % 16 < 10
    ensures r.Fail? ==> r.fault == (if |frame| < 2 then MissingByte else NonDecimalType)
  {
    if |frame| < 2 then Fail(MissingByte)
    else match HexAsDecimal(frame[1])
      case None => Fail(NonDecimalType)
      case Some(t) => Ok(t)
  }

  /** A frame has report type `t` exactly when its second byte spells `t` in hex
      digits: type 20 is byte 0x20, type 32 is byte 0x32. */
  lemma {:induction false} ReportTypeIs(frame: seq<byte>, t: nat)
    requires t < 100
    ensures ReportType(frame) == Ok(t) <==> |frame| >= 2 && frame[1] == DecimalAsHex(t)
  {
    if |frame| >= 2 {
      HexDecimalInverse(frame[1], t);
    }
  }
}
