/** MongoDB ObjectIds and their hex form, which every handler uses as the
    record key (`_id.toHexString()`, `req.user.id`, `x.toString()`). */
module ObjectIds {
  import opened Wrappers

  newtype byte = x: int | 0 <= x < 256

  /** Twelve bytes. */
  type ObjectId = s: seq<byte> | |s| == 12 witness [0, 0, 0, 0, 0, 0, 0, 0, 0, 0, 0, 0]

  /** The hex string of an id: the key under which the model files every record. */
  type Id = string

  predicate IsLowerHexDigit(c: char) {
    ('0' <= c <= '9') || ('a' <= c <= 'f')
  }

  function HexDigit(d: int): (c: char)
    requires 0 <= d < 16
    ensures IsLowerHexDigit(c) && DigitValue(c) == d
  {
    if d < 10 then '0' + d as char else 'a' + (d - 10) as char
  }

  function DigitValue(c: char): (d: int)
    requires IsLowerHexDigit(c)
  {
    if c <= '9' then c as int - '0' as int else c as int - 'a' as int + 10
  }

  /** `toHexString()`: two lower-case digits per byte, high nibble first. */
  function ToHexString(bytes: seq<byte>): (r: string)
    ensures |r| == 2 * |bytes|
    ensures forall i :: 0 <= i < |r| ==> IsLowerHexDigit(r[i])
  {
    if bytes == [] then ""
    else
      var b := bytes[0] as int;
      [HexDigit(b / 16), HexDigit(b % 16)] + ToHexString(bytes[1..])
  }

  /** Reads back a lower-case hex string of even length. */
  function ParseHex(s: string): (r: Option<seq<byte>>)
    ensures r.Some? ==> |s| == 2 * |r.value|
    decreases |s|
  {
    if s == [] then Some([])
    else if |s| == 1 || !IsLowerHexDigit(s[0]) || !IsLowerHexDigit(s[1]) then None
    else
      match ParseHex(s[2..])
      case None => None
      case Some(rest) => Some([(DigitValue(s[0]) * 16 + DigitValue(s[1])) as byte] + rest)
  }

  /** The hex form of an id reads back to the same bytes. */
  lemma {:induction false} ParseToHexString(bytes: seq<byte>)
    ensures ParseHex(ToHexString(bytes)) == Some(bytes)
  {
    if bytes != [] {
      var s := ToHexString(bytes);
      assert s[2..] == ToHexString(bytes[1..]);
      ParseToHexString(bytes[1..]);
      var b := bytes[0] as int;
      assert DigitValue(s[0]) * 16 + DigitValue(s[1]) == b;
      assert bytes == [bytes[0]] + bytes[1..];
    }
  }

  /** Two ids are equal exactly when their hex strings are, so comparing
      `x.toString()` values compares the ids. */
  lemma HexStringInjective(a: ObjectId, b: ObjectId)
    ensures ToHexString(a) == ToHexString(b) <==> a == b
  {
    if ToHexString(a) == ToHexString(b) {
      ParseToHexString(a);
      ParseToHexString(b);
    }
  }
}
