/** glib/sha1.go: a 20-byte SHA-1 value, its lowercase base16 text form
    (section 8 of RFC 4648) and a ref name paired with one. */
module ShaHex {
  import opened Base

  type byte = x: int | 0 <= x < 256

  /** Go's `Sha [20]byte`. */
  type Sha = s: seq<byte> | |s| == 20 witness seq(20, _ => 0)

  /** Go's `NamedRef`: a ref name and the object it points to. */
  datatype NamedRef = NamedRef(name: string, ref: Sha)

  predicate IsLowerHexDigit(c: char) {
    '0' <= c <= '9' || 'a' <= c <= 'f'
  }

  /** The value of a base16 digit as encoding/hex reads it (either case). */
  function HexValue(c: char): Option<nat> {
    if '0' <= c <= '9' then Some(c as int - '0' as int)
    else if 'a' <= c <= 'f' then Some(c as int - 'a' as int + 10)
    else if 'A' <= c <= 'F' then Some(c as int - 'A' as int + 10)
    else None
  }

  /** The lowercase base16 digit for a nibble. */
  function NibbleChar(k: nat): (c: char)
    requires k < 16
    ensures IsLowerHexDigit(c) && HexValue(c) == Some(k)
  {
    if k < 10 then (48 + k) as char else (87 + k) as char
  }

  /** hex.EncodeToString: two lowercase digits per byte, high nibble first. */
  function EncodeHex(b: seq<byte>): (r: string)
    ensures |r| == 2 * |b|
    ensures forall i :: 0 <= i < |r| ==> IsLowerHexDigit(r[i])
  {
    if |b| == 0 then ""
    else [NibbleChar(b[0] / 16), NibbleChar(b[0] % 16)] + EncodeHex(b[1..])
  }

  /** Sha.toHexString. */
  function ToHexString(s: Sha): (r: string)
    ensures |r| == 40
    ensures forall i :: 0 <= i < |r| ==> IsLowerHexDigit(r[i])
  {
    EncodeHex(s)
  }

  /** hex.DecodeString: fails on an odd length or on any character that is
      not a base16 digit; otherwise one byte per pair of digits. */
  function DecodeHex(s: string): (r: Result<seq<byte>>)
    ensures r.Err? <==> |s| % 2 == 1 || exists i :: 0 <= i < |s| && HexValue(s[i]).None?
    ensures r.Ok? ==> 2 * |r.value| == |s|
    ensures r.Ok? ==> forall i :: 0 <= i < |r.value| ==>
      r.value[i] == 16 * HexValue(s[2 * i]).value + HexValue(s[2 * i + 1]).value
  {
    if |s| == 0 then Ok([])
    else if |s| == 1 then (assert HexValue(s[0]).None? || |s| % 2 == 1; Err(HexDecode))
    else
      var hi, lo := HexValue(s[0]), HexValue(s[1]);
      var tail := DecodeHex(s[2..]);
      assert forall i :: 2 <= i < |s| ==> s[i] == s[2..][i - 2];
      if hi.None? || lo.None? then Err(HexDecode)
      else if tail.Err? then Err(HexDecode)
      else Ok([(16 * hi.value + lo.value) as byte] + tail.value)
  }

  /** Decoding undoes encoding. */
  lemma {:induction false} DecodeEncode(b: seq<byte>)
    ensures DecodeHex(EncodeHex(b)) == Ok(b)
  {
    if |b| > 0 {
      var e := EncodeHex(b);
      assert e[2..] == EncodeHex(b[1..]);
      DecodeEncode(b[1..]);
      assert HexValue(e[0]) == Some(b[0] / 16) && HexValue(e[1]) == Some(b[0] % 16);
      assert [b[0]] + b[1..] == b;
    }
  }

  /** ShaFromHexString as a value: decode, then insist on 20 bytes. */
  function ParseSha(s: string): (r: Result<Sha>)
    ensures r.Ok? <==> DecodeHex(s).Ok? && |s| == 40
    ensures r.Ok? ==> forall i :: 0 <= i < 20 ==>
      r.value[i] == 16 * HexValue(s[2 * i]).value + HexValue(s[2 * i + 1]).value
    ensures DecodeHex(s).Err? ==> r == Err(HexDecode)
    ensures DecodeHex(s).Ok? && |s| != 40 ==> r == Err(ShaLength)
  {
    match DecodeHex(s)
    case Err(_) => Err(HexDecode)
    case Ok(x) => if |x| != 20 then Err(ShaLength) else Ok(x)
  }

  /** The text form of every SHA parses back to it. */
  lemma ShaRoundTrip(s: Sha)
    ensures ParseSha(ToHexString(s)) == Ok(s)
  {
    DecodeEncode(s);
  }

  /** ShaFromHexString: decode, check the length, then copy the bytes one at
      a time into a fixed 20-byte array. */
  method ShaFromHexString(s: string) returns (r: Result<Sha>)
    ensures r == ParseSha(s)
  {
    var decoded := DecodeHex(s);
    if decoded.Err? {
      return Err(HexDecode);
    }
    var x := decoded.value;
    if |x| != 20 {
      return Err(ShaLength);
    }
    var result := new byte[20];
    for i := 0 to 20
      invariant result[..i] == x[..i]
    {
      result[i] := x[i];
    }
    assert result[..] == x;
    return Ok(result[..]);
  }
}
