/**
 * bson ObjectIds as the CRUD layer uses them: `ObjectId.is_valid(s)` on a
 * string, `ObjectId(s)` to parse it, and `str(oid)` to print one. An ObjectId
 * is twelve bytes, read here as a number below 16^24; its string form is 24
 * hexadecimal characters.
 */
module ObjectIds {
  import opened Outcomes

  /** Number of hexadecimal characters in the string form of an ObjectId. */
  const HexLength: nat := 24

  function Pow16(n: nat): (r: nat)
    ensures r > 0
  {
    if n == 0 then 1 else 16 * Pow16(n - 1)
  }

  type ObjectId = n: nat | n < Pow16(HexLength)

  predicate IsHexDigit(c: char)
  {
    '0' <= c <= '9' || 'a' <= c <= 'f' || 'A' <= c <= 'F'
  }

  predicate IsLowerHexDigit(c: char)
  {
    '0' <= c <= '9' || 'a' <= c <= 'f'
  }

  function DigitValue(c: char): (v: nat)
    requires IsHexDigit(c)
    ensures v < 16
  {
    if '0' <= c <= '9' then c as nat - '0' as nat
    else if 'a' <= c <= 'f' then c as nat - 'a' as nat + 10
    else c as nat - 'A' as nat + 10
  }

  function DigitChar(v: nat): (c: char)
    requires v < 16
    ensures IsLowerHexDigit(c) && DigitValue(c) == v
  {
    if v < 10 then ('0' as nat + v) as char else ('a' as nat + v - 10) as char
  }

  predicate IsHex(s: string)
  {
    forall i :: 0 <= i < |s| ==> IsHexDigit(s[i])
  }

  predicate IsLowerHex(s: string)
  {
    forall i :: 0 <= i < |s| ==> IsLowerHexDigit(s[i])
  }

  /** `ObjectId.is_valid(s)` for a string `s`: exactly 24 hexadecimal characters. */
  predicate IsValid(s: string)
  {
    |s| == HexLength && IsHex(s)
  }

  /** The number a string of hexadecimal digits denotes, most significant first. */
  function HexValue(s: string): (v: nat)
    requires IsHex(s)
    ensures v < Pow16(|s|)
  {
    if s == [] then 0 else HexValue(s[..|s| - 1]) * 16 + DigitValue(s[|s| - 1])
  }

  /** `n` written with exactly `width` lower-case hexadecimal digits. */
  function ToHex(n: nat, width: nat): (s: string)
    requires n < Pow16(width)
    ensures |s| == width && IsLowerHex(s)
  {
    if width == 0 then [] else ToHex(n / 16, width - 1) + [DigitChar(n % 16)]
  }

  /** `ObjectId(s)`: the id a string names, or None where bson raises InvalidId. */
  function Parse(s: string): (r: Option<ObjectId>)
    ensures r.Some? <==> IsValid(s)
  {
    if IsValid(s) then Some(HexValue(s)) else None
  }

  /** `str(oid)`: 24 lower-case hexadecimal characters. */
  function ToString(id: ObjectId): (s: string)
    ensures IsValid(s) && IsLowerHex(s)
  {
    ToHex(id, HexLength)
  }

  lemma {:induction false} HexValueOfToHex(n: nat, width: nat)
    requires n < Pow16(width)
    ensures HexValue(ToHex(n, width)) == n
  {
    if width > 0 {
      var s := ToHex(n, width);
      assert s[..|s| - 1] == ToHex(n / 16, width - 1);
      HexValueOfToHex(n / 16, width - 1);
    }
  }

  lemma {:induction false} ToHexOfHexValue(s: string)
    requires IsLowerHex(s)
    ensures ToHex(HexValue(s), |s|) == s
  {
    if s != [] {
      var init, last := s[..|s| - 1], s[|s| - 1];
      var v := HexValue(s);
      assert v == HexValue(init) * 16 + DigitValue(last);
      assert v / 16 == HexValue(init) && v % 16 == DigitValue(last);
      ToHexOfHexValue(init);
      assert DigitChar(DigitValue(last)) == last;
      assert s == init + [last];
    }
  }

  /** Printing an id and parsing it back gives the same id. */
  lemma ParseToString(id: ObjectId)
    ensures Parse(ToString(id)) == Some(id)
  {
    HexValueOfToHex(id, HexLength);
  }

  /** A valid lower-case id string is exactly the print of the id it parses to. */
  lemma ToStringParse(s: string)
    requires IsValid(s) && IsLowerHex(s)
    ensures Parse(s).Some? && ToString(Parse(s).value) == s
  {
    ToHexOfHexValue(s);
  }
}
