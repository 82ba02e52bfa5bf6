/** Base16 as used for chunk payloads: `bytes.hex()` produces the lowercase
    alphabet of section 8 of RFC 4648 ("0123456789abcdef"), two digits per
    byte, most significant nibble first; `bytes.fromhex` reads digits of
    either case back. */
module Hex {
  import opened Bytes
  import opened Results

  /** The lowercase digit for a nibble value. */
  function Digit(d: nat): (c: char)
    requires d < 16
  {
    if d < 10 then ('0' as int + d) as char else ('a' as int + d - 10) as char
  }

  function ByteDigits(b: byte): (r: string)
    ensures |r| == 2
  {
    [Digit(b / 16), Digit(b % 16)]
  }

  /** `data.hex()`. */
  function Encode(data: seq<byte>): (r: string)
    ensures |r| == 2 * |data|
  {
    if data == [] then "" else ByteDigits(data[0]) + Encode(data[1..])
  }

  /** The value of one hexadecimal digit, upper or lower case. */
  function DigitValue(c: char): (r: Option<nat>)
    ensures r.Some? ==> r.value < 16
  {
    if '0' <= c <= '9' then Some(c as int - '0' as int)
    else if 'a' <= c <= 'f' then Some(c as int - 'a' as int + 10)
    else if 'A' <= c <= 'F' then Some(c as int - 'A' as int + 10)
    else None
  }

  /** The characters Python counts as ASCII whitespace (`str.isspace` on
      ASCII): space, tab, newline, carriage return, vertical tab, form feed. */
  predicate IsSpace(c: char)
  {
    c == ' ' || c == '\t' || c == '\n' || c == '\r' || c as int == 0x0b || c as int == 0x0c
  }

  /** The characters of s other than ASCII whitespace. */
  function Unspaced(s: string): (r: string)
    ensures |r| <= |s|
    ensures forall i | 0 <= i < |r| :: !IsSpace(r[i])
  {
    if s == [] then [] else (if IsSpace(s[0]) then [] else [s[0]]) + Unspaced(s[1..])
  }

  /** `bytes.fromhex(s)`: ASCII whitespace before a digit pair is skipped,
      and None stands where Python raises ValueError (a digit without its
      partner, whitespace inside a pair, or a character that is neither
      whitespace nor a hexadecimal digit). */
  function Decode(s: string): (r: Option<seq<byte>>)
    ensures r.Some? ==> 2 * |r.value| == |Unspaced(s)|
  {
    if s == [] then Some([])
    else if IsSpace(s[0]) then Decode(s[1..])
    else if |s| == 1 then None
    else
      var hi, lo, rest := DigitValue(s[0]), DigitValue(s[1]), Decode(s[2..]);
      if hi.None? || lo.None? || rest.None? then None
      else
        assert s[1..][1..] == s[2..];
        Some([hi.value * 16 + lo.value] + rest.value)
  }

  /** Whitespace between digit pairs is ignored: "41 42\n" reads as the two
      bytes of "4142". */
  lemma DecodeSkipsSpaces()
    ensures Decode("41 42\n") == Some([0x41, 0x42])
    ensures Decode("41 42\n") == Decode("4142")
  {
    assert "41 42\n"[2..] == " 42\n";
    assert " 42\n"[1..] == "42\n";
    assert "42\n"[2..] == "\n";
    assert "\n"[1..] == "";
    assert Decode("\n") == Some([]);
    assert DigitValue('4') == Some(4) && DigitValue('2') == Some(2) && DigitValue('1') == Some(1);
    assert [0x42] + [] == [0x42];
    assert Decode("42\n") == Some([0x42]);
    assert Decode(" 42\n") == Some([0x42]);
    assert [0x41] + [0x42] == [0x41, 0x42];
    assert "4142"[2..] == "42";
    assert "42"[2..] == "";
  }

  /** Whitespace inside a digit pair, or a non-digit, makes the decoding fail. */
  lemma DecodeRejects()
    ensures Decode("4 1") == None
    ensures Decode("4g") == None
    ensures Decode("414") == None
  {
  }

  /** Every character that is not whitespace must be a hexadecimal digit
      for the decoding to succeed. */
  lemma {:induction false} DecodeOnlyDigits(s: string, i: int)
    requires 0 <= i < |s| && !IsSpace(s[i]) && DigitValue(s[i]).None?
    ensures Decode(s) == None
  {
    if IsSpace(s[0]) {
      DecodeOnlyDigits(s[1..], i - 1);
    } else if |s| > 1 && i >= 2 {
      DecodeOnlyDigits(s[2..], i - 2);
    }
  }

  lemma SplitByte(hi: nat, lo: nat)
    requires hi < 16 && lo < 16
    ensures (hi * 16 + lo) / 16 == hi && (hi * 16 + lo) % 16 == lo
  {
  }

  /** Decoding what `.hex()` produced gives back the same bytes. */
  lemma {:induction false} DecodeEncode(data: seq<byte>)
    ensures Decode(Encode(data)) == Some(data)
  {
    if data != [] {
      var b := data[0];
      var s := Encode(data);
      assert s == ByteDigits(b) + Encode(data[1..]);
      assert s[0] == Digit(b / 16) && s[1] == Digit(b % 16);
      assert s[2..] == Encode(data[1..]);
      DecodeEncode(data[1..]);
      assert (b / 16) * 16 + b % 16 == b;
      assert Decode(s) == Some([b] + data[1..]);
      assert [b] + data[1..] == data;
    }
  }

  predicate IsLowerDigit(c: char)
  {
    '0' <= c <= '9' || 'a' <= c <= 'f'
  }

  ghost predicate IsLowerHex(s: string)
  {
    |s| % 2 == 0 && forall i | 0 <= i < |s| :: IsLowerDigit(s[i])
  }

  /** The other direction: a lowercase digit string of even length decodes,
      and encoding the result reproduces the string exactly. */
  lemma {:induction false} EncodeDecode(s: string)
    requires IsLowerHex(s)
    ensures Decode(s).Some? && Encode(Decode(s).value) == s
  {
    if s != [] {
      var tail := s[2..];
      LowerHexTail(s);
      EncodeDecode(tail);
      LowerDigitRoundTrip(s[0]);
      LowerDigitRoundTrip(s[1]);
      var hi := DigitValue(s[0]).value;
      var lo := DigitValue(s[1]).value;
      var rest := Decode(tail).value;
      var b: byte := hi * 16 + lo;
      SplitByte(hi, lo);
      var d := [b] + rest;
      assert Decode(s) == Some(d);
      assert d[0] == b && d[1..] == rest;
      assert Encode(d) == ByteDigits(b) + Encode(rest);
      assert s == [s[0], s[1]] + tail;
    }
  }

  /** A lowercase digit reads as the value whose digit it is. */
  lemma LowerDigitRoundTrip(c: char)
    requires IsLowerDigit(c)
    ensures DigitValue(c).Some? && Digit(DigitValue(c).value) == c
  {
  }

  /** A lowercase digit string without its first two digits. */
  lemma LowerHexTail(s: string)
    requires IsLowerHex(s) && s != []
    ensures |s| >= 2 && IsLowerHex(s[2..]) && IsLowerDigit(s[0]) && IsLowerDigit(s[1])
  {
    var tail := s[2..];
    forall i | 0 <= i < |tail| ensures IsLowerDigit(tail[i]) {
      assert tail[i] == s[i + 2];
    }
  }

  /** Every character `.hex()` emits is a lowercase digit. */
  lemma {:induction false} EncodeIsLowerHex(data: seq<byte>)
    ensures IsLowerHex(Encode(data))
  {
    if data != [] {
      EncodeIsLowerHex(data[1..]);
      var s := Encode(data);
      assert s == ByteDigits(data[0]) + Encode(data[1..]);
      forall i | 0 <= i < |s| ensures IsLowerDigit(s[i]) {
        if i >= 2 {
          assert s[i] == Encode(data[1..])[i - 2];
        }
      }
    }
  }
}
