/** The Latin-1 (ISO/IEC 8859-1) codec that carries the uploaded file inside a
    JSON string: `bytes.decode('latin1')` maps byte b to the character with
    code point b, and `str.encode('latin1')` maps back, failing on any
    character above U+00FF. */
module Latin1 {
  import opened Bytes
  import opened Results

  /** `data.decode('latin1')`: never fails. */
  function Decode(data: seq<byte>): (s: string)
    ensures |s| == |data|
    ensures forall i | 0 <= i < |data| :: s[i] as int == data[i]
  {
    seq(|data|, i requires 0 <= i < |data| => data[i] as char)
  }

  /** `s.encode('latin1')`: None where Python raises UnicodeEncodeError. */
  function Encode(s: string): (r: Option<seq<byte>>)
    ensures r.Some? <==> forall i | 0 <= i < |s| :: s[i] as int < 256
    ensures r.Some? ==> |r.value| == |s| && forall i | 0 <= i < |s| :: r.value[i] == s[i] as int
  {
    if forall i | 0 <= i < |s| :: s[i] as int < 256
    then Some(seq(|s|, i requires 0 <= i < |s| => s[i] as int))
    else None
  }

  /** The server recovers exactly the bytes the client decoded. */
  lemma EncodeDecode(data: seq<byte>)
    ensures Encode(Decode(data)) == Some(data)
  {
    var r := Encode(Decode(data));
    assert r.Some?;
    assert r.value == data;
  }

  /** And a string the server can encode is the decoding of what it produced. */
  lemma DecodeEncode(s: string)
    requires Encode(s).Some?
    ensures Decode(Encode(s).value) == s
  {
  }
}
