/** What the filename check accepts: exactly the UTF-8 encodings of Unicode scalar values (RFC 3629). */
module Unicode {
  import opened Fingerprint

  /** The code points that are not surrogates. */
  predicate Scalar(c: int) {
    0 <= c < 0xD800 || 0xE000 <= c <= 0x10_FFFF
  }

  function Byte(x: int): u8
    requires 0 <= x < 0x100
  {
    x as char
  }

  /** A continuation byte with the low six bits of `x`. */
  function Tail(x: nat): u8 {
    Byte(0x80 + x % 0x40)
  }

  /** The table of section 3 of RFC 3629. */
  function EncodeScalar(c: int): Bytes
    requires Scalar(c)
  {
    if c < 0x80 then [Byte(c)]
    else if c < 0x800 then [Byte(0xC0 + c / 0x40), Tail(c)]
    else if c < 0x1_0000 then [Byte(0xE0 + c / 0x1000), Tail(c / 0x40), Tail(c)]
    else [Byte(0xF0 + c / 0x4_0000), Tail(c / 0x1000), Tail(c / 0x40), Tail(c)]
  }

  lemma ShortLeads(c: int, rest: Bytes)
    requires 0 <= c < 0x800
    ensures Utf8Lead(EncodeScalar(c) + rest) == |EncodeScalar(c)|
  {
    var s := EncodeScalar(c) + rest;
    assert forall i :: 0 <= i < |EncodeScalar(c)| ==> s[i] == EncodeScalar(c)[i];
  }

  lemma ThreeLead(c: int, rest: Bytes)
    requires Scalar(c) && 0x800 <= c < 0x1_0000
    ensures Utf8Lead(EncodeScalar(c) + rest) == 3
  {
    var s := EncodeScalar(c) + rest;
    assert s[0] == EncodeScalar(c)[0] && s[1] == Tail(c / 0x40) && s[2] == Tail(c);
  }

  lemma FourLead(c: int, rest: Bytes)
    requires Scalar(c) && 0x1_0000 <= c
    ensures Utf8Lead(EncodeScalar(c) + rest) == 4
  {
    var s := EncodeScalar(c) + rest;
    assert s[0] == EncodeScalar(c)[0] && s[1] == Tail(c / 0x1000) && s[2] == Tail(c / 0x40) && s[3] == Tail(c);
  }

  /** The encoding of one scalar value is accepted, whatever follows. */
  lemma EncodedLeads(c: int, rest: Bytes)
    requires Scalar(c)
    ensures Utf8Lead(EncodeScalar(c) + rest) == |EncodeScalar(c)|
  {
    if c < 0x800 {
      ShortLeads(c, rest);
    } else if c < 0x1_0000 {
      ThreeLead(c, rest);
    } else {
      FourLead(c, rest);
    }
  }

  /** The bits that the continuation byte at `i` adds. */
  function Low(s: Bytes, i: nat): int
    requires i < |s|
  {
    s[i] as int - 0x80
  }

  lemma LowBits(high: nat, low: nat)
    requires low < 0x40
    ensures (0x40 * high + low) % 0x40 == low && (0x40 * high + low) / 0x40 == high
  {
  }

  lemma TwoBytes(s: Bytes) returns (c: int)
    requires Utf8Lead(s) == 2
    ensures Scalar(c) && s[..2] == EncodeScalar(c)
  {
    var high := s[0] as int - 0xC0;
    c := 0x40 * high + Low(s, 1);
    LowBits(high, Low(s, 1));
  }

  lemma ThreeBytes(s: Bytes) returns (c: int)
    requires Utf8Lead(s) == 3
    ensures Scalar(c) && s[..3] == EncodeScalar(c)
  {
    var high := s[0] as int - 0xE0;
    var mid := 0x40 * high + Low(s, 1);
    c := 0x40 * mid + Low(s, 2);
    LowBits(high, Low(s, 1));
    LowBits(mid, Low(s, 2));
    assert c / 0x1000 == mid / 0x40;
  }

  lemma FourBytes(s: Bytes) returns (c: int)
    requires Utf8Lead(s) == 4
    ensures Scalar(c) && s[..4] == EncodeScalar(c)
  {
    var high := s[0] as int - 0xF0;
    var upper := 0x40 * high + Low(s, 1);
    var mid := 0x40 * upper + Low(s, 2);
    c := 0x40 * mid + Low(s, 3);
    LowBits(high, Low(s, 1));
    LowBits(upper, Low(s, 2));
    LowBits(mid, Low(s, 3));
    assert c / 0x1000 == upper && c / 0x4_0000 == high;
  }

  /** What is accepted at the start of a name is the encoding of a scalar value. */
  lemma LeadEncodes(s: Bytes) returns (c: int)
    requires Utf8Lead(s) > 0
    ensures Scalar(c) && s[..Utf8Lead(s)] == EncodeScalar(c)
  {
    match Utf8Lead(s)
    case 1 => c := s[0] as int;
    case 2 => c := TwoBytes(s);
    case 3 => c := ThreeBytes(s);
    case _ => c := FourBytes(s);
  }

  ghost predicate Scalars(cs: seq<int>) {
    forall i :: 0 <= i < |cs| ==> Scalar(cs[i])
  }

  function EncodeScalars(cs: seq<int>): Bytes
    requires Scalars(cs)
  {
    if cs == [] then [] else EncodeScalar(cs[0]) + EncodeScalars(cs[1..])
  }

  lemma {:induction false} EncodedIsUtf8(cs: seq<int>)
    requires Scalars(cs)
    ensures Utf8(EncodeScalars(cs))
  {
    if cs == [] {
    } else {
      var head, rest := EncodeScalar(cs[0]), EncodeScalars(cs[1..]);
      EncodedLeads(cs[0], rest);
      EncodedIsUtf8(cs[1..]);
      assert (head + rest)[|head|..] == rest;
    }
  }

  lemma {:induction false} Utf8IsEncoded(s: Bytes) returns (cs: seq<int>)
    requires Utf8(s)
    ensures Scalars(cs) && s == EncodeScalars(cs)
  {
    if s == [] {
      cs := [];
    } else {
      var n := Utf8Lead(s);
      var c := LeadEncodes(s);
      var rest := Utf8IsEncoded(s[n..]);
      cs := [c] + rest;
      assert cs[1..] == rest && s == s[..n] + s[n..];
    }
  }

  /** A name is read as it is exactly if it encodes a sequence of scalar values; any other becomes "?". */
  lemma NamesAreUtf8(bytes: Bytes)
    ensures (exists cs :: Scalars(cs) && CStr(bytes) == EncodeScalars(cs)) ==> FilenameStr(bytes) == CStr(bytes)
    ensures !(exists cs :: Scalars(cs) && CStr(bytes) == EncodeScalars(cs)) ==> FilenameStr(bytes) == "?"
  {
    if cs :| Scalars(cs) && CStr(bytes) == EncodeScalars(cs) {
      EncodedIsUtf8(cs);
    } else if Utf8(CStr(bytes)) {
      var cs := Utf8IsEncoded(CStr(bytes));
      assert false;
    }
  }
}
