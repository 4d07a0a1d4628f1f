/**
 * Basic-auth headers (pkg/util/encoding.go). Strings are byte sequences. Base64 is the standard encoding of
 * section 4 of RFC 4648, and credentials are a user and a password around a colon as in section 2 of RFC 7617.
 */
module BasicAuth {
  import opened Prelude

  type Bytes = seq<bv8>

  // ---------------------------------------------------------------- base64

  const Pad: bv8 := 61

  /** The character of a six-bit value. */
  function Digit(v: bv8): bv8
    requires v < 64
  {
    if v < 26 then 65 + v
    else if v < 52 then 97 + (v - 26)
    else if v < 62 then 48 + (v - 52)
    else if v == 62 then 43 else 47
  }

  function Value(c: bv8): (v: Option<bv8>)
    ensures v.Some? ==> v.value < 64
  {
    if 65 <= c <= 90 then Some(c - 65)
    else if 97 <= c <= 122 then Some(c - 97 + 26)
    else if 48 <= c <= 57 then Some(c - 48 + 52)
    else if c == 43 then Some(62)
    else if c == 47 then Some(63)
    else None
  }

  lemma DigitValue(v: bv8)
    requires v < 64
    ensures Value(Digit(v)) == Some(v) && Digit(v) != Pad && Digit(v) != 10 && Digit(v) != 13 && Digit(v) != 32
  {
  }

  // The four six-bit values of three bytes.
  function Sextet0(a: bv8): (v: bv8) ensures v < 64 { a >> 2 }
  function Sextet1(a: bv8, b: bv8): (v: bv8) ensures v < 64 { ((a & 3) << 4) | (b >> 4) }
  function Sextet2(b: bv8, c: bv8): (v: bv8) ensures v < 64 { ((b & 15) << 2) | (c >> 6) }
  function Sextet3(c: bv8): (v: bv8) ensures v < 64 { c & 63 }

  // The three bytes of four six-bit values.
  function Octet0(p: bv8, q: bv8): bv8 { (p << 2) | (q >> 4) }
  function Octet1(q: bv8, r: bv8): bv8 { (q << 4) | (r >> 2) }
  function Octet2(r: bv8, t: bv8): bv8 { (r << 6) | t }

  lemma SextetsAndOctets(a: bv8, b: bv8, c: bv8)
    ensures Octet0(Sextet0(a), Sextet1(a, b)) == a
    ensures Octet1(Sextet1(a, b), Sextet2(b, c)) == b
    ensures Octet2(Sextet2(b, c), Sextet3(c)) == c
  {
  }

  /** Three bytes as four characters, the last group padded. */
  function Encode(s: Bytes): Bytes {
    if s == [] then []
    else if |s| == 1 then [Digit(Sextet0(s[0])), Digit(Sextet1(s[0], 0)), Pad, Pad]
    else if |s| == 2 then [Digit(Sextet0(s[0])), Digit(Sextet1(s[0], s[1])), Digit(Sextet2(s[1], 0)), Pad]
    else
      [Digit(Sextet0(s[0])), Digit(Sextet1(s[0], s[1])), Digit(Sextet2(s[1], s[2])), Digit(Sextet3(s[2]))] + Encode(s[3..])
  }

  // Table 1 of RFC 4648: the characters of 0 to 63, in order, "ABC...Zabc...z0123456789+/".
  lemma AlphabetFrom0()
    ensures Encode([0x00, 0x10, 0x83]) == [65, 66, 67, 68]
    ensures Encode([0x10, 0x51, 0x87]) == [69, 70, 71, 72]
    ensures Encode([0x20, 0x92, 0x8B]) == [73, 74, 75, 76]
    ensures Encode([0x30, 0xD3, 0x8F]) == [77, 78, 79, 80]
  {
  }

  lemma AlphabetFrom16()
    ensures Encode([0x41, 0x14, 0x93]) == [81, 82, 83, 84]
    ensures Encode([0x51, 0x55, 0x97]) == [85, 86, 87, 88]
    ensures Encode([0x61, 0x96, 0x9B]) == [89, 90, 97, 98]
    ensures Encode([0x71, 0xD7, 0x9F]) == [99, 100, 101, 102]
  {
  }

  lemma AlphabetFrom32()
    ensures Encode([0x82, 0x18, 0xA3]) == [103, 104, 105, 106]
    ensures Encode([0x92, 0x59, 0xA7]) == [107, 108, 109, 110]
    ensures Encode([0xA2, 0x9A, 0xAB]) == [111, 112, 113, 114]
    ensures Encode([0xB2, 0xDB, 0xAF]) == [115, 116, 117, 118]
  {
  }

  lemma AlphabetFrom48()
    ensures Encode([0xC3, 0x1C, 0xB3]) == [119, 120, 121, 122]
    ensures Encode([0xD3, 0x5D, 0xB7]) == [48, 49, 50, 51]
    ensures Encode([0xE3, 0x9E, 0xBB]) == [52, 53, 54, 55]
    ensures Encode([0xF3, 0xDF, 0xBF]) == [56, 57, 43, 47]
  {
  }

  /** Three bytes as one number of 24 bits are the four values as one number, the first in the highest six bits. */
  lemma SameBits(a: bv8, b: bv8, c: bv8)
    ensures var p, q, r, t := Sextet0(a), Sextet1(a, b), Sextet2(b, c), Sextet3(c);
            ((a as bv24) << 16) | ((b as bv24) << 8) | (c as bv24)
            == ((p as bv24) << 18) | ((q as bv24) << 12) | ((r as bv24) << 6) | (t as bv24)
  {
  }

  /** Full groups are encoded one by one, and the last bytes are filled up with zeros and their characters with padding. */
  lemma EncodesByGroups(a: bv8, b: bv8, c: bv8, rest: Bytes)
    ensures Encode([a, b, c] + rest) == Encode([a, b, c]) + Encode(rest) && |Encode([a, b, c])| == 4
    ensures Encode([a, b]) == Encode([a, b, 0])[..3] + [61]
    ensures Encode([a]) == Encode([a, 0, 0])[..2] + [61, 61]
  {
    assert ([a, b, c] + rest)[3..] == rest && [a, b, c][3..] == [];
  }

  /** Line breaks in encoded text are passed over. */
  function DropBreaks(s: Bytes): Bytes {
    if s == [] then []
    else if s[0] == 10 || s[0] == 13 then DropBreaks(s[1..])
    else [s[0]] + DropBreaks(s[1..])
  }

  /** The decoder: full groups of four, padding only in the last; unused low bits are not looked at. */
  function DecodeGroups(s: Bytes): Option<Bytes> {
    if s == [] then Some([])
    else if |s| < 4 then None
    else
      var p, q, r, t := Value(s[0]), Value(s[1]), Value(s[2]), Value(s[3]);
      if p.None? || q.None? then None
      else if s[2] == Pad then
        if s[3] == Pad && |s| == 4 then Some([Octet0(p.value, q.value)]) else None
      else if r.None? then None
      else if s[3] == Pad then
        if |s| == 4 then Some([Octet0(p.value, q.value), Octet1(q.value, r.value)]) else None
      else if t.None? then None
      else
        match DecodeGroups(s[4..])
        case None => None
        case Some(rest) => Some([Octet0(p.value, q.value), Octet1(q.value, r.value), Octet2(r.value, t.value)] + rest)
  }

  function Decode(s: Bytes): Option<Bytes> {
    DecodeGroups(DropBreaks(s))
  }

  lemma {:induction false} EncodedCharacters(s: Bytes)
    ensures forall c :: c in Encode(s) ==> c != 10 && c != 13 && c != 32
  {
    if |s| >= 3 {
      EncodedCharacters(s[3..]);
    }
  }

  lemma {:induction false} NothingToDrop(s: Bytes)
    requires 10 !in s && 13 !in s
    ensures DropBreaks(s) == s
  {
    if s != [] {
      NothingToDrop(s[1..]);
    }
  }

  lemma FullGroup(a: bv8, b: bv8, c: bv8, code: Bytes, rest: Bytes)
    requires DecodeGroups(code) == Some(rest)
    ensures DecodeGroups([Digit(Sextet0(a)), Digit(Sextet1(a, b)), Digit(Sextet2(b, c)), Digit(Sextet3(c))] + code)
         == Some([a, b, c] + rest)
  {
    SextetsAndOctets(a, b, c);
    DigitValue(Sextet0(a));
    DigitValue(Sextet1(a, b));
    DigitValue(Sextet2(b, c));
    DigitValue(Sextet3(c));
    var group := [Digit(Sextet0(a)), Digit(Sextet1(a, b)), Digit(Sextet2(b, c)), Digit(Sextet3(c))];
    assert (group + code)[4..] == code;
  }

  lemma ThreeBytes(a: bv8, b: bv8, c: bv8, rest: Bytes)
    requires DecodeGroups(Encode(rest)) == Some(rest)
    ensures DecodeGroups(Encode([a, b, c] + rest)) == Some([a, b, c] + rest)
  {
    FullGroup(a, b, c, Encode(rest), rest);
    assert ([a, b, c] + rest)[3..] == rest;
  }

  lemma TwoBytes(a: bv8, b: bv8)
    ensures DecodeGroups(Encode([a, b])) == Some([a, b])
  {
    SextetsAndOctets(a, b, 0);
    DigitValue(Sextet0(a));
    DigitValue(Sextet1(a, b));
    DigitValue(Sextet2(b, 0));
  }

  lemma OneByte(a: bv8)
    ensures DecodeGroups(Encode([a])) == Some([a])
  {
    SextetsAndOctets(a, 0, 0);
    DigitValue(Sextet0(a));
    DigitValue(Sextet1(a, 0));
  }

  lemma {:induction false} GroupsRoundTrip(s: Bytes)
    ensures DecodeGroups(Encode(s)) == Some(s)
  {
    if |s| >= 3 {
      assert s == [s[0], s[1], s[2]] + s[3..];
      GroupsRoundTrip(s[3..]);
      ThreeBytes(s[0], s[1], s[2], s[3..]);
    } else if |s| == 2 {
      assert s == [s[0], s[1]];
      TwoBytes(s[0], s[1]);
    } else if |s| == 1 {
      assert s == [s[0]];
      OneByte(s[0]);
    }
  }

  /** Encoded text is decoded to what was encoded, and contains no space. */
  lemma DecodeOfEncode(s: Bytes)
    ensures Decode(Encode(s)) == Some(s) && 32 !in Encode(s)
  {
    EncodedCharacters(s);
    NothingToDrop(Encode(s));
    GroupsRoundTrip(s);
  }

  // ---------------------------------------------------------------- headers

  const Space: bv8 := 32
  const Colon: bv8 := 58
  const Basic: Bytes := [66, 97, 115, 105, 99]

  datatype Error = InvalidBase64 | InvalidHeader

  /** The parts before and after the first separator; None if there is none. */
  function SplitFirst(s: Bytes, sep: bv8): (r: Option<(Bytes, Bytes)>)
    ensures r.None? <==> sep !in s
    ensures r.Some? ==> s == r.value.0 + [sep] + r.value.1 && sep !in r.value.0
  {
    if s == [] then None
    else if s[0] == sep then Some(([], s[1..]))
    else
      match SplitFirst(s[1..], sep)
      case None => None
      case Some((a, b)) => Some(([s[0]] + a, b))
  }

  lemma SplitFirstIsUnique(a: Bytes, sep: bv8, b: Bytes)
    requires sep !in a
    ensures SplitFirst(a + [sep] + b, sep) == Some((a, b))
  {
    var s := a + [sep] + b;
    assert s[|a|] == sep;
    var (x, y) := SplitFirst(s, sep).value;
    assert s[|x|] == sep;
    assert forall k :: 0 <= k < |a| ==> s[k] == a[k];
    assert forall k :: 0 <= k < |x| ==> s[k] == x[k];
    assert |x| == |a|;
    assert x == s[..|a|] == a;
    assert y == s[|a| + 1..] == b;
  }

  function GetBasicAuthHeader(user: Bytes, password: Bytes): Bytes {
    Basic + [Space] + Encode(user + [Colon] + password)
  }

  /** What is after "Basic "; nothing for any other header. */
  function Code(header: Bytes): Bytes {
    match SplitFirst(header, Space)
    case Some((scheme, code)) => if scheme == Basic then code else []
    case None => []
  }

  function DecodeBasicAuthHeader(header: Bytes): Result<(Bytes, Bytes), Error> {
    match Decode(Code(header))
    case None => Err(InvalidBase64)
    case Some(decoded) =>
      match SplitFirst(decoded, Colon)
      case None => Err(InvalidHeader)
      case Some(pair) => Ok(pair)
  }

  /** A built header always decodes, at the first colon of the credentials. */
  lemma DecodeOfHeader(user: Bytes, password: Bytes)
    ensures SplitFirst(user + [Colon] + password, Colon).Some?
    ensures DecodeBasicAuthHeader(GetBasicAuthHeader(user, password)) == Ok(SplitFirst(user + [Colon] + password, Colon).value)
  {
    var credentials := user + [Colon] + password;
    assert credentials[|user|] == Colon;
    DecodeOfEncode(credentials);
    SplitFirstIsUnique(Basic, Space, Encode(credentials));
  }

  /** The pair comes back exactly when the user name has no colon. */
  lemma HeaderRoundTripIff(user: Bytes, password: Bytes)
    ensures DecodeBasicAuthHeader(GetBasicAuthHeader(user, password)) == Ok((user, password)) <==> Colon !in user
  {
    DecodeOfHeader(user, password);
    if Colon !in user {
      SplitFirstIsUnique(user, Colon, password);
    }
  }

  /** Nothing is lost even with a colon in the user name: the two parts spell the same credentials. */
  lemma CredentialsSurvive(user: Bytes, password: Bytes)
    ensures var r := DecodeBasicAuthHeader(GetBasicAuthHeader(user, password));
            r.Ok? && r.value.0 + [Colon] + r.value.1 == user + [Colon] + password
  {
    DecodeOfHeader(user, password);
  }

  /**
   * Which headers are accepted: the scheme, a space, and valid base64 of some credentials with a colon. The
   * user and the password of an accepted header make a header that decodes to the same pair.
   */
  lemma AcceptedHeaders(header: Bytes, user: Bytes, password: Bytes)
    ensures DecodeBasicAuthHeader(header) == Ok((user, password))
       <==> Colon !in user && exists code: Bytes ::
              header == Basic + [Space] + code && Decode(code) == Some(user + [Colon] + password)
    ensures DecodeBasicAuthHeader(header) == Ok((user, password)) ==>
              DecodeBasicAuthHeader(GetBasicAuthHeader(user, password)) == Ok((user, password))
  {
    if DecodeBasicAuthHeader(header) == Ok((user, password)) {
      HeaderRoundTripIff(user, password);
      var code := Code(header);
      assert code != [] ==> header == Basic + [Space] + code;
      assert Decode([]) == Some([]);
    }
    if code: Bytes :|
      Colon !in user && header == Basic + [Space] + code && Decode(code) == Some(user + [Colon] + password)
    {
      SplitFirstIsUnique(Basic, Space, code);
      SplitFirstIsUnique(user, Colon, password);
    }
  }
}
