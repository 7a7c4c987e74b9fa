/** Building the authorization URL: percent-encoded query values, and reading them back. */
module QueryEncoding {
  import opened Wrappers
  import opened Bytes
  import Text

  /** An upper-case hexadecimal digit. */
  function HexDigit(d: nat): char
    requires d < 16
  {
    if d < 10 then '0' + d as char else 'A' + (d - 10) as char
  }

  /** The unreserved characters of section 2.3 of RFC 3986. */
  predicate Unreserved(b: Byte) {
    48 <= b <= 57 || 65 <= b <= 90 || 97 <= b <= 122 || b == 45 || b == 46 || b == 95 || b == 126
  }

  function EncodeByte(b: Byte): (s: string)
    ensures |s| == 1 || |s| == 3
  {
    if Unreserved(b) then [b as char] else ['%', HexDigit(b / 16), HexDigit(b % 16)]
  }

  function Encode(bytes: seq<Byte>): string {
    if bytes == [] then "" else Encode(bytes[..|bytes| - 1]) + EncodeByte(bytes[|bytes| - 1])
  }

  method PercentEncode(bytes: seq<Byte>) returns (output: string)
    ensures output == Encode(bytes)
  {
    output := "";
    for i := 0 to |bytes|
      invariant output == Encode(bytes[..i])
    {
      assert bytes[..i + 1][..i] == bytes[..i];
      if Unreserved(bytes[i]) {
        output := output + [bytes[i] as char];
      } else {
        output := output + ['%'];
        output := output + [HexDigit(bytes[i] / 16), HexDigit(bytes[i] % 16)];
      }
    }
    assert bytes[..|bytes|] == bytes;
  }

  // ---------------------------------------------------------------- decoding

  function HexValue(c: char): Option<nat> {
    if '0' <= c <= '9' then Some((c - '0') as nat)
    else if 'A' <= c <= 'F' then Some(10 + (c - 'A') as nat)
    else if 'a' <= c <= 'f' then Some(10 + (c - 'a') as nat)
    else None
  }

  /** Percent-decoding as section 2.1 of RFC 3986 describes it; none for a malformed escape or a non-ASCII character. */
  function Decode(s: string): Option<seq<Byte>> {
    if s == "" then Some([])
    else if s[0] == '%' then
      if |s| < 3 || HexValue(s[1]).None? || HexValue(s[2]).None? then None
      else
        var rest := Decode(s[3..]);
        var b := 16 * HexValue(s[1]).value + HexValue(s[2]).value;
        if rest.None? || b >= 256 then None else Some([b] + rest.value)
    else if s[0] as int >= 128 then None
    else
      var rest := Decode(s[1..]);
      if rest.None? then None else Some([s[0] as int] + rest.value)
  }

  lemma {:induction false} HexInverts(d: nat)
    requires d < 16
    ensures HexValue(HexDigit(d)) == Some(d)
  {
  }

  lemma {:induction false} DecodePlain(b: Byte, rest: string)
    requires Unreserved(b)
    ensures Decode([b as char] + rest) == if Decode(rest).None? then None else Some([b] + Decode(rest).value)
  {
    assert ([b as char] + rest)[1..] == rest;
  }

  lemma {:induction false} DecodeEscape(b: Byte, rest: string)
    ensures Decode(['%', HexDigit(b / 16), HexDigit(b % 16)] + rest)
         == if Decode(rest).None? then None else Some([b] + Decode(rest).value)
  {
    var s := ['%', HexDigit(b / 16), HexDigit(b % 16)] + rest;
    HexInverts(b / 16);
    HexInverts(b % 16);
    assert s[0] == '%' && s[1] == HexDigit(b / 16) && s[2] == HexDigit(b % 16);
    assert s[3..] == rest;
  }

  lemma {:induction false} DecodeByte(b: Byte, rest: string)
    ensures Decode(EncodeByte(b) + rest)
         == if Decode(rest).None? then None else Some([b] + Decode(rest).value)
  {
    if Unreserved(b) {
      DecodePlain(b, rest);
    } else {
      DecodeEscape(b, rest);
    }
  }

  lemma {:induction false} EncodeBack(bytes: seq<Byte>, b: Byte)
    ensures Encode(bytes + [b]) == Encode(bytes) + EncodeByte(b)
  {
    assert (bytes + [b])[..|bytes|] == bytes;
  }

  lemma {:induction false} Regroup(a: string, b: string, c: string)
    ensures (a + b) + c == a + (b + c)
  {
  }

  lemma {:induction false} EncodeFront(b: Byte, bytes: seq<Byte>)
    ensures Encode([b] + bytes) == EncodeByte(b) + Encode(bytes)
  {
    if bytes == [] {
      EncodeBack([], b);
      assert [b] + bytes == [] + [b];
    } else {
      var front, last := bytes[..|bytes| - 1], bytes[|bytes| - 1];
      calc {
        Encode([b] + bytes);
        { assert [b] + bytes == ([b] + front) + [last]; }
        Encode(([b] + front) + [last]);
        { EncodeBack([b] + front, last); }
        Encode([b] + front) + EncodeByte(last);
        { EncodeFront(b, front); }
        (EncodeByte(b) + Encode(front)) + EncodeByte(last);
        { Regroup(EncodeByte(b), Encode(front), EncodeByte(last)); }
        EncodeByte(b) + (Encode(front) + EncodeByte(last));
      }
    }
  }

  /** Decoding inverts encoding for arbitrary bytes, so the encoder is injective. */
  lemma {:induction false} DecodeInverts(bytes: seq<Byte>)
    ensures Decode(Encode(bytes)) == Some(bytes)
  {
    if bytes != [] {
      DecodeInverts(bytes[1..]);
      assert bytes == [bytes[0]] + bytes[1..];
      EncodeFront(bytes[0], bytes[1..]);
      DecodeByte(bytes[0], Encode(bytes[1..]));
    }
  }

  // ---------------------------------------------------------------- what the encoder can write

  predicate IsUpperHex(c: char) { '0' <= c <= '9' || 'A' <= c <= 'F' }

  /** The unreserved characters, as characters. */
  predicate IsUnreserved(c: char) {
    'A' <= c <= 'Z' || 'a' <= c <= 'z' || '0' <= c <= '9' || c == '-' || c == '.' || c == '_' || c == '~'
  }

  /** The byte written as two hexadecimal digits. */
  function EscapeValue(high: char, low: char): (b: Byte)
    requires IsUpperHex(high) && IsUpperHex(low)
  {
    16 * HexValue(high).value + HexValue(low).value
  }

  /** Single unreserved characters, and escapes in upper case of bytes that are not unreserved. */
  predicate Canonical(s: string) {
    if s == "" then true
    else if s[0] == '%' then
      && |s| >= 3 && IsUpperHex(s[1]) && IsUpperHex(s[2]) && !IsUnreserved(EscapeValue(s[1], s[2]) as char)
      && Canonical(s[3..])
    else IsUnreserved(s[0]) && Canonical(s[1..])
  }

  lemma {:induction false} HexIsUpper(b: Byte)
    ensures IsUpperHex(HexDigit(b / 16)) && IsUpperHex(HexDigit(b % 16))
    ensures EscapeValue(HexDigit(b / 16), HexDigit(b % 16)) == b
  {
    HexInverts(b / 16);
    HexInverts(b % 16);
  }

  lemma {:induction false} CanonicalFront(b: Byte, rest: string)
    requires Canonical(rest)
    ensures Canonical(EncodeByte(b) + rest)
  {
    var s := EncodeByte(b) + rest;
    if Unreserved(b) {
      assert s[0] == b as char && s[1..] == rest;
    } else {
      HexIsUpper(b);
      assert s[0] == '%' && s[1] == HexDigit(b / 16) && s[2] == HexDigit(b % 16) && s[3..] == rest;
    }
  }

  /** Encoded values consist of unreserved characters and upper-case escapes of all other bytes. */
  lemma {:induction false} EncodedIsSafe(bytes: seq<Byte>)
    ensures Canonical(Encode(bytes))
  {
    if bytes != [] {
      EncodedIsSafe(bytes[1..]);
      assert bytes == [bytes[0]] + bytes[1..];
      EncodeFront(bytes[0], bytes[1..]);
      CanonicalFront(bytes[0], Encode(bytes[1..]));
    }
  }

  lemma {:induction false} HexInvertsBack(c: char)
    requires IsUpperHex(c)
    ensures HexValue(c).Some? && HexValue(c).value < 16 && HexDigit(HexValue(c).value) == c
  {
  }

  lemma {:induction false} Nibbles(h: nat, l: nat)
    requires l < 16
    ensures (16 * h + l) / 16 == h && (16 * h + l) % 16 == l
  {
  }

  lemma {:induction false} EscapeDigits(high: char, low: char)
    requires IsUpperHex(high) && IsUpperHex(low)
    ensures HexDigit(EscapeValue(high, low) / 16) == high && HexDigit(EscapeValue(high, low) % 16) == low
  {
    HexInvertsBack(high);
    HexInvertsBack(low);
    Nibbles(HexValue(high).value, HexValue(low).value);
  }

  /** The first unit of a canonical text is what the encoder writes for the byte it decodes to. */
  lemma {:induction false} CanonicalHead(s: string) returns (b: Byte, rest: string)
    requires s != "" && Canonical(s)
    ensures s == EncodeByte(b) + rest && Canonical(rest) && |rest| < |s|
  {
    if s[0] == '%' {
      EscapeDigits(s[1], s[2]);
      b, rest := EscapeValue(s[1], s[2]), s[3..];
      assert s == s[..3] + rest;
    } else {
      b, rest := s[0] as int, s[1..];
      assert s == [s[0]] + rest;
    }
  }

  /**
   Conversely every such text is the encoding of what it decodes to, so the
   encoder and the decoder are inverse bijections between byte strings and
   canonical texts.
   */
  lemma {:induction false} CanonicalIsEncoded(s: string)
    requires Canonical(s)
    ensures Decode(s).Some? && Encode(Decode(s).value) == s
    decreases |s|
  {
    if s != "" {
      var b, rest := CanonicalHead(s);
      CanonicalIsEncoded(rest);
      DecodeByte(b, rest);
      EncodeFront(b, Decode(rest).value);
    }
  }

  lemma {:induction false} CanonicalHasNo(s: string, c: char)
    requires Canonical(s) && c != '%' && !IsUnreserved(c)
    ensures c !in s
    decreases |s|
  {
    if s != "" {
      if s[0] == '%' {
        CanonicalHasNo(s[3..], c);
        assert s == s[..3] + s[3..] && s[..3] == ['%', s[1], s[2]];
      } else {
        CanonicalHasNo(s[1..], c);
        assert s == [s[0]] + s[1..];
      }
    }
  }

  // ---------------------------------------------------------------- the query

  datatype Param = Param(key: string, value: seq<Byte>)

  function Pair(p: Param): string { p.key + "=" + Encode(p.value) }

  /** The pairs joined with `&`. */
  function Query(params: seq<Param>): string {
    if params == [] then ""
    else if |params| == 1 then Pair(params[0])
    else Pair(params[0]) + "&" + Query(params[1..])
  }

  function AuthorizeUrl(base: string, params: seq<Param>): string {
    base + (if '?' in base then "&" else "?") + Query(params)
  }

  /** Split on `&`, then each piece at its first `=`, then decode the value. */
  function ParseQuery(s: string): Option<seq<Param>>
    decreases |s|
  {
    var amp := Text.IndexOf(s, '&');
    var piece := s[..amp];
    var eq := Text.IndexOf(piece, '=');
    if eq == |piece| then None
    else
      var value := Decode(piece[eq + 1..]);
      if value.None? then None
      else
        var first := Param(piece[..eq], value.value);
        if amp == |s| then Some([first])
        else
          var others := ParseQuery(s[amp + 1..]);
          if others.None? then None else Some([first] + others.value)
  }

  /** An empty query has no parameters. */
  function ReadQuery(s: string): Option<seq<Param>> { if s == "" then Some([]) else ParseQuery(s) }

  lemma {:induction false} QueryIsEmpty(params: seq<Param>)
    ensures Query(params) == "" <==> params == []
  {
    if params != [] {
      assert |Pair(params[0])| >= 1;
    }
  }

  predicate CleanKey(key: string) { '&' !in key && '=' !in key }

  /** `piece` is one pair that reads back as `p`. */
  predicate Reads(piece: string, p: Param) {
    && '&' !in piece
    && |p.key| < |piece|
    && Text.IndexOf(piece, '=') == |p.key|
    && piece[..|p.key|] == p.key
    && Decode(piece[|p.key| + 1..]) == Some(p.value)
  }

  lemma {:induction false} NoSeparator(p: Param)
    requires CleanKey(p.key)
    ensures '&' !in Pair(p)
  {
    var value := Encode(p.value);
    EncodedIsSafe(p.value);
    CanonicalHasNo(value, '&');
    assert '&' !in p.key + "=";
  }

  lemma {:induction false} PairReads(p: Param)
    requires CleanKey(p.key)
    ensures Reads(Pair(p), p)
  {
    var value := Encode(p.value);
    NoSeparator(p);
    Text.IndexOfAt(p.key, '=', value);
    assert Pair(p)[|p.key| + 1..] == value;
    DecodeInverts(p.value);
  }

  lemma {:induction false} LastPiece(piece: string, p: Param)
    requires Reads(piece, p)
    ensures ParseQuery(piece) == Some([p])
  {
    assert Text.IndexOf(piece, '&') == |piece|;
    assert piece[..|piece|] == piece;
    assert p == Param(p.key, p.value);
  }

  lemma {:induction false} NextPiece(piece: string, p: Param, rest: string, others: seq<Param>)
    requires Reads(piece, p) && ParseQuery(rest) == Some(others)
    ensures ParseQuery(piece + "&" + rest) == Some([p] + others)
  {
    var s := piece + "&" + rest;
    Text.IndexOfAt(piece, '&', rest);
    assert s[..|piece|] == piece && s[|piece| + 1..] == rest;
    assert p == Param(p.key, p.value);
  }

  /** One more parameter in front of a query that reads back. */
  lemma {:induction false} QueryExtends(params: seq<Param>)
    requires |params| > 1 && CleanKey(params[0].key)
    requires ParseQuery(Query(params[1..])) == Some(params[1..])
    ensures ParseQuery(Query(params)) == Some(params)
  {
    PairReads(params[0]);
    NextPiece(Pair(params[0]), params[0], Query(params[1..]), params[1..]);
    assert params == [params[0]] + params[1..];
  }

  lemma {:induction false} QueryParses(params: seq<Param>)
    requires params != [] && forall i :: 0 <= i < |params| ==> CleanKey(params[i].key)
    ensures ParseQuery(Query(params)) == Some(params)
  {
    if |params| == 1 {
      PairReads(params[0]);
      LastPiece(Pair(params[0]), params[0]);
      assert params == [params[0]];
    } else {
      QueryParses(params[1..]);
      QueryExtends(params);
    }
  }

  lemma {:induction false} ParsedKeysAreClean(s: string)
    ensures ParseQuery(s).Some? ==> forall i :: 0 <= i < |ParseQuery(s).value| ==> CleanKey(ParseQuery(s).value[i].key)
    decreases |s|
  {
    if Text.IndexOf(s, '&') < |s| {
      ParsedKeysAreClean(s[Text.IndexOf(s, '&') + 1..]);
    }
  }

  /**
   Reading the query built for a URL recovers the parameters, in order and
   with arbitrary byte values, if and only if no key holds `&` or `=`: only
   the values are escaped, so the keys have to be clean already.
   */
  lemma {:induction false} QueryRoundTrip(base: string, params: seq<Param>)
    ensures var url := AuthorizeUrl(base, params);
            url[..|base|] == base && url[|base|] == (if exists i :: 0 <= i < |base| && base[i] == '?' then '&' else '?')
    ensures ReadQuery(AuthorizeUrl(base, params)[|base| + 1..]) == Some(params)
       <==> forall i :: 0 <= i < |params| ==> CleanKey(params[i].key)
  {
    var url := AuthorizeUrl(base, params);
    assert url[|base| + 1..] == Query(params);
    QueryIsEmpty(params);
    ParsedKeysAreClean(Query(params));
    if params != [] && forall i :: 0 <= i < |params| ==> CleanKey(params[i].key) {
      QueryParses(params);
    }
  }
}
