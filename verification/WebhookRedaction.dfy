/** Redaction is a fixed point of validation. */
module WebhookRedaction {
  import opened Wrappers
  import opened Text
  import opened Utf8
  import opened WebhookUrl

  /** The characters a validated host is made of. */
  predicate HostChar(c: char) { '0' <= c <= '9' || 'a' <= c <= 'z' || c == '.' || c == '-' || c == ':' }

  predicate HostChars(s: string) { forall i :: 0 <= i < |s| ==> HostChar(s[i]) }

  /** IP literals consist of hexadecimal digits, colons and dots, and are short. */
  ghost predicate ReadsIpText(ip: IpReader) {
    forall h :: ip(h).Some? ==> |h| <= 45 && forall i :: 0 <= i < |h| ==> IsAlnum(h[i]) || h[i] == ':' || h[i] == '.'
  }

  // ---------------------------------------------------------------- validated hosts

  lemma {:induction false} LabelChars(host: string)
    requires LabelsOk(host)
    ensures forall i :: 0 <= i < |host| ==> IsAlnum(host[i]) || host[i] == '-' || host[i] == '.'
    decreases |host|
  {
    var dot := IndexOf(host, '.');
    if dot < |host| {
      LabelChars(host[dot + 1..]);
    }
    forall i | 0 <= i < |host| ensures IsAlnum(host[i]) || host[i] == '-' || host[i] == '.' {
      if i < dot {
        assert host[i] == host[..dot][i];
      } else if i > dot {
        assert host[i] == host[dot + 1..][i - dot - 1];
      }
    }
  }

  /** A host that passed validation, after normalisation. */
  predicate GoodHost(h: string, ip: IpReader) {
    && h != "" && |h| <= 253
    && HostChars(h)
    && h[|h| - 1] != '.'
    && ValidateHost(h, ip).None?
  }

  lemma {:induction false} Normalized(raw: string)
    ensures var h := NormalizeHost(raw);
            && (forall i :: 0 <= i < |h| ==> !('A' <= h[i] <= 'Z'))
            && (h != "" ==> h[|h| - 1] != '.')
  {
    var cut, h := TrimEnd(raw, Dots), NormalizeHost(raw);
    if h != "" {
      assert h[|h| - 1] == LowerChar(cut[|cut| - 1]);
    }
  }

  lemma {:induction false} ValidatedText(h: string, ip: IpReader)
    requires ReadsIpText(ip) && ValidateHost(h, ip).None?
    ensures |h| <= 253
    ensures forall i :: 0 <= i < |h| ==> IsAlnum(h[i]) || h[i] == '-' || h[i] == '.' || h[i] == ':'
  {
    if ip(h).None? {
      LabelChars(h);
    }
  }

  lemma {:induction false} ValidatedHostIsGood(raw: string, ip: IpReader)
    requires ReadsIpText(ip)
    ensures ValidateHost(NormalizeHost(raw), ip).None? <==> GoodHost(NormalizeHost(raw), ip)
  {
    var h := NormalizeHost(raw);
    if ValidateHost(h, ip).None? {
      Normalized(raw);
      ValidatedText(h, ip);
      assert HostChars(h);
    }
  }

  lemma {:induction false} NormalizeGood(h: string, ip: IpReader)
    requires GoodHost(h, ip)
    ensures NormalizeHost(h) == h
  {
    assert TrimEnd(h, Dots) == h;
    assert forall i :: 0 <= i < |h| ==> HostChar(h[i]) && LowerChar(h[i]) == h[i];
    assert Lower(h) == h;
  }

  // ---------------------------------------------------------------- the authority of a redacted URL

  lemma {:induction false} DecimalValue(n: nat)
    ensures DigitsValue(Decimal(n)) == n && Decimal(n)[0] != '+' && ':' !in Decimal(n)
  {
    DecimalRoundTrip(n);
    var s := Decimal(n);
    assert IsDigit(s[0]);
    assert forall i :: 0 <= i < |s| ==> IsDigit(s[i]);
  }

  lemma {:induction false} PortParses(n: nat)
    requires n <= PORT_MAX
    ensures ParsePort(Decimal(n)) == Some(n)
  {
    DecimalValue(n);
  }

  lemma {:induction false} OptionalPortParses(port: Option<nat>)
    requires port.Some? ==> port.value <= PORT_MAX
    ensures ParseOptionalPort(PortText(port)) == Ok(port)
  {
    if port.Some? {
      var text := PortText(port);
      assert text[1..] == Decimal(port.value);
      PortParses(port.value);
    }
  }

  lemma {:induction false} BracketedRest(h: string, port: Option<nat>)
    requires ']' !in h && (port.Some? ==> port.value <= PORT_MAX)
    ensures ParseBracketed(h + "]" + PortText(port)) == Ok((h, port))
  {
    var rest := h + "]" + PortText(port);
    IndexOfAt(h, ']', PortText(port));
    assert rest[|h| + 1..] == PortText(port) && rest[..|h|] == h;
    OptionalPortParses(port);
  }

  lemma {:induction false} BracketedParses(h: string, port: Option<nat>)
    requires ']' !in h && (port.Some? ==> port.value <= PORT_MAX)
    ensures ParseAuthority("[" + h + "]" + PortText(port)) == Ok((h, port))
  {
    assert ("[" + h + "]" + PortText(port))[1..] == h + "]" + PortText(port);
    BracketedRest(h, port);
  }

  lemma {:induction false} PlainParses(h: string, port: Option<nat>)
    requires h != "" && ':' !in h && h[0] != '[' && (port.Some? ==> port.value <= PORT_MAX)
    ensures ParseAuthority(h + PortText(port)) == Ok((h, port))
  {
    var authority := h + PortText(port);
    assert authority[0] == h[0];
    if port.None? {
      assert authority == h;
      assert IndexOf(h, ':') == |h|;
    } else {
      var digits := Decimal(port.value);
      assert authority == h + [':'] + digits;
      IndexOfAt(h, ':', digits);
      assert authority[..|h|] == h && authority[|h| + 1..] == digits;
      DecimalValue(port.value);
      PortParses(port.value);
    }
  }

  function AuthorityText(h: string, port: Option<nat>): string { HostText(h) + PortText(port) }

  lemma {:induction false} AuthorityParses(h: string, port: Option<nat>)
    requires h != "" && HostChars(h) && (port.Some? ==> port.value <= PORT_MAX)
    ensures ParseAuthority(AuthorityText(h, port)) == Ok((h, port))
  {
    assert forall i :: 0 <= i < |h| ==> HostChar(h[i]);
    assert ']' !in h && HostChar(h[0]);
    if ':' in h {
      BracketedParses(h, port);
    } else {
      PlainParses(h, port);
    }
  }

  predicate AuthorityChar(c: char) { HostChar(c) || c == '[' || c == ']' }

  lemma {:induction false} AuthorityChars(h: string, port: Option<nat>)
    requires HostChars(h)
    ensures forall i :: 0 <= i < |AuthorityText(h, port)| ==> AuthorityChar(AuthorityText(h, port)[i])
  {
    assert forall i :: 0 <= i < |h| ==> HostChar(h[i]);
    assert forall i :: 0 <= i < |HostText(h)| ==> AuthorityChar(HostText(h)[i]);
    if port.Some? {
      var digits := Decimal(port.value);
      assert forall i :: 0 <= i < |digits| ==> IsDigit(digits[i]);
      assert forall i :: 0 <= i < |PortText(port)| ==> AuthorityChar(PortText(port)[i]);
    }
  }

  lemma {:induction false} AuthorityEndAt(a: string, after: string)
    requires forall i :: 0 <= i < |a| ==> !IsDelimiter(a[i])
    requires after == "" || IsDelimiter(after[0])
    ensures AuthorityEnd(a + after) == |a|
  {
    var s := a + after;
    assert forall j :: 0 <= j < |a| ==> s[j] == a[j];
    if after != "" {
      assert s[|a|] == after[0];
    }
  }

  // ---------------------------------------------------------------- the marks keep the flags

  function MarkText(path: bool, query: bool): string { PathText(path) + QueryText(query) }

  lemma {:induction false} MarkFlags(path: bool, query: bool)
    ensures var after := MarkText(path, query);
            && (after == "" || IsDelimiter(after[0]))
            && PathPresent(after) == path
            && ('?' in after) == query
  {
    var after := MarkText(path, query);
    if path {
      assert after[0] == '/' && after[1] == '[';
      assert after[1..][0] == '[';
      assert '?' !in PATH_MARK;
      if query {
        assert after[|PATH_MARK|] == '?';
      } else {
        assert after == PATH_MARK;
      }
    } else if query {
      assert after == QUERY_MARK && after[0] == '?';
    }
  }

  // ---------------------------------------------------------------- the rest of the URL

  lemma {:induction false} RestByParts(a: string, after: string, host: string, h: string, port: Option<nat>,
                                       ip: IpReader)
    requires AuthorityEnd(a + after) == |a| && a != "" && '@' !in a
    requires ParseAuthority(a) == Ok((host, port)) && NormalizeHost(host) == h && ValidateHost(h, ip).None?
    ensures ValidateRest(a + after, ip)
         == Ok(WebhookOf(h, port, after))
  {
    assert (a + after)[..|a|] == a && (a + after)[|a|..] == after;
  }

  lemma {:induction false} AuthorityIsClean(h: string, port: Option<nat>)
    requires h != "" && HostChars(h)
    ensures var a := AuthorityText(h, port);
            a != "" && '@' !in a && forall i :: 0 <= i < |a| ==> !IsDelimiter(a[i])
  {
    AuthorityChars(h, port);
    var a := AuthorityText(h, port);
    assert forall i :: 0 <= i < |a| ==> AuthorityChar(a[i]);
  }

  function WebhookOf(h: string, port: Option<nat>, after: string): Webhook {
    var path, query := PathPresent(after), '?' in after;
    Webhook(h, port, path, query, RedactedUrl(h, port, path, query))
  }

  lemma {:induction false} RestInverts(h: string, port: Option<nat>, after: string, ip: IpReader)
    requires GoodHost(h, ip) && (port.Some? ==> port.value <= PORT_MAX)
    requires after == "" || IsDelimiter(after[0])
    ensures ValidateRest(AuthorityText(h, port) + after, ip) == Ok(WebhookOf(h, port, after))
  {
    var a := AuthorityText(h, port);
    AuthorityIsClean(h, port);
    AuthorityEndAt(a, after);
    AuthorityParses(h, port);
    NormalizeGood(h, ip);
    RestByParts(a, after, h, h, port, ip);
  }

  /**
   Every URL put together from a good host, an optional port and anything that
   starts with a delimiter is accepted, with any white space around it, as long
   as it does not end in white space itself and is short enough; the flags say
   whether there is a path and a query.
   */
  lemma {:induction false} GoodUrlIsAccepted(left: string, h: string, port: Option<nat>, after: string, right: string,
                                             ip: IpReader)
    requires GoodHost(h, ip) && (port.Some? ==> port.value <= PORT_MAX)
    requires after == "" || (IsDelimiter(after[0]) && !IsWhitespace(after[|after| - 1]))
    requires ByteLength(SCHEME + (AuthorityText(h, port) + after)) <= 2048
    requires forall i :: 0 <= i < |left| ==> IsWhitespace(left[i])
    requires forall i :: 0 <= i < |right| ==> IsWhitespace(right[i])
    ensures ValidateUrl(left + (SCHEME + (AuthorityText(h, port) + after)) + right, ip) == Ok(WebhookOf(h, port, after))
  {
    var a := AuthorityText(h, port);
    var rest := a + after;
    var url := SCHEME + rest;
    AuthorityIsPlain(h, port);
    AuthorityIsClean(h, port);
    assert Plain(a[|a| - 1]) && url[|url| - 1] == if after == "" then a[|a| - 1] else after[|after| - 1];
    TrimPadded(left, url, right, Blanks);
    assert url[..|SCHEME|] == SCHEME && url[|SCHEME|..] == rest;
    RestInverts(h, port, after, ip);
  }

  // ---------------------------------------------------------------- length and trimming

  lemma {:induction false} AsciiLength(s: string)
    requires forall i :: 0 <= i < |s| ==> s[i] < '\U{80}'
    ensures ByteLength(s) == |s|
  {
    if s != "" {
      AsciiLength(s[..|s| - 1]);
    }
  }

  lemma {:induction false} DecimalLength(n: nat)
    requires n <= PORT_MAX
    ensures |Decimal(n)| <= 5
  {
    assert n / 10 <= 6553 && n / 100 <= 655 && n / 1000 <= 65 && n / 10000 <= 6;
    assert |Decimal(n / 10000)| == 1;
    assert |Decimal(n / 1000)| <= 2;
    assert |Decimal(n / 100)| <= 3;
    assert |Decimal(n / 10)| <= 4;
  }

  predicate Plain(c: char) { '!' <= c <= '~' }

  predicate AllPlain(s: string) { forall i :: 0 <= i < |s| ==> Plain(s[i]) }

  lemma {:induction false} PlainConcat(a: string, b: string)
    requires AllPlain(a) && AllPlain(b)
    ensures AllPlain(a + b)
  {
  }

  lemma {:induction false} AuthorityIsPlain(h: string, port: Option<nat>)
    requires HostChars(h)
    ensures AllPlain(AuthorityText(h, port))
  {
    AuthorityChars(h, port);
    var a := AuthorityText(h, port);
    assert forall i :: 0 <= i < |a| ==> AuthorityChar(a[i]);
  }

  lemma {:induction false} MarksArePlain(path: bool, query: bool)
    ensures AllPlain(PathText(path)) && AllPlain(QueryText(query)) && AllPlain(SCHEME)
  {
    assert AllPlain(PATH_MARK) && AllPlain(QUERY_MARK) && AllPlain(SCHEME);
  }

  /** The redacted text as scheme, authority and marks. */
  lemma {:induction false} RedactedParts(h: string, port: Option<nat>, path: bool, query: bool)
    ensures RedactedUrl(h, port, path, query) == SCHEME + (AuthorityText(h, port) + MarkText(path, query))
  {
    var a, b, c, d, e := SCHEME, HostText(h), PortText(port), PathText(path), QueryText(query);
    Regroup(a, b, c);
    Regroup(a + (b + c), d, e);
    Regroup(a, b + c, d + e);
  }

  lemma {:induction false} RedactedIsPlain(h: string, port: Option<nat>, path: bool, query: bool)
    requires HostChars(h)
    ensures AllPlain(RedactedUrl(h, port, path, query))
  {
    RedactedParts(h, port, path, query);
    AuthorityIsPlain(h, port);
    MarksArePlain(path, query);
    PlainConcat(PathText(path), QueryText(query));
    PlainConcat(AuthorityText(h, port), MarkText(path, query));
    PlainConcat(SCHEME, AuthorityText(h, port) + MarkText(path, query));
  }

  lemma {:induction false} RedactedIsShort(h: string, port: Option<nat>, path: bool, query: bool)
    requires |h| <= 253 && (port.Some? ==> port.value <= PORT_MAX)
    ensures |RedactedUrl(h, port, path, query)| <= 2048
  {
    if port.Some? {
      DecimalLength(port.value);
    }
  }

  lemma {:induction false} PortInRange(authority: string)
    ensures ParseAuthority(authority).Ok? && ParseAuthority(authority).value.1.Some?
            ==> ParseAuthority(authority).value.1.value <= PORT_MAX
  {
  }

  lemma {:induction false} RedactedFits(h: string, port: Option<nat>, path: bool, query: bool)
    requires HostChars(h) && |h| <= 253 && (port.Some? ==> port.value <= PORT_MAX)
    ensures ByteLength(RedactedUrl(h, port, path, query)) <= 2048
  {
    RedactedIsPlain(h, port, path, query);
    RedactedIsShort(h, port, path, query);
    AsciiLength(RedactedUrl(h, port, path, query));
  }

  lemma {:induction false} MarkEnds(path: bool, query: bool)
    ensures var after := MarkText(path, query);
            after == "" || (IsDelimiter(after[0]) && !IsWhitespace(after[|after| - 1]))
  {
    MarkFlags(path, query);
    MarksArePlain(path, query);
    PlainConcat(PathText(path), QueryText(query));
    var after := MarkText(path, query);
    if after != "" {
      assert Plain(after[|after| - 1]);
    }
  }

  lemma {:induction false} Unpadded(s: string)
    ensures "" + s + "" == s
  {
  }

  lemma {:induction false} RedactedValidates(h: string, port: Option<nat>, path: bool, query: bool, ip: IpReader)
    requires GoodHost(h, ip) && (port.Some? ==> port.value <= PORT_MAX)
    ensures ValidateUrl(RedactedUrl(h, port, path, query), ip)
         == Ok(Webhook(h, port, path, query, RedactedUrl(h, port, path, query)))
  {
    var after := MarkText(path, query);
    RedactedFits(h, port, path, query);
    RedactedParts(h, port, path, query);
    MarkEnds(path, query);
    GoodUrlIsAccepted("", h, port, after, "", ip);
    Unpadded(SCHEME + (AuthorityText(h, port) + after));
    assert WebhookOf(h, port, after) == Webhook(h, port, path, query, RedactedUrl(h, port, path, query)) by {
      MarkFlags(path, query);
    }
  }

  /** What an accepted URL is known to be. */
  predicate Accepted(w: Webhook, ip: IpReader) {
    && GoodHost(w.host, ip)
    && (w.port.Some? ==> w.port.value <= PORT_MAX)
    && w.redacted == RedactedUrl(w.host, w.port, w.path, w.query)
  }

  lemma {:induction false} RestIsAccepted(rest: string, ip: IpReader)
    requires ReadsIpText(ip)
    ensures ValidateRest(rest, ip).Ok? ==> Accepted(ValidateRest(rest, ip).value, ip)
  {
    var authority := rest[..AuthorityEnd(rest)];
    PortInRange(authority);
    if ValidateRest(rest, ip).Ok? {
      ValidatedHostIsGood(ParseAuthority(authority).value.0, ip);
    }
  }

  // ---------------------------------------------------------------- what is accepted

  /** One label of a DNS name: 1 to 63 letters, digits and inner hyphens. */
  predicate GoodLabel(s: string) {
    && 1 <= |s| <= 63
    && s[0] != '-' && s[|s| - 1] != '-'
    && forall i :: 0 <= i < |s| ==>
         '0' <= s[i] <= '9' || 'A' <= s[i] <= 'Z' || 'a' <= s[i] <= 'z' || s[i] == '-'
  }

  predicate GoodLabels(labels: seq<string>) {
    labels != [] && forall i :: 0 <= i < |labels| ==> GoodLabel(labels[i])
  }

  function Dotted(labels: seq<string>): string
    requires labels != []
  {
    if |labels| == 1 then labels[0] else labels[0] + "." + Dotted(labels[1..])
  }

  lemma {:induction false} LabelIs(s: string)
    ensures GoodLabel(s) <==> LabelOk(s)
    ensures GoodLabel(s) ==> '.' !in s
  {
  }

  lemma {:induction false} LabelsOfFirst(first: string, rest: string)
    requires LabelOk(first) && '.' !in first && LabelsOk(rest)
    ensures LabelsOk(first + "." + rest)
  {
    var host := first + "." + rest;
    IndexOfAt(first, '.', rest);
    assert host[..|first|] == first && host[|first| + 1..] == rest;
  }

  lemma {:induction false} DottedIsOk(labels: seq<string>)
    requires GoodLabels(labels)
    ensures LabelsOk(Dotted(labels))
  {
    var first := labels[0];
    LabelIs(first);
    if |labels| == 1 {
      assert first[..|first|] == first && IndexOf(first, '.') == |first|;
    } else {
      DottedIsOk(labels[1..]);
      LabelsOfFirst(first, Dotted(labels[1..]));
    }
  }

  lemma {:induction false} OkIsDotted(host: string) returns (labels: seq<string>)
    requires LabelsOk(host)
    ensures GoodLabels(labels) && host == Dotted(labels)
    decreases |host|
  {
    var dot := IndexOf(host, '.');
    LabelIs(host[..dot]);
    if dot == |host| {
      assert host[..dot] == host;
      labels := [host];
    } else {
      var others := OkIsDotted(host[dot + 1..]);
      labels := [host[..dot]] + others;
      assert labels[1..] == others;
      assert host == host[..dot] + "." + host[dot + 1..];
    }
  }

  ghost predicate IsDnsName(h: string) {
    exists labels :: GoodLabels(labels) && h == Dotted(labels)
  }

  ghost predicate HasSuffix(s: string, suffix: string) {
    exists front :: s == front + suffix
  }

  /** Local in one of the listed forms. */
  ghost predicate IsLocal(h: string) {
    h == "localhost" || HasSuffix(h, ".localhost") || HasSuffix(h, ".local") || HasSuffix(h, ".internal")
  }

  lemma {:induction false} SuffixIs(s: string, suffix: string)
    ensures EndsWith(s, suffix) <==> HasSuffix(s, suffix)
  {
    if EndsWith(s, suffix) {
      assert s == s[..|s| - |suffix|] + suffix;
    }
    if HasSuffix(s, suffix) {
      var front :| s == front + suffix;
      assert s[|front|..] == suffix;
    }
  }

  /**
   Which hosts are allowed: not empty, not local, and either an address that is
   not forbidden, or a DNS name of at most 253 characters.
   */
  lemma {:induction false} AllowedHosts(h: string, ip: IpReader)
    ensures ValidateHost(h, ip).None?
       <==> h != "" && !IsLocal(h) && if ip(h).Some? then ip(h) == Some(false) else |h| <= 253 && IsDnsName(h)
  {
    SuffixIs(h, ".localhost");
    SuffixIs(h, ".local");
    SuffixIs(h, ".internal");
    if LabelsOk(h) {
      var labels := OkIsDotted(h);
      LabelChars(h);
    }
    if IsDnsName(h) {
      var labels :| GoodLabels(labels) && h == Dotted(labels);
      DottedIsOk(labels);
      LabelChars(h);
    }
  }

  /** An accepted URL is short, uses https, names no user, and has an allowed host. */
  lemma {:induction false} AcceptedIsExternal(raw: string, ip: IpReader)
    requires ValidateUrl(raw, ip).Ok?
    ensures var url := Trim(raw, Blanks);
            && ByteLength(url) <= 2048 && |url| > 8 && url[..8] == "https://"
            && '@' !in url[8..][..AuthorityEnd(url[8..])]
            && ValidateHost(ValidateUrl(raw, ip).value.host, ip).None?
  {
  }

  /**
   Redaction is a fixed point: for every accepted webhook URL, validating its
   redacted form succeeds and gives the same host, port, path flag, query flag
   and redacted form, for bracketed hosts too.
   */
  lemma {:induction false} RedactionIsFixedPoint(raw: string, ip: IpReader)
    requires ReadsIpText(ip)
    ensures ValidateUrl(raw, ip).Ok? ==> ValidateUrl(ValidateUrl(raw, ip).value.redacted, ip) == ValidateUrl(raw, ip)
  {
    if ValidateUrl(raw, ip).Ok? {
      RestIsAccepted(Trim(raw, Blanks)[|SCHEME|..], ip);
      var w := ValidateUrl(raw, ip).value;
      RedactedValidates(w.host, w.port, w.path, w.query, ip);
    }
  }

  // ---------------------------------------------------------------- what is measured, lowered and flagged

  /** The text as Unicode scalar values. */
  function Scalars(s: string): (cs: seq<Scalar>)
    ensures |cs| == |s|
  {
    if s == "" then [] else Scalars(s[..|s| - 1]) + [s[|s| - 1] as int]
  }

  /** The length limit counts the bytes of the text in UTF-8. */
  lemma {:induction false} LengthIsUtf8(s: string)
    ensures ByteLength(s) == |EncodedText(Scalars(s))|
  {
    if s != "" {
      var front, c: Scalar := s[..|s| - 1], s[|s| - 1] as int;
      LengthIsUtf8(front);
      assert Scalars(s)[..|s| - 1] == Scalars(front);
      JoinedAppend(Forms(Scalars(front)), Encoded(c));
    }
  }

  /** Hosts are lowered letter by letter, and a path is flagged as soon as it has a character of its own. */
  lemma {:induction false} LoweredAndFlagged(host: string, i: nat, k: nat, after: string)
    requires i < |host| && k < 26
    ensures host[i] == 'A' + k as char ==> Lower(host)[i] == 'a' + k as char
    ensures !('A' <= host[i] <= 'Z') ==> Lower(host)[i] == host[i]
    ensures PathPresent(after) <==> |after| > 1 && after[0] == '/' && after[1] != '?' && after[1] != '#'
  {
  }
}
