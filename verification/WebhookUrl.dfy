/**
 Alert webhook URLs: validation, and the redacted form that is shown instead.

 Which host texts are IP literals, and which of those are forbidden, is a
 parameter; the model only relies on the characters such literals are made of.
 */
module WebhookUrl {
  import opened Wrappers
  import opened Text

  datatype UrlError =
    | EmptyUrl | TooLong | NotHttps | NoHost | UserInfo | BadHost | UnbracketedIpv6 | BadHostOrPort
    | AfterHost | EmptyPort | BadPort | EmptyHost | NotRoutable | ForbiddenIp | NotAscii | BadDnsName

  datatype Webhook = Webhook(host: string, port: Option<nat>, path: bool, query: bool, redacted: string)

  // ---------------------------------------------------------------- small text functions

  predicate IsDelimiter(c: char) { c == '/' || c == '?' || c == '#' }

  /** Where the authority ends. */
  function AuthorityEnd(s: string): (i: nat)
    ensures i <= |s|
    ensures i < |s| ==> IsDelimiter(s[i])
    ensures forall j :: 0 <= j < i ==> !IsDelimiter(s[j])
  {
    if s == "" || IsDelimiter(s[0]) then 0 else 1 + AuthorityEnd(s[1..])
  }

  function LowerChar(c: char): char {
    if 'A' <= c <= 'Z' then (c as int + 32) as char else c
  }

  function Lower(s: string): (r: string)
    ensures |r| == |s| && forall i :: 0 <= i < |s| ==> r[i] == LowerChar(s[i])
  {
    if s == "" then "" else [LowerChar(s[0])] + Lower(s[1..])
  }

  function CharBytes(c: char): nat {
    if c < '\U{80}' then 1 else if c < '\U{800}' then 2 else if c < '\U{10000}' then 3 else 4
  }

  /** Length in UTF-8. */
  function ByteLength(s: string): nat {
    if s == "" then 0 else ByteLength(s[..|s| - 1]) + CharBytes(s[|s| - 1])
  }

  predicate StartsWith(s: string, prefix: string) { |prefix| <= |s| && s[..|prefix|] == prefix }

  predicate EndsWith(s: string, suffix: string) { |suffix| <= |s| && s[|s| - |suffix|..] == suffix }

  // ---------------------------------------------------------------- authority

  const PORT_MAX: nat := 65535

  /** An unsigned 16-bit number, with an optional plus sign. */
  function ParsePort(raw: string): Option<nat> {
    var digits := if raw != "" && raw[0] == '+' then raw[1..] else raw;
    if digits == "" || !AllDigits(digits) || DigitsValue(digits) > PORT_MAX then None else Some(DigitsValue(digits))
  }

  function ParseOptionalPort(after: string): Result<Option<nat>, UrlError> {
    if after == "" then Ok(None)
    else if after[0] != ':' then Err(AfterHost)
    else if after[1..] == "" then Err(EmptyPort)
    else if ParsePort(after[1..]).None? then Err(BadPort)
    else Ok(Some(ParsePort(after[1..]).value))
  }

  function ParseBracketed(rest: string): Result<(string, Option<nat>), UrlError> {
    var end := IndexOf(rest, ']');
    if end == |rest| then Err(BadHost)
    else
      var port := ParseOptionalPort(rest[end + 1..]);
      if port.Err? then Err(port.error) else Ok((rest[..end], port.value))
  }

  function ParsePlain(authority: string): Result<(string, Option<nat>), UrlError> {
    var colon := IndexOf(authority, ':');
    if colon == |authority| then Ok((authority, None))
    else
      var host, port := authority[..colon], authority[colon + 1..];
      if ':' in port then Err(UnbracketedIpv6)
      else if host == "" || port == "" then Err(BadHostOrPort)
      else if ParsePort(port).None? then Err(BadPort)
      else Ok((host, Some(ParsePort(port).value)))
  }

  function ParseAuthority(authority: string): Result<(string, Option<nat>), UrlError> {
    if authority != "" && authority[0] == '[' then ParseBracketed(authority[1..]) else ParsePlain(authority)
  }

  // ---------------------------------------------------------------- host

  function NormalizeHost(host: string): string { Lower(TrimEnd(host, Dots)) }

  predicate IsAlnum(c: char) { '0' <= c <= '9' || 'A' <= c <= 'Z' || 'a' <= c <= 'z' }

  predicate LabelOk(part: string) {
    && 0 < |part| <= 63
    && IsAlnum(part[0]) && IsAlnum(part[|part| - 1])
    && forall i :: 0 <= i < |part| ==> IsAlnum(part[i]) || part[i] == '-'
  }

  predicate LabelsOk(host: string)
    decreases |host|
  {
    var dot := IndexOf(host, '.');
    LabelOk(host[..dot]) && (dot < |host| ==> LabelsOk(host[dot + 1..]))
  }

  /** `Some(true)` for a forbidden address, `Some(false)` for another literal, `None` for anything else. */
  type IpReader = string -> Option<bool>

  function ValidateHost(host: string, ip: IpReader): Option<UrlError> {
    if host == "" then Some(EmptyHost)
    else if || host == "localhost" || EndsWith(host, ".localhost")
            || EndsWith(host, ".local") || EndsWith(host, ".internal")
    then Some(NotRoutable)
    else if ip(host).Some? then (if ip(host).value then Some(ForbiddenIp) else None)
    else if !(forall i :: 0 <= i < |host| ==> host[i] < '\U{80}') || |host| > 253 then Some(NotAscii)
    else if !LabelsOk(host) then Some(BadDnsName)
    else None
  }

  // ---------------------------------------------------------------- the whole URL

  const SCHEME: string := "https://"
  const PATH_MARK: string := "/[REDACTED_PATH]"
  const QUERY_MARK: string := "?[REDACTED_QUERY]"

  function HostText(host: string): string { if ':' in host then "[" + host + "]" else host }

  function PortText(port: Option<nat>): string { if port.None? then "" else ":" + Decimal(port.value) }

  function PathText(path: bool): string { if path then PATH_MARK else "" }

  function QueryText(query: bool): string { if query then QUERY_MARK else "" }

  function RedactedUrl(host: string, port: Option<nat>, path: bool, query: bool): string {
    SCHEME + HostText(host) + PortText(port) + PathText(path) + QueryText(query)
  }

  predicate PathPresent(after: string) {
    after != "" && after[0] == '/' && PathLength(after[1..]) > 0
  }

  /** The length of the path up to a query or fragment. */
  function PathLength(s: string): (i: nat)
    ensures i <= |s|
  {
    if s == "" || s[0] == '?' || s[0] == '#' then 0 else 1 + PathLength(s[1..])
  }

  function ValidateUrl(raw: string, ip: IpReader): Result<Webhook, UrlError> {
    var trimmed := Trim(raw, Blanks);
    if trimmed == "" then Err(EmptyUrl)
    else if ByteLength(trimmed) > 2048 then Err(TooLong)
    else if !StartsWith(trimmed, SCHEME) then Err(NotHttps)
    else ValidateRest(trimmed[|SCHEME|..], ip)
  }

  function ValidateRest(rest: string, ip: IpReader): Result<Webhook, UrlError> {
    var end := AuthorityEnd(rest);
    var authority, after := rest[..end], rest[end..];
    if authority == "" then Err(NoHost)
    else if '@' in authority then Err(UserInfo)
    else
      var parsed := ParseAuthority(authority);
      if parsed.Err? then Err(parsed.error)
      else
        var host := NormalizeHost(parsed.value.0);
        var bad := ValidateHost(host, ip);
        if bad.Some? then Err(bad.value)
        else
          var path, query := PathPresent(after), '?' in after;
          Ok(Webhook(host, parsed.value.1, path, query, RedactedUrl(host, parsed.value.1, path, query)))
  }

  lemma {:induction false} Regroup(a: string, b: string, c: string)
    ensures (a + b) + c == a + (b + c) && a + "" == a
  {
  }

  /** The redacted text, pushed together piece by piece. */
  method BuildRedacted(host: string, port: Option<nat>, path: bool, query: bool) returns (redacted: string)
    ensures redacted == RedactedUrl(host, port, path, query)
  {
    redacted := SCHEME + HostText(host);
    ghost var front := redacted;
    if port.Some? {
      redacted := redacted + ":";
      redacted := redacted + Decimal(port.value);
      Regroup(front, ":", Decimal(port.value));
    }
    Regroup(front, "", "");
    assert redacted == front + PortText(port);
    front := redacted;
    if path {
      redacted := redacted + PATH_MARK;
    }
    Regroup(front, "", "");
    assert redacted == front + PathText(path);
    front := redacted;
    if query {
      redacted := redacted + QUERY_MARK;
    }
    Regroup(front, "", "");
    assert redacted == front + QueryText(query);
  }
}
