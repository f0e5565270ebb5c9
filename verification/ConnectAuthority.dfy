/**
 * The authority of a CONNECT request, parsed and formatted. Whether a text is an IPv6 address is left
 * to a predicate, of which only one thing is needed: an address has a colon.
 */
module ConnectAuthority {
  import opened Wrappers
  import opened Text

  datatype Authority = Authority(host: string, port: nat)

  datatype AuthorityError =
    | NotAscii
    | EmptyOrSpaced
    | BadBrackets
    | MissingPort
    | BadScope
    | BadAddress
    | NotOneSeparator
    | BadHost
    | HostTooLong
    | BadPort
    | TooManyDigits
    | PortOutOfRange

  type Validity = string -> bool

  /** What `int(text, 10)` takes by default. */
  const MAX_INT_DIGITS: nat := 4300

  // ---------------------------------------------------------------- characters and labels

  predicate IsAscii(s: string) {
    forall i :: 0 <= i < |s| ==> s[i] as int < 128
  }

  /** `str.isspace` on ASCII. */
  predicate IsPythonSpace(c: char) {
    c == ' ' || '\t' <= c <= '\r' || '\U{1C}' <= c <= '\U{1F}'
  }

  predicate HasSpace(s: string) {
    exists i :: 0 <= i < |s| && IsPythonSpace(s[i])
  }

  predicate IsWordChar(c: char) {
    '0' <= c <= '9' || 'a' <= c <= 'z' || 'A' <= c <= 'Z' || c == '_'
  }

  /** A host label: at most 63 word characters and hyphens, with no hyphen at either end. */
  predicate IsLabel(s: string) {
    && 1 <= |s| <= 63
    && IsWordChar(s[0]) && IsWordChar(s[|s| - 1])
    && forall i :: 0 <= i < |s| ==> IsWordChar(s[i]) || s[i] == '-'
  }

  predicate IsScope(s: string) {
    1 <= |s| <= 64 && forall i :: 0 <= i < |s| ==> IsWordChar(s[i]) || s[i] == '.' || s[i] == '-'
  }

  /** `host.split(".")` */
  function Labels(host: string): (r: seq<string>)
    ensures |r| >= 1
    decreases |host|
  {
    var dot := FirstIndex(host, '.');
    if dot < 0 then [host] else [host[..dot]] + Labels(host[dot + 1..])
  }

  predicate AllLabels(host: string) {
    forall l :: l in Labels(host) ==> IsLabel(l)
  }

  // ---------------------------------------------------------------- parsing and formatting

  function ParsePort(host: string, text: string): Result<Authority, AuthorityError> {
    if text == [] || !AllDecimal(text) then Err(BadPort)
    else if |text| > MAX_INT_DIGITS then Err(TooManyDigits)
    else
      var port := Number(text);
      if port < 1 || port > 65535 then Err(PortOutOfRange) else Ok(Authority(host, port))
  }

  /** A scope, if there is one, is well formed, and what precedes it is an address. */
  function CheckAddress(host: string, isAddress: Validity): Result<(), AuthorityError> {
    var percent := FirstIndex(host, '%');
    var address := if percent < 0 then host else host[..percent];
    if percent >= 0 && !IsScope(host[percent + 1..]) then Err(BadScope)
    else if !isAddress(address) then Err(BadAddress)
    else Ok(())
  }

  function ParseBracketed(target: string, isAddress: Validity): Result<Authority, AuthorityError> {
    var close := FirstIndex(target, ']');
    if close <= 1 || close + 1 >= |target| || target[close + 1] != ':' then Err(BadBrackets)
    else
      var host, port := target[1..close], target[close + 2..];
      if port == [] then Err(MissingPort)
      else
        var checked := CheckAddress(host, isAddress);
        if checked.Err? then Err(checked.error) else ParsePort(host, port)
  }

  function ParseNamed(target: string): Result<Authority, AuthorityError> {
    var colon := LastIndex(target, ':');
    if Count(target, ':') != 1 || colon < 0 then Err(NotOneSeparator)
    else
      var host, port := target[..colon], target[colon + 1..];
      if host == [] || !AllLabels(host) then Err(BadHost)
      else if |host| > 253 then Err(HostTooLong)
      else ParsePort(host, port)
  }

  /** `parse_connect_authority` */
  function Parse(target: string, isAddress: Validity): Result<Authority, AuthorityError> {
    if !IsAscii(target) then Err(NotAscii)
    else if target == [] || HasSpace(target) then Err(EmptyOrSpaced)
    else if target[0] == '[' then ParseBracketed(target, isAddress)
    else ParseNamed(target)
  }

  /** `format_connect_authority` */
  function Format(a: Authority): string {
    (if ':' in a.host then "[" + a.host + "]" else a.host) + ":" + Decimal(a.port)
  }

  // ---------------------------------------------------------------- the grammar

  predicate PortText(text: string, port: nat) {
    text != [] && AllDecimal(text) && |text| <= MAX_INT_DIGITS && Number(text) == port && 1 <= port <= 65535
  }

  predicate AddressHost(host: string, isAddress: Validity) {
    host != [] && ']' !in host && CheckAddress(host, isAddress).Ok?
  }

  predicate NamedHost(host: string) {
    host != [] && ':' !in host && AllLabels(host) && |host| <= 253
  }

  /** How an authority may be written, given the text of its port. */
  predicate Written(target: string, a: Authority, port: string, isAddress: Validity) {
    && PortText(port, a.port) && IsAscii(a.host) && !HasSpace(a.host)
    && (|| (AddressHost(a.host, isAddress) && target == "[" + a.host + "]:" + port)
        || (NamedHost(a.host) && target == a.host + ":" + port))
  }

  // ---------------------------------------------------------------- positions

  lemma PortHasNoColon(text: string)
    requires AllDecimal(text)
    ensures ':' !in text && IsAscii(text) && !HasSpace(text)
  {
  }

  // ---------------------------------------------------------------- the parser follows the grammar

  lemma SpacesAndAscii(a: string, b: string)
    ensures IsAscii(a + b) <==> IsAscii(a) && IsAscii(b)
    ensures HasSpace(a + b) <==> HasSpace(a) || HasSpace(b)
  {
    var s := a + b;
    assert forall i :: 0 <= i < |a| ==> s[i] == a[i];
    assert forall i :: 0 <= i < |b| ==> s[|a| + i] == b[i];
    if IsAscii(s) {
      forall i | 0 <= i < |b| ensures b[i] as int < 128 {
        assert s[|a| + i] == b[i];
      }
    }
    if HasSpace(b) {
      var i :| 0 <= i < |b| && IsPythonSpace(b[i]);
      assert IsPythonSpace(s[|a| + i]);
    }
  }

  lemma ParseOfNamed(host: string, port: string)
    requires ':' !in host && ':' !in port && host != []
    ensures ParseNamed(host + ":" + port)
         == if !AllLabels(host) then Err(BadHost) else if |host| > 253 then Err(HostTooLong) else ParsePort(host, port)
  {
    var target := host + [':'] + port;
    LastIndexIs(host, ':', port);
    CountOfConcat(host + [':'], port, ':');
    CountOfConcat(host, [':'], ':');
    CountZero(host, ':');
    CountZero(port, ':');
    assert Count([':'], ':') == 1 by { assert [':'][1..] == []; }
    assert target[..|host|] == host && target[|host| + 1..] == port;
  }

  lemma ParseOfBracketed(host: string, port: string, isAddress: Validity)
    requires ']' !in host && host != [] && port != []
    ensures ParseBracketed("[" + host + "]:" + port, isAddress)
         == var checked := CheckAddress(host, isAddress);
            if checked.Err? then Err(checked.error) else ParsePort(host, port)
  {
    var target := "[" + host + "]:" + port;
    var start: string := "[" + host;
    assert target == start + [']'] + (":" + port);
    assert ']' !in start;
    FirstIndexIs(start, ']', ":" + port);
    assert target[1..|start|] == host && target[|start| + 2..] == port && target[|start| + 1] == ':';
  }

  /** Whatever the grammar writes, the parser reads. */
  lemma ReadsWhatIsWritten(target: string, a: Authority, port: string, isAddress: Validity)
    requires Written(target, a, port, isAddress)
    ensures Parse(target, isAddress) == Ok(a)
  {
    PortHasNoColon(port);
    if AddressHost(a.host, isAddress) && target == "[" + a.host + "]:" + port {
      ParseOfBracketed(a.host, port, isAddress);
      BracketedIsPlain(a.host, port);
    } else {
      ParseOfNamed(a.host, port);
      NamedIsPlain(a.host, port);
    }
  }

  lemma BracketedIsPlain(host: string, port: string)
    requires IsAscii(host) && !HasSpace(host) && IsAscii(port) && !HasSpace(port)
    ensures var target := "[" + host + "]:" + port;
            IsAscii(target) && !HasSpace(target) && target != [] && target[0] == '['
  {
    SpacesAndAscii("[", host);
    SpacesAndAscii("[" + host, "]:");
    SpacesAndAscii("[" + host + "]:", port);
  }

  lemma NamedIsPlain(host: string, port: string)
    requires IsAscii(host) && !HasSpace(host) && IsAscii(port) && !HasSpace(port) && host != [] && AllLabels(host)
    ensures var target := host + ":" + port;
            IsAscii(target) && !HasSpace(target) && target != [] && target[0] != '['
  {
    SpacesAndAscii(host, ":");
    SpacesAndAscii(host + ":", port);
    assert Labels(host)[0] in Labels(host);
    assert (host + ":" + port)[0] == host[0];
  }

  lemma ReadsOnlyBracketed(target: string, isAddress: Validity) returns (port: string)
    requires Parse(target, isAddress).Ok? && target[0] == '['
    ensures Written(target, Parse(target, isAddress).value, port, isAddress)
  {
    var host;
    host, port := BracketedParts(target, isAddress);
    WithinBrackets(host, port);
  }

  lemma BracketedParts(target: string, isAddress: Validity) returns (host: string, port: string)
    requires target != [] && target[0] == '[' && ParseBracketed(target, isAddress).Ok?
    ensures target == "[" + host + "]:" + port && AddressHost(host, isAddress)
    ensures ParsePort(host, port) == ParseBracketed(target, isAddress)
  {
    var close := FirstIndex(target, ']');
    host, port := target[1..close], target[close + 2..];
    AroundBrackets(target, close);
    NoneBeforeFirst(target, ']');
    assert ']' !in host;
    assert CheckAddress(host, isAddress).Ok?;
  }

  lemma AroundBrackets(target: string, close: nat)
    requires 1 < close && close + 1 < |target|
    requires target[0] == '[' && target[close] == ']' && target[close + 1] == ':'
    ensures target == "[" + target[1..close] + "]:" + target[close + 2..]
  {
    assert target == target[..1] + target[1..close] + target[close..close + 2] + target[close + 2..];
    assert target[..1] == "[" && target[close..close + 2] == "]:";
  }

  lemma WithinBrackets(host: string, port: string)
    ensures var target := "[" + host + "]:" + port;
            && (IsAscii(target) ==> IsAscii(host))
            && (HasSpace(host) ==> HasSpace(target))
  {
    SpacesAndAscii("[" + host + "]:", port);
    SpacesAndAscii("[" + host, "]:");
    SpacesAndAscii("[", host);
  }

  lemma ReadsOnlyNamed(target: string, isAddress: Validity) returns (port: string)
    requires Parse(target, isAddress).Ok? && target[0] != '['
    ensures Written(target, Parse(target, isAddress).value, port, isAddress)
  {
    var colon := LastIndex(target, ':');
    var host := target[..colon];
    port := target[colon + 1..];
    assert target == host + ":" + port;
    SpacesAndAscii(host + ":", port);
    SpacesAndAscii(host, ":");
    CountOfConcat(host + [':'], port, ':');
    CountOfConcat(host, [':'], ':');
    CountZero(host, ':');
    assert Count([':'], ':') == 1 by { assert [':'][1..] == []; }
  }

  /** Whatever the parser reads was written by the grammar. */
  lemma ReadsOnlyWhatIsWritten(target: string, isAddress: Validity) returns (port: string)
    requires Parse(target, isAddress).Ok?
    ensures Written(target, Parse(target, isAddress).value, port, isAddress)
  {
    if target[0] == '[' {
      port := ReadsOnlyBracketed(target, isAddress);
    } else {
      port := ReadsOnlyNamed(target, isAddress);
    }
  }

  /** The accepted targets are exactly the written ones, and each is read as what was written. */
  lemma ParseIsTheGrammar(target: string, a: Authority, isAddress: Validity)
    ensures Parse(target, isAddress) == Ok(a) <==> exists port :: Written(target, a, port, isAddress)
  {
    if Parse(target, isAddress) == Ok(a) {
      var port := ReadsOnlyWhatIsWritten(target, isAddress);
    }
    if port :| Written(target, a, port, isAddress) {
      ReadsWhatIsWritten(target, a, port, isAddress);
    }
  }

  // ---------------------------------------------------------------- the round trip

  /** An address has a colon. */
  ghost predicate AddressesHaveColons(isAddress: Validity) {
    forall s :: isAddress(s) ==> ':' in s
  }

  lemma AddressHostHasColon(host: string, isAddress: Validity)
    requires AddressesHaveColons(isAddress) && CheckAddress(host, isAddress).Ok?
    ensures ':' in host
  {
    var percent := FirstIndex(host, '%');
    var address := if percent < 0 then host else host[..percent];
    assert ':' in address;
  }

  /** A generous bound on the digits of a number. */
  lemma {:induction false} DecimalIsShort(n: nat)
    ensures |Decimal(n)| <= 1 + n / 10
  {
    if n >= 10 {
      DecimalIsShort(n / 10);
    }
  }

  lemma PortIsShort(port: nat)
    requires port <= 65535
    ensures |Decimal(port)| <= MAX_INT_DIGITS
  {
    DecimalIsShort(port / 10);
  }

  /** A written authority formats as itself with its port in plain decimal. */
  lemma FormatRewritesThePort(target: string, a: Authority, port: string, isAddress: Validity)
    requires AddressesHaveColons(isAddress) && Written(target, a, port, isAddress)
    ensures Written(Format(a), a, Decimal(a.port), isAddress)
    ensures Format(a) == target <==> port == Decimal(a.port)
  {
    NumberOfDecimal(a.port);
    PortIsShort(a.port);
    var plain := Decimal(a.port);
    if AddressHost(a.host, isAddress) && target == "[" + a.host + "]:" + port {
      AddressHostHasColon(a.host, isAddress);
      var start: string := "[" + a.host + "]:";
      assert "[" + a.host + "]" + ":" == start;
      assert Format(a) == start + plain;
      SameTail(start, port, plain);
    } else {
      var start: string := a.host + ":";
      assert Format(a) == start + plain;
      SameTail(start, port, plain);
    }
  }

  lemma SameTail(start: string, a: string, b: string)
    ensures start + a == start + b <==> a == b
  {
    assert (start + a)[|start|..] == a && (start + b)[|start|..] == b;
  }

  /** Parsing, formatting and parsing again gives the same host and port, scopes and leading zeros included. */
  lemma RoundTrip(target: string, isAddress: Validity)
    requires AddressesHaveColons(isAddress) && Parse(target, isAddress).Ok?
    ensures Parse(Format(Parse(target, isAddress).value), isAddress) == Parse(target, isAddress)
  {
    var a := Parse(target, isAddress).value;
    var port := ReadsOnlyWhatIsWritten(target, isAddress);
    FormatRewritesThePort(target, a, port, isAddress);
    ReadsWhatIsWritten(Format(a), a, Decimal(a.port), isAddress);
  }

  /** What follows the last colon. */
  function PortTextOf(target: string): string {
    target[LastIndex(target, ':') + 1..]
  }

  lemma PortTextIs(target: string, a: Authority, port: string, isAddress: Validity)
    requires Written(target, a, port, isAddress)
    ensures PortTextOf(target) == port
  {
    PortHasNoColon(port);
    var start := if AddressHost(a.host, isAddress) && target == "[" + a.host + "]:" + port
                 then "[" + a.host + "]" else a.host;
    assert target == start + [':'] + port;
    LastIndexIs(start, ':', port);
  }

  lemma NoLeadingZero(text: string, port: nat)
    requires PortText(text, port)
    ensures text == Decimal(port) <==> text[0] != '0'
  {
    NumberOfDecimal(port);
    if text[0] != '0' {
      DecimalOfNumber(text);
    }
  }

  /** Formatting gives back the very target exactly when its port has no leading zero. */
  lemma FormatGivesItBack(target: string, isAddress: Validity)
    requires AddressesHaveColons(isAddress) && Parse(target, isAddress).Ok?
    ensures PortTextOf(target) != []
    ensures Format(Parse(target, isAddress).value) == target <==> PortTextOf(target)[0] != '0'
  {
    var a := Parse(target, isAddress).value;
    var port := ReadsOnlyWhatIsWritten(target, isAddress);
    FormatRewritesThePort(target, a, port, isAddress);
    PortTextIs(target, a, port, isAddress);
    NoLeadingZero(port, a.port);
  }
}
