/** What the entries of a no-proxy list mean: which addresses, hosts and ports each of them covers. */
module NoProxyMeaning {
  import opened Wrappers
  import opened Text
  import opened NoProxy

  // ---------------------------------------------------------------- networks

  /** The i-th bit of an address of that many bits, the most significant first. */
  function Bit(address: nat, width: nat, i: nat): nat
    requires i < width
  {
    address / PowerOfTwo(width - 1 - i) % 2
  }

  predicate SameBits(a: nat, b: nat, width: nat, count: nat)
    requires count <= width
  {
    forall i :: 0 <= i < count ==> Bit(a, width, i) == Bit(b, width, i)
  }

  lemma QuotientIs(a: nat, m: nat, q: nat, r: nat)
    requires a == q * m + r && r < m
    ensures a / m == q
  {
    var p := a / m;
    assert a == p * m + a % m;
    if q > p {
      FurtherApart(q, p, m);
    } else if p > q {
      FurtherApart(p, q, m);
    }
  }

  lemma FurtherApart(x: nat, y: nat, m: nat)
    requires x > y
    ensures x * m >= y * m + m
  {
    var k := x - y - 1;
    assert x == y + 1 + k;
    assert (y + 1 + k) * m == y * m + m + k * m;
    assert k * m >= 0;
  }

  lemma HalvedQuotient(a: nat, m: nat)
    requires m >= 1
    ensures a / (2 * m) == a / m / 2
  {
    var q, r := a / m, a % m;
    var s, odd := q / 2, q % 2;
    assert a == q * m + r;
    assert q == 2 * s + odd;
    assert q * m == s * (2 * m) + odd * m by { Expand(s, odd, m); }
    assert odd * m + r < 2 * m by { AtMostOne(odd, m); }
    QuotientIs(a, 2 * m, s, odd * m + r);
  }

  lemma Expand(s: nat, odd: nat, m: nat)
    ensures (2 * s + odd) * m == s * (2 * m) + odd * m
  {
  }

  lemma AtMostOne(odd: nat, m: nat)
    requires odd <= 1
    ensures odd * m <= m
  {
  }

  /** One bit more of a prefix. */
  lemma OneMoreBit(a: nat, width: nat, i: nat)
    requires i < width
    ensures a / PowerOfTwo(width - i) == a / PowerOfTwo(width - (i + 1)) / 2
    ensures Bit(a, width, i) == a / PowerOfTwo(width - (i + 1)) % 2
  {
    HalvedQuotient(a, PowerOfTwo(width - (i + 1)));
  }

  lemma {:induction false} PrefixIsBits(a: nat, b: nat, width: nat, count: nat)
    requires count <= width && a < PowerOfTwo(width) && b < PowerOfTwo(width)
    ensures a / PowerOfTwo(width - count) == b / PowerOfTwo(width - count) <==> SameBits(a, b, width, count)
  {
    if count == 0 {
      QuotientIs(a, PowerOfTwo(width), 0, a);
      QuotientIs(b, PowerOfTwo(width), 0, b);
    } else {
      var i := count - 1;
      PrefixIsBits(a, b, width, i);
      OneMoreBit(a, width, i);
      OneMoreBit(b, width, i);
    }
  }

  function WidthOf(ip: Ip): nat {
    if ip.V4? then 32 else 128
  }

  predicate IsAddress(ip: Ip) {
    ip.bits < PowerOfTwo(WidthOf(ip))
  }

  /** The two are of one family, and agree in the first so many bits. */
  predicate Agree(address: Ip, network: Ip, prefix: nat) {
    && address.V4? == network.V4?
    && prefix <= WidthOf(network)
    && SameBits(address.bits, network.bits, WidthOf(network), prefix)
  }

  /** Exactly which addresses lie in a network. */
  lemma InCidrIs(address: Ip, network: Ip, prefix: nat)
    requires IsAddress(address) && IsAddress(network)
    ensures InCidr(address, network, prefix) <==> Agree(address, network, prefix)
  {
    var width := WidthOf(network);
    if address.V4? == network.V4? {
      SameFamily(address, network, prefix, width);
      if prefix <= width {
        PrefixIsBits(address.bits, network.bits, width, prefix);
      }
    }
  }

  lemma SameFamily(address: Ip, network: Ip, prefix: nat, width: nat)
    requires address.V4? == network.V4? && width == WidthOf(network)
    ensures InCidr(address, network, prefix) <==> SamePrefix(address.bits, network.bits, width, prefix)
  {
  }

  /** The loopback addresses: the network 127.0.0.0/8, and ::1. */
  lemma LoopbackIs(ip: Ip)
    ensures IsLoopback(ip) <==> InCidr(ip, V4(0x7F00_0000), 8) || ip == V6(1)
  {
    TwentyFour();
  }

  lemma TwentyFour()
    ensures PowerOfTwo(24) == 0x100_0000
  {
    assert PowerOfTwo(8) == 256;
    assert PowerOfTwo(16) == 65536;
  }

  // ---------------------------------------------------------------- numbers and trimming

  function Repeated(c: char, n: nat): (r: string)
    ensures |r| == n
  {
    seq(n, i => c)
  }

  lemma {:induction false} NumberWithZeros(zeros: nat, s: string)
    requires AllDecimal(s)
    ensures AllDecimal(Repeated('0', zeros) + s) && Number(Repeated('0', zeros) + s) == Number(s)
    decreases |s|, zeros
  {
    var all := Repeated('0', zeros) + s;
    if s != [] {
      NumberWithZeros(zeros, s[..|s| - 1]);
      assert all[..|all| - 1] == Repeated('0', zeros) + s[..|s| - 1];
    } else if zeros > 0 {
      NumberWithZeros(zeros - 1, []);
      assert all[..|all| - 1] == Repeated('0', zeros - 1) + [];
    }
  }

  /** The digits of a number are zeros and its decimal form. */
  lemma {:induction false} NumberSpelled(s: string) returns (zeros: nat)
    requires s != [] && AllDecimal(s)
    ensures s == Repeated('0', zeros) + Decimal(Number(s))
  {
    if s[0] != '0' {
      zeros := 0;
      DecimalOfNumber(s);
      assert Repeated('0', 0) + s == s;
    } else if |s| == 1 {
      zeros := 0;
      LoneZero(s);
    } else {
      assert s == ['0'] + s[1..];
      var fewer := NumberSpelled(s[1..]);
      zeros := fewer + 1;
      ZeroInFront(s, s[1..], fewer, Decimal(Number(s[1..])));
    }
  }

  lemma LoneZero(s: string)
    requires s == ['0']
    ensures Number(s) == 0 && s == Repeated('0', 0) + Decimal(0)
  {
    assert s[..0] == [];
  }

  lemma ZeroInFront(s: string, tail: string, fewer: nat, digits: string)
    requires s == ['0'] + tail && AllDecimal(tail) && tail == Repeated('0', fewer) + digits
    ensures AllDecimal(s) && Number(s) == Number(tail) && s == Repeated('0', fewer + 1) + digits
  {
    assert Repeated('0', 1) == ['0'];
    NumberWithZeros(1, tail);
    assert Repeated('0', fewer + 1) == ['0'] + Repeated('0', fewer);
  }

  /** A number as `str::parse` takes it: perhaps a plus sign, perhaps zeros, then its digits. */
  ghost predicate Spells(s: string, n: nat) {
    exists plus: bool, zeros: nat :: s == SpelledText(plus, zeros, n)
  }

  function SpelledText(plus: bool, zeros: nat, n: nat): string {
    (if plus then ['+'] else []) + (Repeated('0', zeros) + Decimal(n))
  }

  lemma DigitsNotPlus(s: string)
    requires s != [] && AllDecimal(s)
    ensures s[0] != '+'
  {
  }

  /** Exactly which texts are read as a number. */
  lemma ParseUnsignedIs(s: string, max: nat, n: nat)
    ensures ParseUnsigned(s, max) == Some(n) <==> n <= max && Spells(s, n)
  {
    if ParseUnsigned(s, max) == Some(n) {
      var plus := s[0] == '+';
      var digits := if plus then s[1..] else s;
      var zeros := NumberSpelled(digits);
      assert s == SpelledText(plus, zeros, n);
    }
    if Spells(s, n) {
      var plus, zeros :| s == SpelledText(plus, zeros, n);
      SpelledIsRead(plus, zeros, n);
    }
  }

  lemma SpelledIsRead(plus: bool, zeros: nat, n: nat)
    ensures forall max :: ParseUnsigned(SpelledText(plus, zeros, n), max) == if n <= max then Some(n) else None
  {
    var digits := Repeated('0', zeros) + Decimal(n);
    NumberOfDecimal(n);
    NumberWithZeros(zeros, Decimal(n));
    DigitsNotPlus(digits);
    var s := SpelledText(plus, zeros, n);
    assert plus ==> s[1..] == digits;
    assert !plus ==> s == digits;
  }

  // ---------------------------------------------------------------- pieces with a slash

  /**
   * What an entry with a slash covers: the addresses of the network before it, when what is before it is an
   * address and what is after it a number of bits; and nothing otherwise.
   */
  lemma NetworkMeans(t: Target, network: string, prefix: string, parse: IpParser)
    requires '/' !in prefix
    requires t.address.Some? ==> IsAddress(t.address.value)
    requires parse(TrimBrackets(network)).Some? ==> IsAddress(parse(TrimBrackets(network)).value)
    ensures PieceMatches(t, network + ['/'] + prefix, parse)
       <==> && t.address.Some? && parse(TrimBrackets(network)).Some?
            && exists n :: 0 <= n <= 255 && Spells(prefix, n)
                           && Agree(t.address.value, parse(TrimBrackets(network)).value, n)
  {
    var piece := network + ['/'] + prefix;
    LastIndexIs(network, '/', prefix);
    assert piece[|network|] == '/';
    NotSpecial(piece, |network|);
    assert piece[..|network|] == network && piece[|network| + 1..] == prefix;
    NetworkCovers(t, network, prefix, piece, parse);
  }

  /** A piece with a slash is neither of the two special ones. */
  lemma NotSpecial(piece: string, slash: nat)
    requires slash < |piece| && piece[slash] == '/'
    ensures piece != "*" && LowerAscii(piece) != "<local>"
  {
    assert LowerAscii(piece)[slash] == '/';
  }

  lemma NetworkCovers(t: Target, network: string, prefix: string, piece: string, parse: IpParser)
    requires |network| < |piece| && piece[..|network|] == network && piece[|network| + 1..] == prefix
    requires t.address.Some? ==> IsAddress(t.address.value)
    requires parse(TrimBrackets(network)).Some? ==> IsAddress(parse(TrimBrackets(network)).value)
    ensures CidrMatches(t, piece, |network|, parse)
       <==> && t.address.Some? && parse(TrimBrackets(network)).Some?
            && exists n :: 0 <= n <= 255 && Spells(prefix, n)
                           && Agree(t.address.value, parse(TrimBrackets(network)).value, n)
  {
    var parsed := parse(TrimBrackets(network));
    var bits := ParseUnsigned(prefix, 255);
    if t.address.Some? && parsed.Some? {
      if bits.Some? {
        ParseUnsignedIs(prefix, 255, bits.value);
        InCidrIs(t.address.value, parsed.value, bits.value);
      }
      if n :| 0 <= n <= 255 && Spells(prefix, n) && Agree(t.address.value, parsed.value, n) {
        ParseUnsignedIs(prefix, 255, n);
      }
    }
  }

  // ---------------------------------------------------------------- trimming

  predicate AllBrackets(s: string) {
    forall i :: 0 <= i < |s| ==> IsBracket(s[i])
  }

  predicate Unbracketed(s: string) {
    s == [] || (!IsBracket(s[0]) && !IsBracket(s[|s| - 1]))
  }

  /** Exactly the dots at the end are trimmed. */
  lemma {:induction false} TrimDotsIs(s: string) returns (dots: nat)
    ensures s == TrimDots(s) + Repeated('.', dots)
    ensures TrimDots(s) == [] || TrimDots(s)[|TrimDots(s)| - 1] != '.'
  {
    if s != [] && s[|s| - 1] == '.' {
      var fewer := TrimDotsIs(s[..|s| - 1]);
      dots := fewer + 1;
      assert Repeated('.', dots) == Repeated('.', fewer) + ['.'];
      assert s == s[..|s| - 1] + ['.'];
    } else {
      dots := 0;
    }
  }

  lemma {:induction false} BracketsAtStart(s: string) returns (before: string)
    ensures s == before + TrimBracketsStart(s) && AllBrackets(before)
    ensures TrimBracketsStart(s) == [] || !IsBracket(TrimBracketsStart(s)[0])
  {
    if s != [] && IsBracket(s[0]) {
      var rest := BracketsAtStart(s[1..]);
      before := [s[0]] + rest;
    } else {
      before := [];
    }
  }

  lemma {:induction false} BracketsAtEnd(s: string) returns (after: string)
    ensures s == TrimBracketsEnd(s) + after && AllBrackets(after)
    ensures TrimBracketsEnd(s) == [] || !IsBracket(TrimBracketsEnd(s)[|TrimBracketsEnd(s)| - 1])
    ensures TrimBracketsEnd(s) == [] || TrimBracketsEnd(s)[0] == s[0]
  {
    if s != [] && IsBracket(s[|s| - 1]) {
      var rest := BracketsAtEnd(s[..|s| - 1]);
      after := rest + [s[|s| - 1]];
    } else {
      after := [];
    }
  }

  /** Exactly the brackets around are trimmed. */
  lemma TrimBracketsIs(s: string) returns (before: string, after: string)
    ensures s == before + TrimBrackets(s) + after && AllBrackets(before) && AllBrackets(after)
    ensures Unbracketed(TrimBrackets(s))
  {
    before := BracketsAtStart(s);
    after := BracketsAtEnd(TrimBracketsStart(s));
    assert s == before + (TrimBrackets(s) + after);
  }

  // ---------------------------------------------------------------- names

  /** The host is the domain or lies below it. */
  ghost predicate InDomain(host: string, domain: string) {
    host == domain || exists sub :: host == sub + ['.'] + domain
  }

  lemma EndsWithIs(s: string, suffix: string)
    ensures EndsWith(s, suffix) <==> exists sub :: s == sub + suffix
  {
    if EndsWith(s, suffix) {
      assert s == s[..|s| - |suffix|] + suffix;
    }
  }

  /** A pattern that starts with a dot, or a star and a dot, covers its domain and everything below. */
  lemma DomainMeans(t: Target, name: string, domain: string)
    requires LowerAscii(TrimDots(name)) == ['.'] + domain || LowerAscii(TrimDots(name)) == ['*', '.'] + domain
    ensures NameMatches(t, name) <==> InDomain(t.host, domain)
  {
    var candidate := ['.'] + domain;
    NormalDomain(LowerAscii(TrimDots(name)), domain);
    BelowDomain(t.host, domain);
    assert candidate[1..] == domain;
  }

  lemma NormalDomain(lower: string, domain: string)
    requires lower == ['.'] + domain || lower == ['*', '.'] + domain
    ensures Normal(lower) == ['.'] + domain
  {
  }

  lemma BelowDomain(host: string, domain: string)
    ensures EndsWith(host, ['.'] + domain) <==> exists sub :: host == sub + ['.'] + domain
  {
    var candidate := ['.'] + domain;
    EndsWithIs(host, candidate);
    if sub :| host == sub + candidate {
      assert host == sub + ['.'] + domain;
    }
    if sub :| host == sub + ['.'] + domain {
      assert host == sub + candidate;
    }
  }

  /** The pattern with its stars filled in, one after another. */
  predicate Filled(pattern: string, fills: seq<string>, value: string) {
    if pattern == [] then fills == [] && value == []
    else if pattern[0] == '*' then
      && fills != [] && fills[0] <= value
      && Filled(pattern[1..], fills[1..], value[|fills[0]|..])
    else value != [] && SameIgnoringCase(pattern[0], value[0]) && Filled(pattern[1..], fills, value[1..])
  }

  ghost predicate Fillable(pattern: string, value: string) {
    exists fills :: Filled(pattern, fills, value)
  }

  lemma {:induction false} GlobFills(pattern: string, value: string) returns (fills: seq<string>)
    requires Glob(pattern, value)
    ensures Filled(pattern, fills, value)
    decreases |pattern| + |value|
  {
    if pattern == [] {
      fills := [];
    } else if pattern[0] == '*' {
      if Glob(pattern[1..], value) {
        var rest := GlobFills(pattern[1..], value);
        fills := [[]] + rest;
        assert value[0..] == value && fills[1..] == rest;
      } else {
        var rest := GlobFills(pattern, value[1..]);
        fills := [[value[0]] + rest[0]] + rest[1..];
        OneCharMore(pattern, rest, value, fills);
      }
    } else {
      fills := GlobFills(pattern[1..], value[1..]);
    }
  }

  lemma OneCharMore(pattern: string, rest: seq<string>, value: string, fills: seq<string>)
    requires pattern != [] && pattern[0] == '*' && value != [] && Filled(pattern, rest, value[1..])
    requires fills == [[value[0]] + rest[0]] + rest[1..]
    ensures Filled(pattern, fills, value)
  {
    assert fills[1..] == rest[1..];
    assert value == [value[0]] + value[1..];
    assert value[|fills[0]|..] == value[1..][|rest[0]|..];
  }

  lemma {:induction false} FilledGlobs(pattern: string, fills: seq<string>, value: string)
    requires Filled(pattern, fills, value)
    ensures Glob(pattern, value)
    decreases |pattern|, |value|
  {
    if pattern != [] {
      if pattern[0] == '*' {
        FilledGlobs(pattern[1..], fills[1..], value[|fills[0]|..]);
        StarTakes(pattern, value, |fills[0]|);
      } else {
        FilledGlobs(pattern[1..], fills, value[1..]);
      }
    }
  }

  lemma {:induction false} StarTakes(pattern: string, value: string, n: nat)
    requires pattern != [] && pattern[0] == '*' && n <= |value| && Glob(pattern[1..], value[n..])
    ensures Glob(pattern, value)
    decreases n
  {
    if n > 0 {
      assert value[1..][n - 1..] == value[n..];
      StarTakes(pattern, value[1..], n - 1);
    } else {
      assert value[0..] == value;
    }
  }

  /** Exactly which hosts a pattern with stars covers. */
  lemma GlobIs(pattern: string, value: string)
    ensures Glob(pattern, value) <==> Fillable(pattern, value)
  {
    if Glob(pattern, value) {
      var fills := GlobFills(pattern, value);
    }
    forall fills | Filled(pattern, fills, value)
      ensures Glob(pattern, value)
    {
      FilledGlobs(pattern, fills, value);
    }
  }

  /** A pattern that starts with no dot covers the hosts its stars fill in, or, without stars, its own. */
  lemma PatternMeans(t: Target, name: string, lower: string)
    requires lower == LowerAscii(TrimDots(name)) && (lower == [] || lower[0] != '.') && !IsStarred(lower)
    ensures '*' in lower ==> (NameMatches(t, name) <==> Fillable(lower, t.host))
    ensures '*' !in lower ==> (NameMatches(t, name) <==> t.host == TrimBrackets(lower))
  {
    GlobIs(lower, t.host);
    Undotted(t, name, lower);
  }

  lemma Undotted(t: Target, name: string, lower: string)
    requires lower == LowerAscii(TrimDots(name)) && (lower == [] || lower[0] != '.') && !IsStarred(lower)
    ensures NameMatches(t, name) <==> if '*' in lower then Glob(lower, t.host) else t.host == TrimBrackets(lower)
  {
    assert Normal(lower) == lower;
  }

  // ---------------------------------------------------------------- ports and the special pieces

  /** A host and a port cover what the host does, on that port. */
  lemma PortMeans(t: Target, host: string, port: string, n: nat, parse: IpParser)
    requires host != [] && host[0] != '[' && ':' !in host && '/' !in host && ':' !in port && '/' !in port
    requires n <= 65535 && Spells(port, n)
    ensures PieceMatches(t, host + [':'] + port, parse) <==> t.port == Some(n) && NameMatches(t, host)
  {
    var piece := host + [':'] + port;
    ParseUnsignedIs(port, 65535, n);
    ColonAt(host, port);
    PortParts(t, piece, host, port, n);
    NoSlashIn(host, port, piece);
    assert piece[|host|] == ':';
    ColonIsNotSpecial(piece, |host|);
    HostFirst(t, piece, parse);
  }

  lemma PortParts(t: Target, piece: string, host: string, port: string, n: nat)
    requires piece == host + [':'] + port && FirstIndex(piece, ':') == |host| && Count(piece, ':') == 1
    requires ParseUnsigned(port, 65535) == Some(n)
    ensures HostPart(piece) == host && (PortMatches(t, piece) <==> t.port == Some(n))
  {
    assert piece[..|host|] == host && piece[|host| + 1..] == port;
  }

  lemma NoSlashIn(host: string, port: string, piece: string)
    requires piece == host + [':'] + port && '/' !in host && '/' !in port
    ensures LastIndex(piece, '/') < 0
  {
    InByLastIndex(piece, '/');
  }

  lemma HostFirst(t: Target, piece: string, parse: IpParser)
    requires piece != [] && piece != "*" && LowerAscii(piece) != "<local>"
    requires LastIndex(piece, '/') < 0 && piece[0] != '['
    ensures PieceMatches(t, piece, parse) <==> PortMatches(t, piece) && NameMatches(t, HostPart(piece))
  {
  }

  lemma ColonAt(host: string, port: string)
    requires ':' !in host && ':' !in port
    ensures FirstIndex(host + [':'] + port, ':') == |host| && Count(host + [':'] + port, ':') == 1
  {
    FirstIndexIs(host, ':', port);
    CountOfConcat(host + [':'], port, ':');
    CountOfConcat(host, [':'], ':');
    CountZero(host, ':');
    CountZero(port, ':');
    assert [':'][1..] == [];
  }

  lemma ColonIsNotSpecial(piece: string, i: nat)
    requires i < |piece| && piece[i] == ':'
    ensures piece != "*" && LowerAscii(piece) != "<local>"
  {
    assert LowerAscii(piece)[i] == ':';
  }

  /** Without a colon there is no port, and the piece is a host pattern. */
  lemma PortlessMeans(t: Target, host: string, parse: IpParser)
    requires host != [] && host != "*" && LowerAscii(host) != "<local>" && host[0] != '['
    requires ':' !in host && '/' !in host
    ensures PieceMatches(t, host, parse) <==> NameMatches(t, host)
  {
    InByLastIndex(host, '/');
    CountZero(host, ':');
  }

  /** A piece in brackets covers what is within them, on any port; without the closing one it is a host pattern. */
  lemma BracketMeans(t: Target, inner: string, after: string, parse: IpParser)
    requires ']' !in inner && '/' !in inner && '/' !in after
    ensures PieceMatches(t, ['['] + inner + [']'] + after, parse) <==> NameMatches(t, inner)
    ensures PieceMatches(t, ['['] + inner, parse) <==> NameMatches(t, ['['] + inner)
  {
    var closed, unclosed := ['['] + inner + [']'] + after, ['['] + inner;
    Bracketed(t, closed, parse);
    Bracketed(t, unclosed, parse);
    FirstIndexIs(unclosed, ']', after);
    assert closed[1..|unclosed|] == inner;
    assert FirstIndex(unclosed, ']') >= 0 ==> ']' in unclosed;
  }

  lemma Bracketed(t: Target, piece: string, parse: IpParser)
    requires piece != [] && piece[0] == '[' && '/' !in piece
    ensures PieceMatches(t, piece, parse)
       <==> NameMatches(t, if FirstIndex(piece, ']') >= 0 then piece[1..FirstIndex(piece, ']')] else piece)
  {
    InByLastIndex(piece, '/');
    assert LowerAscii(piece)[0] == '[';
  }

  /** The two special pieces: everything, and names without a dot. */
  lemma SpecialMeans(t: Target, parse: IpParser)
    ensures PieceMatches(t, "*", parse)
    ensures PieceMatches(t, "<local>", parse) <==> t.address.None? && '.' !in t.host
  {
    assert LowerAscii("<local>") == "<local>";
  }

  // ---------------------------------------------------------------- the list itself

  /** What separates entries: a comma, a semicolon and the white space of Unicode. */
  const SEPARATORS: string :=
    ",;\t\n\U{B}\U{C}\r \U{85}\U{A0}\U{1680}\U{2000}\U{2001}\U{2002}\U{2003}\U{2004}\U{2005}\U{2006}\U{2007}" +
    "\U{2008}\U{2009}\U{200A}\U{2028}\U{2029}\U{202F}\U{205F}\U{3000}"

  /** The visible characters no entry may hold, but for the slash in front of a number of bits. */
  const NOT_IN_A_HOST: string := "!\"#$%&'()+,/;<=>?@\\^`{|}~"

  lemma SeparatorIs(c: char)
    ensures IsSeparator(c) <==> c in SEPARATORS
  {
  }

  lemma HostCharIs(c: char)
    ensures IsHostChar(c) <==> '!' <= c <= '~' && c !in NOT_IN_A_HOST
  {
    if IsHostChar(c) {
      InAHost(c);
    } else if '!' <= c <= '~' {
      NotInAHost(c);
    }
  }

  lemma InAHost(c: char)
    requires IsHostChar(c)
    ensures '!' <= c <= '~' && c !in NOT_IN_A_HOST
  {
  }

  lemma NotInAHost(c: char)
    requires !IsHostChar(c) && '!' <= c <= '~'
    ensures c in NOT_IN_A_HOST
  {
    assert '!' <= c <= ')' ==> c == '*' || c in NOT_IN_A_HOST;
  }

  /** Pieces with separators between them. */
  function Woven(pieces: seq<string>, separators: string): string
    requires |pieces| == |separators| + 1
  {
    if separators == [] then pieces[0] else pieces[0] + [separators[0]] + Woven(pieces[1..], separators[1..])
  }

  /** The pieces are what stands between the separators of the list, nothing lost and nothing added. */
  lemma {:induction false} PiecesAre(list: string) returns (separators: string)
    ensures |Pieces(list)| == |separators| + 1 && Woven(Pieces(list), separators) == list
    ensures forall i :: 0 <= i < |separators| ==> IsSeparator(separators[i])
  {
    if list == [] {
      separators := [];
    } else {
      var rest := PiecesAre(list[1..]);
      assert list == [list[0]] + list[1..];
      if IsSeparator(list[0]) {
        separators := [list[0]] + rest;
        EmptyPieceFirst(Pieces(list[1..]), separators);
      } else {
        separators := rest;
        LongerPieceFirst(Pieces(list[1..]), rest, list[0]);
      }
    }
  }

  lemma EmptyPieceFirst(pieces: seq<string>, separators: string)
    requires |pieces| == |separators| && separators != []
    ensures Woven([[]] + pieces, separators) == [separators[0]] + Woven(pieces, separators[1..])
  {
    assert ([[]] + pieces)[1..] == pieces;
  }

  lemma LongerPieceFirst(pieces: seq<string>, separators: string, c: char)
    requires |pieces| == |separators| + 1
    ensures Woven([[c] + pieces[0]] + pieces[1..], separators) == [c] + Woven(pieces, separators)
  {
    var longer := [[c] + pieces[0]] + pieces[1..];
    assert longer[1..] == pieces[1..];
    if separators != [] {
      var tail := Woven(pieces[1..], separators[1..]);
      assert longer[0] + [separators[0]] + tail == [c] + (pieces[0] + [separators[0]] + tail);
    }
  }

  /** The twenty-six capitals lose their case; nothing else does. */
  lemma LowerAsciiIs(s: string)
    ensures LowerAscii("ABCDEFGHIJKLMNOPQRSTUVWXYZ") == "abcdefghijklmnopqrstuvwxyz"
    ensures (forall i :: 0 <= i < |s| ==> !('A' <= s[i] <= 'Z')) ==> LowerAscii(s) == s
  {
  }

  /** The host characters, and perhaps a slash and one to three digits. */
  ghost predicate IsEntry(value: string) {
    || IsHost(value)
    || exists host: string, prefix: string :: value == host + ['/'] + prefix && IsHost(host) && IsShortNumber(prefix)
  }

  predicate IsShortNumber(prefix: string) {
    0 < |prefix| <= 3 && AllDecimal(prefix)
  }

  /** Exactly which entries a merged list may take over. */
  lemma ValidEntryIs(value: string)
    ensures ValidEntry(value) <==> IsEntry(value)
  {
    InByLastIndex(value, '/');
    if ValidEntry(value) {
      EntryShape(value, LastIndex(value, '/'));
    }
    if host, prefix :| value == host + ['/'] + prefix && IsHost(host) && IsShortNumber(prefix) {
      ShapedEntry(value, host, prefix);
    }
  }

  lemma EntryShape(value: string, slash: int)
    requires ValidEntry(value) && slash == LastIndex(value, '/')
    ensures IsEntry(value)
  {
    if slash >= 0 {
      assert value == value[..slash] + ['/'] + value[slash + 1..];
      assert IsShortNumber(value[slash + 1..]);
    }
  }

  lemma ShapedEntry(value: string, host: string, prefix: string)
    requires value == host + ['/'] + prefix && IsHost(host) && IsShortNumber(prefix)
    ensures ValidEntry(value)
  {
    LastIndexIs(host, '/', prefix);
    assert value[..|host|] == host && value[|host| + 1..] == prefix;
  }

  /** Every merged list begins with the loopback names. */
  lemma LoopbackFirst(values: seq<string>)
    ensures "127.0.0.1,localhost,::1" <= Merge(values)
  {
    var entries := Collected(AllPieces(values));
    assert REQUIRED <= entries;
    FirstThree(entries[0], entries[1], entries[2], entries[3..]);
    assert entries == [entries[0], entries[1], entries[2]] + entries[3..];
  }

  lemma FirstThree(a: string, b: string, c: string, more: seq<string>)
    ensures a + [','] + b + [','] + c <= JoinCommas([a, b, c] + more)
  {
    var all := [a, b, c] + more;
    assert all[1..] == [b, c] + more;
    assert all[1..][1..] == [c] + more;
    var last := JoinCommas([c] + more);
    assert c <= last;
    assert JoinCommas(all[1..]) == b + "," + last;
    assert JoinCommas(all) == (a + [','] + b + [',']) + last;
  }
}
