/**
 * Merging no-proxy lists, and the matcher that decides from a list whether a target bypasses the proxy.
 * Parsing an IP address is left to a function whose few needed properties are stated where used.
 */
module NoProxy {
  import opened Wrappers
  import opened Text

  // ---------------------------------------------------------------- lists

  predicate IsSeparator(c: char) {
    c == ',' || c == ';' || IsWhitespace(c)
  }

  /** The parts between separators. */
  function Pieces(s: string): (r: seq<string>)
    ensures |r| >= 1
    ensures forall p :: p in r ==> forall c :: c in p ==> !IsSeparator(c)
  {
    if s == [] then [[]]
    else
      var rest := Pieces(s[1..]);
      assert rest[0] in rest && forall p :: p in rest[1..] ==> p in rest;
      if IsSeparator(s[0]) then [[]] + rest else [[s[0]] + rest[0]] + rest[1..]
  }

  function JoinCommas(entries: seq<string>): string {
    if entries == [] then []
    else if |entries| == 1 then entries[0]
    else entries[0] + "," + JoinCommas(entries[1..])
  }

  const REQUIRED: seq<string> := ["127.0.0.1", "localhost", "::1"]

  // ---------------------------------------------------------------- characters

  predicate IsAlphanumeric(c: char) {
    '0' <= c <= '9' || 'a' <= c <= 'z' || 'A' <= c <= 'Z'
  }

  /** `trim_end_matches('.')` */
  function TrimDots(s: string): (r: string)
    ensures r <= s
    ensures r != [] ==> r[|r| - 1] != '.'
  {
    if s != [] && s[|s| - 1] == '.' then TrimDots(s[..|s| - 1]) else s
  }

  predicate IsBracket(c: char) { c == '[' || c == ']' }

  function TrimBracketsEnd(s: string): (r: string)
    ensures r <= s
  {
    if s != [] && IsBracket(s[|s| - 1]) then TrimBracketsEnd(s[..|s| - 1]) else s
  }

  function TrimBracketsStart(s: string): string {
    if s != [] && IsBracket(s[0]) then TrimBracketsStart(s[1..]) else s
  }

  /** `trim_matches(['[', ']'])` */
  function TrimBrackets(s: string): string {
    TrimBracketsEnd(TrimBracketsStart(s))
  }

  /** `str::parse` for an unsigned type: digits, a plus sign allowed, in range. */
  function ParseUnsigned(s: string, max: nat): Option<nat> {
    var digits := if s != [] && s[0] == '+' then s[1..] else s;
    if digits == [] || !AllDecimal(digits) || Number(digits) > max then None else Some(Number(digits))
  }

  // ---------------------------------------------------------------- merging

  predicate IsHostChar(c: char) {
    IsAlphanumeric(c) || c in "._*:[]-"
  }

  predicate IsHost(s: string) {
    s != [] && forall c :: c in s ==> IsHostChar(c)
  }

  /** `valid_no_proxy_entry` */
  predicate ValidEntry(value: string) {
    var slash := LastIndex(value, '/');
    if slash < 0 then IsHost(value)
    else
      var prefix := value[slash + 1..];
      IsHost(value[..slash]) && 0 < |prefix| <= 3 && AllDecimal(prefix)
  }

  predicate IsStarred(s: string) {
    |s| >= 2 && s[0] == '*' && s[1] == '.'
  }

  /** A leading star before a dot is dropped. */
  function Normal(raw: string): string {
    if IsStarred(raw) then raw[1..] else raw
  }

  predicate Acceptable(entry: string) {
    entry == "<local>" || entry == "*" || ValidEntry(entry)
  }

  /** What a piece adds: nothing, or its normal form unless that is there in some case already. */
  function Add(entries: seq<string>, raw: string): seq<string> {
    var entry := Normal(raw);
    if raw == [] || !Acceptable(entry) || Known(entries, entry) then entries else entries + [entry]
  }

  predicate Known(entries: seq<string>, entry: string) {
    exists e :: e in entries && LowerAscii(e) == LowerAscii(entry)
  }

  function AddAll(entries: seq<string>, raws: seq<string>): (r: seq<string>)
    ensures entries <= r
  {
    if raws == [] then entries else Add(AddAll(entries, raws[..|raws| - 1]), raws[|raws| - 1])
  }

  function Collected(raws: seq<string>): seq<string> {
    AddAll(REQUIRED, raws)
  }

  function AllPieces(values: seq<string>): seq<string> {
    if values == [] then [] else AllPieces(values[..|values| - 1]) + Pieces(values[|values| - 1])
  }

  /** `merge_no_proxy` */
  function Merge(values: seq<string>): string {
    JoinCommas(Collected(AllPieces(values)))
  }

  /** The identities of the entries collected so far. */
  ghost predicate Identities(entries: seq<string>, seen: set<string>) {
    forall id :: id in seen <==> exists e :: e in entries && LowerAscii(e) == id
  }

  method MergeNoProxy(values: seq<string>) returns (merged: string)
    ensures merged == Merge(values)
  {
    var entries: seq<string> := [];
    var seen: set<string> := {};
    for i := 0 to |REQUIRED|
      invariant entries == REQUIRED[..i] && Identities(entries, seen)
    {
      RequiredAreLower(i);
      seen := seen + {REQUIRED[i]};
      entries := entries + [REQUIRED[i]];
    }
    assert entries == REQUIRED;
    for i := 0 to |values|
      invariant entries == Collected(AllPieces(values[..i])) && Identities(entries, seen)
    {
      assert values[..i + 1][..i] == values[..i];
      AddInTurn(REQUIRED, AllPieces(values[..i]), Pieces(values[i]));
      entries, seen := MergeValue(Pieces(values[i]), entries, seen);
    }
    assert values[..|values|] == values;
    merged := JoinCommas(entries);
  }

  method MergeValue(pieces: seq<string>, before: seq<string>, seenBefore: set<string>)
    returns (entries: seq<string>, seen: set<string>)
    requires Identities(before, seenBefore)
    ensures entries == AddAll(before, pieces) && Identities(entries, seen)
  {
    entries, seen := before, seenBefore;
    for j := 0 to |pieces|
      invariant entries == AddAll(before, pieces[..j]) && Identities(entries, seen)
    {
      assert pieces[..j + 1][..j] == pieces[..j];
      var entry := pieces[j];
      if entry == [] {
        continue;
      }
      if IsStarred(entry) {
        entry := entry[1..];
      }
      if entry != "<local>" && entry != "*" && !ValidEntry(entry) {
        continue;
      }
      var identity := LowerAscii(entry);
      if identity !in seen {
        seen := seen + {identity};
        entries := entries + [entry];
      }
    }
    assert pieces[..|pieces|] == pieces;
  }

  lemma {:induction false} AddInTurn(entries: seq<string>, first: seq<string>, second: seq<string>)
    ensures AddAll(entries, first + second) == AddAll(AddAll(entries, first), second)
  {
    if second == [] {
      assert first + second == first;
    } else {
      var n := |second| - 1;
      assert (first + second)[..|first| + n] == first + second[..n];
      AddInTurn(entries, first, second[..n]);
    }
  }

  lemma RequiredAreLower(i: nat)
    requires i < |REQUIRED|
    ensures LowerAscii(REQUIRED[i]) == REQUIRED[i]
  {
    assert LowerAscii("127.0.0.1") == "127.0.0.1";
    assert LowerAscii("localhost") == "localhost";
    assert LowerAscii("::1") == "::1";
  }

  // ---------------------------------------------------------------- matching

  datatype Ip = V4(bits: nat) | V6(bits: nat)

  /** A parsed target: its host without brackets, trailing dots and capitals, and what that denotes. */
  datatype Target = Target(host: string, address: Option<Ip>, port: Option<nat>)

  type IpParser = string -> Option<Ip>

  predicate IsLoopback(ip: Ip) {
    match ip
    case V4(bits) => bits / 16777216 == 127
    case V6(bits) => bits == 1
  }

  predicate Loopback(t: Target) {
    t.host == "localhost" || (t.address.Some? && IsLoopback(t.address.value))
  }

  function PowerOfTwo(n: nat): (r: nat)
    ensures r >= 1
  {
    if n == 0 then 1 else 2 * PowerOfTwo(n - 1)
  }

  /** The first `prefix` of `width` bits are the same. */
  predicate SamePrefix(a: nat, b: nat, width: nat, prefix: nat) {
    prefix <= width && a / PowerOfTwo(width - prefix) == b / PowerOfTwo(width - prefix)
  }

  /** `ip_in_cidr` */
  predicate InCidr(address: Ip, network: Ip, prefix: nat) {
    match (address, network)
    case (V4(a), V4(n)) => SamePrefix(a, n, 32, prefix)
    case (V6(a), V6(n)) => SamePrefix(a, n, 128, prefix)
    case _ => false
  }

  /**
   * Ignoring case, as Unicode folds it, for a host, which is in lower-case ASCII, and a pattern, whose ASCII letters
   * are: two more letters fold into ASCII, the long s and the Kelvin sign.
   */
  predicate SameIgnoringCase(pattern: char, host: char) {
    pattern == host || (pattern == '\U{17F}' && host == 's') || (pattern == '\U{212A}' && host == 'k')
  }

  /** `*` stands for any run of characters. */
  predicate Glob(pattern: string, value: string)
    decreases |pattern| + |value|
  {
    if pattern == [] then value == []
    else if pattern[0] == '*' then Glob(pattern[1..], value) || (value != [] && Glob(pattern, value[1..]))
    else value != [] && SameIgnoringCase(pattern[0], value[0]) && Glob(pattern[1..], value[1..])
  }

  predicate EndsWith(s: string, suffix: string) {
    |suffix| <= |s| && s[|s| - |suffix|..] == suffix
  }

  /** Whether a candidate with a slash covers the target's address. */
  predicate CidrMatches(t: Target, candidate: string, slash: nat, parse: IpParser)
    requires slash < |candidate|
  {
    var network := parse(TrimBrackets(candidate[..slash]));
    var prefix := ParseUnsigned(candidate[slash + 1..], 255);
    t.address.Some? && network.Some? && prefix.Some? && InCidr(t.address.value, network.value, prefix.value)
  }

  /** Whether a host pattern, its port already dealt with, covers the target. */
  predicate NameMatches(t: Target, name: string) {
    var lower := LowerAscii(TrimDots(name));
    var candidate := Normal(lower);
    if candidate != [] && candidate[0] == '.' then t.host == candidate[1..] || EndsWith(t.host, candidate)
    else if '*' in candidate then Glob(candidate, t.host)
    else t.host == TrimBrackets(candidate)
  }

  /** Where a single colon separates a port, when a port it is; -1 otherwise. */
  function PortColon(candidate: string): (r: int)
    ensures -1 <= r < |candidate|
  {
    var colon := FirstIndex(candidate, ':');
    if Count(candidate, ':') != 1 || colon < 0 || ParseUnsigned(candidate[colon + 1..], 65535).None? then -1
    else colon
  }

  /** A candidate's host part: what precedes its port, if it has one. */
  function HostPart(candidate: string): string {
    if PortColon(candidate) < 0 then candidate else candidate[..PortColon(candidate)]
  }

  /** The candidate's port, if it has one, is the target's. */
  predicate PortMatches(t: Target, candidate: string) {
    var colon := PortColon(candidate);
    colon < 0 || t.port == ParseUnsigned(candidate[colon + 1..], 65535)
  }

  /** Whether one piece of a list makes the target bypass the proxy. */
  predicate PieceMatches(t: Target, candidate: string, parse: IpParser) {
    if candidate == [] then false
    else if candidate == "*" then true
    else if LowerAscii(candidate) == "<local>" then t.address.None? && '.' !in t.host
    else if LastIndex(candidate, '/') >= 0 then CidrMatches(t, candidate, LastIndex(candidate, '/'), parse)
    else if candidate[0] == '[' then
      var end := FirstIndex(candidate, ']');
      NameMatches(t, if end >= 0 then candidate[1..end] else candidate)
    else PortMatches(t, candidate) && NameMatches(t, HostPart(candidate))
  }

  /** `proxy_bypasses`, once the target is parsed. */
  predicate Bypasses(t: Target, list: string, parse: IpParser) {
    Loopback(t) || exists p :: p in Pieces(list) && PieceMatches(t, p, parse)
  }

  method PieceBypasses(t: Target, piece: string, parse: IpParser) returns (bypass: bool)
    ensures bypass == PieceMatches(t, piece, parse)
  {
    var candidate := piece;
    if candidate == [] {
      return false;
    }
    if candidate == "*" {
      return true;
    }
    if LowerAscii(candidate) == "<local>" {
      return t.address.None? && '.' !in t.host;
    }
    var slash := LastIndex(candidate, '/');
    if slash >= 0 {
      return CidrMatches(t, candidate, slash, parse);
    }
    if candidate[0] == '[' {
      var end := FirstIndex(candidate, ']');
      if end >= 0 {
        candidate := candidate[1..end];
      }
    } else {
      var matches, host := SplitPort(t, candidate);
      if !matches {
        return false;
      }
      candidate := host;
    }
    return NameMatches(t, candidate);
  }

  method SplitPort(t: Target, candidate: string) returns (matches: bool, host: string)
    ensures matches == PortMatches(t, candidate) && host == HostPart(candidate)
  {
    matches, host := true, candidate;
    if Count(candidate, ':') == 1 {
      var colon := FirstIndex(candidate, ':');
      if colon >= 0 {
        var port := ParseUnsigned(candidate[colon + 1..], 65535);
        if port.Some? {
          matches, host := t.port == port, candidate[..colon];
        }
      }
    }
  }

  method ProxyBypasses(t: Target, list: string, parse: IpParser) returns (bypass: bool)
    ensures bypass == Bypasses(t, list, parse)
  {
    if Loopback(t) {
      return true;
    }
    var pieces := Pieces(list);
    for i := 0 to |pieces|
      invariant forall j :: 0 <= j < i ==> !PieceMatches(t, pieces[j], parse)
    {
      var matched := PieceBypasses(t, pieces[i], parse);
      if matched {
        return true;
      }
    }
    return false;
  }
}
