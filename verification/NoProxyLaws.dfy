/** The merged list agrees with the matcher that reads it: what it lets bypass, and what it never adds. */
module NoProxyLaws {
  import opened Wrappers
  import opened Text
  import opened NoProxy

  // ---------------------------------------------------------------- join and split

  predicate Unseparated(s: string) {
    forall i :: 0 <= i < |s| ==> !IsSeparator(s[i])
  }

  lemma {:induction false} PiecesOfOne(s: string)
    requires Unseparated(s)
    ensures Pieces(s) == [s]
  {
    if s != [] {
      PiecesOfOne(s[1..]);
      assert [s[0]] + s[1..] == s;
      assert Pieces(s[1..])[1..] == [];
    }
  }

  lemma {:induction false} PiecesOfTwo(s: string, rest: string)
    requires Unseparated(s)
    ensures Pieces(s + "," + rest) == [s] + Pieces(rest)
  {
    var all := s + "," + rest;
    if s == [] {
      assert all[0] == ',' && all[1..] == rest;
    } else {
      PiecesOfTwo(s[1..], rest);
      assert all[1..] == s[1..] + "," + rest && all[0] == s[0];
      assert [s[0]] + s[1..] == s;
      assert ([s[1..]] + Pieces(rest))[1..] == Pieces(rest);
    }
  }

  lemma {:induction false} PiecesOfJoin(entries: seq<string>)
    requires entries != [] && forall e :: e in entries ==> Unseparated(e)
    ensures Pieces(JoinCommas(entries)) == entries
  {
    assert entries[0] in entries;
    if |entries| == 1 {
      PiecesOfOne(entries[0]);
      assert entries == [entries[0]];
    } else {
      assert forall e :: e in entries[1..] ==> e in entries;
      PiecesOfJoin(entries[1..]);
      PiecesOfTwo(entries[0], JoinCommas(entries[1..]));
      assert entries == [entries[0]] + entries[1..];
    }
  }

  lemma PiecesAreUnseparated(s: string, p: string)
    requires p in Pieces(s)
    ensures Unseparated(p)
  {
    assert forall i :: 0 <= i < |p| ==> p[i] in p;
  }

  // ---------------------------------------------------------------- what the merged list holds

  predicate DistinctIgnoringCase(entries: seq<string>) {
    forall i, j :: 0 <= i < j < |entries| ==> LowerAscii(entries[i]) != LowerAscii(entries[j])
  }

  /** An entry as merging leaves it: stable under merging again. */
  predicate Settled(entry: string) {
    entry != [] && Unseparated(entry) && Acceptable(entry) && !IsStarred(entry)
  }

  lemma PlainIsSettled(s: string)
    requires s != [] && forall i :: 0 <= i < |s| ==> IsAlphanumeric(s[i]) || s[i] == '.' || s[i] == ':'
    ensures Settled(s)
  {
    InByLastIndex(s, '/');
    assert LastIndex(s, '/') < 0;
    assert IsHost(s);
    assert s[0] != '*';
  }

  lemma AddressIsSettled()
    ensures Settled("127.0.0.1")
  {
    PlainIsSettled("127.0.0.1");
  }

  lemma LocalhostIsSettled()
    ensures Settled("localhost")
  {
    PlainIsSettled("localhost");
  }

  lemma ShortAddressIsSettled()
    ensures Settled("::1")
  {
    PlainIsSettled("::1");
  }

  lemma RequiredDiffer(i: nat, j: nat)
    requires i < j < |REQUIRED|
    ensures REQUIRED[i] != REQUIRED[j]
  {
    assert "127.0.0.1"[0] == '1' && "localhost"[0] == 'l' && "::1"[0] == ':';
  }

  lemma RequiredIsSettled()
    ensures forall e :: e in REQUIRED ==> Settled(e)
    ensures DistinctIgnoringCase(REQUIRED)
  {
    AddressIsSettled();
    LocalhostIsSettled();
    ShortAddressIsSettled();
    RequiredIsDistinct();
  }

  lemma RequiredIsDistinct()
    ensures DistinctIgnoringCase(REQUIRED)
  {
    forall i, j | 0 <= i < j < |REQUIRED| ensures LowerAscii(REQUIRED[i]) != LowerAscii(REQUIRED[j]) {
      RequiredAreLower(i);
      RequiredAreLower(j);
      RequiredDiffer(i, j);
    }
  }

  lemma AddingSettles(entries: seq<string>, raw: string)
    requires Unseparated(raw) && DistinctIgnoringCase(entries) && forall e :: e in entries ==> Settled(e)
    ensures DistinctIgnoringCase(Add(entries, raw)) && forall e :: e in Add(entries, raw) ==> Settled(e)
  {
    assert forall i :: 0 <= i < |entries| ==> entries[i] in entries;
    if raw != [] && Acceptable(Normal(raw)) {
      NormalSettles(raw);
    }
  }

  lemma NormalSettles(raw: string)
    requires raw != [] && Unseparated(raw) && Acceptable(Normal(raw))
    ensures Settled(Normal(raw))
  {
    assert IsStarred(raw) ==> Normal(raw)[0] == '.';
  }

  lemma {:induction false} CollectedSettles(raws: seq<string>)
    requires forall r :: r in raws ==> Unseparated(r)
    ensures DistinctIgnoringCase(Collected(raws)) && forall e :: e in Collected(raws) ==> Settled(e)
  {
    if raws == [] {
      RequiredIsSettled();
    } else {
      var n := |raws| - 1;
      assert raws[n] in raws && forall r :: r in raws[..n] ==> r in raws;
      CollectedSettles(raws[..n]);
      AddingSettles(Collected(raws[..n]), raws[n]);
    }
  }

  lemma {:induction false} AllPiecesAreUnseparated(values: seq<string>)
    ensures forall p :: p in AllPieces(values) ==> Unseparated(p)
  {
    if values != [] {
      var n := |values| - 1;
      AllPiecesAreUnseparated(values[..n]);
      forall p | p in Pieces(values[n]) ensures Unseparated(p) {
        PiecesAreUnseparated(values[n], p);
      }
    }
  }

  /** The merged list begins with the required entries, has none twice in any case, and splits back into them. */
  lemma MergedList(values: seq<string>)
    ensures var entries := Pieces(Merge(values));
            && entries == Collected(AllPieces(values))
            && REQUIRED <= entries
            && DistinctIgnoringCase(entries)
            && forall e :: e in entries ==> Settled(e)
  {
    AllPiecesAreUnseparated(values);
    CollectedSettles(AllPieces(values));
    PiecesOfJoin(Collected(AllPieces(values)));
  }

  // ---------------------------------------------------------------- merging again

  lemma {:induction false} AddingKnown(entries: seq<string>, raws: seq<string>)
    requires forall r :: r in raws ==> Known(entries, Normal(r))
    ensures AddAll(entries, raws) == entries
  {
    if raws != [] {
      var n := |raws| - 1;
      assert raws[n] in raws && forall r :: r in raws[..n] ==> r in raws;
      AddingKnown(entries, raws[..n]);
    }
  }

  lemma {:induction false} AddingNew(entries: seq<string>, raws: seq<string>)
    requires DistinctIgnoringCase(entries + raws) && forall r :: r in raws ==> Settled(r)
    ensures AddAll(entries, raws) == entries + raws
  {
    if raws == [] {
      assert entries + raws == entries;
    } else {
      var n := |raws| - 1;
      var all := entries + raws;
      assert all[..|entries| + n] == entries + raws[..n];
      assert forall r :: r in raws[..n] ==> r in raws;
      forall i, j | 0 <= i < j < |entries| + n
        ensures LowerAscii((entries + raws[..n])[i]) != LowerAscii((entries + raws[..n])[j])
      {
        assert (entries + raws[..n])[i] == all[i] && (entries + raws[..n])[j] == all[j];
      }
      AddingNew(entries, raws[..n]);
      assert raws[n] in raws && all[|entries| + n] == raws[n];
      assert !Known(entries + raws[..n], raws[n]) by {
        assert forall i :: 0 <= i < |entries| + n ==> LowerAscii(all[i]) != LowerAscii(raws[n]);
      }
      assert all == all[..|entries| + n] + [raws[n]];
    }
  }

  /** Merging a merged list gives it back. */
  lemma MergeAgain(values: seq<string>)
    ensures Merge([Merge(values)]) == Merge(values)
  {
    MergedList(values);
    var entries := Pieces(Merge(values));
    assert [Merge(values)][..0] == [] && AllPieces([Merge(values)]) == [] + entries;
    assert [] + entries == entries;
    CollectAgain(entries);
  }

  lemma CollectAgain(entries: seq<string>)
    requires REQUIRED <= entries && DistinctIgnoringCase(entries) && forall e :: e in entries ==> Settled(e)
    ensures Collected(entries) == entries
  {
    var more := entries[|REQUIRED|..];
    assert entries == REQUIRED + more;
    assert forall e :: e in more ==> e in entries;
    AddInTurn(REQUIRED, REQUIRED, more);
    RequiredIsKnown();
    AddingKnown(REQUIRED, REQUIRED);
    AddingNew(REQUIRED, more);
  }

  lemma RequiredIsKnown()
    ensures forall r :: r in REQUIRED ==> Known(REQUIRED, Normal(r))
  {
    RequiredIsSettled();
    forall r | r in REQUIRED ensures Known(REQUIRED, Normal(r)) {
      assert Settled(r) && Normal(r) == r;
    }
  }

  // ---------------------------------------------------------------- case does not matter

  /** What is needed of IP parsing: it ignores case, knows the loopback addresses; none starts with `*` or `.`. */
  ghost predicate ParsesAddresses(parse: IpParser) {
    && (forall s :: parse(LowerAscii(s)) == parse(s))
    && (forall s :: parse(s).Some? ==> s != [] && s[0] != '*' && s[0] != '.')
    && parse("127.0.0.1") == Some(V4(0x7F000001)) && parse("::1") == Some(V6(1))
  }

  /** Characters without case. */
  predicate Caseless(c: char) {
    !('a' <= c <= 'z') && !('A' <= c <= 'Z')
  }

  lemma LowerKeeps(s: string, i: nat, c: char)
    requires i < |s| && Caseless(c)
    ensures LowerAscii(s)[i] == c <==> s[i] == c
  {
  }

  lemma LowerSlice(s: string, i: nat, j: nat)
    requires i <= j <= |s|
    ensures LowerAscii(s[i..j]) == LowerAscii(s)[i..j]
  {
  }

  lemma LowerParts(s: string, i: nat)
    requires i < |s|
    ensures LowerAscii(s)[..i] == LowerAscii(s[..i]) && LowerAscii(s)[i + 1..] == LowerAscii(s[i + 1..])
  {
  }

  lemma {:induction false} LowerLastIndex(s: string, c: char)
    requires Caseless(c)
    ensures LastIndex(LowerAscii(s), c) == LastIndex(s, c)
  {
    if s != [] {
      LowerLastIndex(s[..|s| - 1], c);
      LowerSlice(s, 0, |s| - 1);
      LowerKeeps(s, |s| - 1, c);
      assert LowerAscii(s)[..|s| - 1] == LowerAscii(s[..|s| - 1]);
    }
  }

  lemma {:induction false} LowerFirstIndexAndCount(s: string, c: char)
    requires Caseless(c)
    ensures FirstIndex(LowerAscii(s), c) == FirstIndex(s, c) && Count(LowerAscii(s), c) == Count(s, c)
  {
    if s != [] {
      LowerFirstIndexAndCount(s[1..], c);
      LowerSlice(s, 1, |s|);
      LowerKeeps(s, 0, c);
      assert LowerAscii(s)[1..] == LowerAscii(s[1..]);
    }
  }

  lemma {:induction false} LowerTrimDots(s: string)
    ensures TrimDots(LowerAscii(s)) == LowerAscii(TrimDots(s))
  {
    if s != [] {
      LowerTrimDots(s[..|s| - 1]);
      LowerKeeps(s, |s| - 1, '.');
      assert LowerAscii(s)[..|s| - 1] == LowerAscii(s[..|s| - 1]);
    }
  }

  lemma {:induction false} LowerTrimBracketsEnd(s: string)
    ensures TrimBracketsEnd(LowerAscii(s)) == LowerAscii(TrimBracketsEnd(s))
  {
    if s != [] {
      LowerTrimBracketsEnd(s[..|s| - 1]);
      LowerKeeps(s, |s| - 1, '[');
      LowerKeeps(s, |s| - 1, ']');
      assert LowerAscii(s)[..|s| - 1] == LowerAscii(s[..|s| - 1]);
    }
  }

  lemma {:induction false} LowerTrimBracketsStart(s: string)
    ensures TrimBracketsStart(LowerAscii(s)) == LowerAscii(TrimBracketsStart(s))
  {
    if s != [] {
      LowerTrimBracketsStart(s[1..]);
      LowerKeeps(s, 0, '[');
      LowerKeeps(s, 0, ']');
      assert LowerAscii(s)[1..] == LowerAscii(s[1..]);
    }
  }

  lemma LowerNumber(s: string, max: nat)
    ensures ParseUnsigned(LowerAscii(s), max) == ParseUnsigned(s, max)
  {
    var lower := LowerAscii(s);
    assert s != [] ==> (lower[0] == '+' <==> s[0] == '+');
    var signed := s != [] && s[0] == '+';
    var digits, lowerDigits := if signed then s[1..] else s, if signed then lower[1..] else lower;
    assert |digits| == |lowerDigits| && forall i :: 0 <= i < |digits| ==> lowerDigits[i] == LowerChar(digits[i]);
    assert AllDecimal(digits) || AllDecimal(lowerDigits) ==> digits == lowerDigits;
  }

  lemma LowerName(t: Target, name: string)
    ensures NameMatches(t, LowerAscii(name)) == NameMatches(t, name)
  {
    LowerTrimDots(name);
    LowerAsciiIsIdempotent(TrimDots(name));
  }

  lemma LowerTail(candidate: string, colon: nat, max: nat)
    requires colon < |candidate|
    ensures |LowerAscii(candidate)| == |candidate|
    ensures ParseUnsigned(LowerAscii(candidate)[colon + 1..], max) == ParseUnsigned(candidate[colon + 1..], max)
  {
    LowerParts(candidate, colon);
    LowerNumber(candidate[colon + 1..], max);
  }

  lemma SamePortColon(a: string, b: string, colon: nat)
    requires Count(a, ':') == Count(b, ':') && FirstIndex(a, ':') == FirstIndex(b, ':') == colon
    requires ParseUnsigned(a[colon + 1..], 65535) == ParseUnsigned(b[colon + 1..], 65535)
    ensures PortColon(a) == PortColon(b)
  {
  }

  lemma LowerColon(candidate: string)
    ensures PortColon(LowerAscii(candidate)) == PortColon(candidate)
  {
    var colon := FirstIndex(candidate, ':');
    LowerFirstIndexAndCount(candidate, ':');
    if colon >= 0 {
      LowerTail(candidate, colon, 65535);
      SamePortColon(LowerAscii(candidate), candidate, colon);
    }
  }

  lemma LowerPort(t: Target, candidate: string)
    ensures PortMatches(t, LowerAscii(candidate)) == PortMatches(t, candidate)
    ensures HostPart(LowerAscii(candidate)) == LowerAscii(HostPart(candidate))
  {
    LowerColon(candidate);
    var colon := PortColon(candidate);
    if colon >= 0 {
      LowerParts(candidate, colon);
      LowerNumber(candidate[colon + 1..], 65535);
    }
  }

  lemma LowerCidr(t: Target, candidate: string, slash: nat, parse: IpParser)
    requires ParsesAddresses(parse) && slash < |candidate|
    ensures CidrMatches(t, LowerAscii(candidate), slash, parse) == CidrMatches(t, candidate, slash, parse)
  {
    LowerParts(candidate, slash);
    LowerTrimBracketsStart(candidate[..slash]);
    LowerTrimBracketsEnd(TrimBracketsStart(candidate[..slash]));
    LowerNumber(candidate[slash + 1..], 255);
  }

  lemma LowerBracketed(t: Target, candidate: string)
    requires candidate != [] && candidate[0] == '['
    ensures var end := FirstIndex(candidate, ']');
            var lower := LowerAscii(candidate);
            FirstIndex(lower, ']') == end
            && NameMatches(t, if end >= 0 then lower[1..end] else lower)
            == NameMatches(t, if end >= 0 then candidate[1..end] else candidate)
  {
    var end := FirstIndex(candidate, ']');
    LowerFirstIndexAndCount(candidate, ']');
    if end >= 0 {
      LowerSlice(candidate, 1, end);
      LowerName(t, candidate[1..end]);
    } else {
      LowerName(t, candidate);
    }
  }

  /** Pieces alike but for case match the same targets. */
  lemma CaseDoesNotMatter(t: Target, a: string, b: string, parse: IpParser)
    requires ParsesAddresses(parse) && LowerAscii(a) == LowerAscii(b)
    ensures PieceMatches(t, a, parse) == PieceMatches(t, b, parse)
  {
    LowerPiece(t, a, parse);
    LowerPiece(t, b, parse);
  }

  lemma LowerPiece(t: Target, a: string, parse: IpParser)
    requires ParsesAddresses(parse)
    ensures PieceMatches(t, LowerAscii(a), parse) == PieceMatches(t, a, parse)
  {
    if a != [] {
      var lower := LowerAscii(a);
      LowerAsciiIsIdempotent(a);
      LowerKeeps(a, 0, '*');
      LowerKeeps(a, 0, '[');
      assert lower == "*" <==> a == "*" by { assert |lower| == |a|; }
      LowerLastIndex(a, '/');
      if LastIndex(a, '/') >= 0 {
        LowerCidr(t, a, LastIndex(a, '/'), parse);
      } else if a[0] == '[' {
        LowerBracketed(t, a);
      } else {
        LowerPort(t, a);
        LowerName(t, HostPart(a));
      }
    }
  }

  // ---------------------------------------------------------------- dropping the star

  predicate OnlyDots(s: string) {
    forall i :: 0 <= i < |s| ==> s[i] == '.'
  }

  /** A star before nothing but dots: once the star is gone nothing is left to match. */
  predicate StarAndDots(piece: string) {
    IsStarred(piece) && LastIndex(piece, '/') < 0 && HostPart(piece) != [] && OnlyDots(HostPart(piece)[1..])
  }

  lemma {:induction false} TrimDotsOf(s: string)
    ensures OnlyDots(s) <==> TrimDots(s) == []
    ensures !OnlyDots(s) ==> TrimDots([ '*' ] + s) == ['*'] + TrimDots(s)
    ensures OnlyDots(s) ==> TrimDots(['*'] + s) == ['*']
  {
    if s != [] {
      var n := |s| - 1;
      assert (['*'] + s)[..|s|] == ['*'] + s[..n];
      TrimDotsOf(s[..n]);
      if s[n] != '.' {
        assert !OnlyDots(s);
      }
    } else {
      assert ['*'] + s == ['*'];
    }
  }

  /** A host pattern without its leading star matches the same hosts, unless only dots follow the star. */
  lemma NameWithoutStar(t: Target, rest: string)
    requires rest != [] && rest[0] == '.'
    ensures !OnlyDots(rest) ==> NameMatches(t, ['*'] + rest) == NameMatches(t, rest)
    ensures OnlyDots(rest) ==> NameMatches(t, ['*'] + rest) && NameMatches(t, rest) == (t.host == [])
  {
    TrimDotsOf(rest);
    if OnlyDots(rest) {
      StarAlone(t);
    } else {
      LowerWithStar(TrimDots(rest));
    }
  }

  lemma StarAlone(t: Target)
    ensures LowerAscii(['*']) == ['*'] && LowerAscii([]) == []
    ensures Glob(['*'], t.host)
  {
    GlobAll(t.host);
  }

  lemma LowerWithStar(trimmed: string)
    requires trimmed != [] && trimmed[0] == '.'
    ensures Normal(LowerAscii(['*'] + trimmed)) == LowerAscii(trimmed) == Normal(LowerAscii(trimmed))
    ensures LowerAscii(trimmed)[0] == '.'
  {
    var lower := LowerAscii(['*'] + trimmed);
    assert lower == ['*'] + LowerAscii(trimmed);
    assert lower[1..] == LowerAscii(trimmed);
  }

  lemma {:induction false} GlobAll(value: string)
    ensures Glob(['*'], value)
  {
    if value == [] {
      assert ['*'][1..] == [];
    } else {
      GlobAll(value[1..]);
    }
  }

  lemma StarColon(raw: string, colon: int)
    requires IsStarred(raw) && colon == PortColon(raw)
    ensures colon < 0 ==> PortColon(raw[1..]) < 0
    ensures colon >= 0 ==> colon >= 2 && PortColon(raw[1..]) == colon - 1
  {
    var first, max := FirstIndex(raw, ':'), 65535;
    assert FirstIndex(raw[1..], ':') == if first < 0 then -1 else first - 1;
    assert Count(raw[1..], ':') == Count(raw, ':');
    if first >= 0 {
      assert first >= 2;
      StarTail(raw, first, max);
    }
  }

  lemma StarTail(raw: string, colon: nat, max: nat)
    requires 1 <= colon < |raw|
    ensures ParseUnsigned(raw[1..][colon..], max) == ParseUnsigned(raw[colon + 1..], max)
    ensures raw[..colon] == [raw[0]] + raw[1..][..colon - 1]
  {
    assert raw[1..][colon..] == raw[colon + 1..];
  }

  lemma StarAndPort(t: Target, raw: string)
    requires IsStarred(raw)
    ensures var rest := HostPart(raw[1..]);
            && HostPart(raw) == ['*'] + rest && rest != [] && rest[0] == '.'
            && PortMatches(t, raw[1..]) == PortMatches(t, raw)
  {
    var colon := PortColon(raw);
    StarColon(raw, colon);
    assert raw == ['*'] + raw[1..];
    if colon >= 0 {
      StarTail(raw, colon, 65535);
    }
  }

  lemma PieceByParts(t: Target, piece: string, parse: IpParser)
    requires piece != [] && piece != "*" && LowerAscii(piece) != "<local>"
    requires LastIndex(piece, '/') < 0 && piece[0] != '['
    ensures PieceMatches(t, piece, parse) <==> PortMatches(t, piece) && NameMatches(t, HostPart(piece))
  {
  }

  lemma CidrNeedsAnAddress(t: Target, candidate: string, parse: IpParser)
    requires ParsesAddresses(parse) && LastIndex(candidate, '/') >= 0
    requires candidate[0] in {'*', '.'} && candidate[0] != '/'
    ensures !PieceMatches(t, candidate, parse)
  {
    var slash := LastIndex(candidate, '/');
    var network := candidate[..slash];
    assert slash > 0 && network[0] == candidate[0];
    assert TrimBracketsStart(network) == network;
    KeepsFirst(network);
    assert |candidate| > 1;
    assert LowerAscii(candidate)[0] == candidate[0];
    assert LowerAscii(candidate) != "<local>" by { assert "<local>"[0] == '<'; }
  }

  lemma {:induction false} KeepsFirst(s: string)
    requires s != [] && !IsBracket(s[0])
    ensures TrimBracketsEnd(s) != [] && TrimBracketsEnd(s)[0] == s[0]
  {
    if IsBracket(s[|s| - 1]) {
      KeepsFirst(s[..|s| - 1]);
    }
  }

  /**
   * Dropping the star keeps a piece's meaning, exactly unless only dots follow the star: such a piece
   * matched every host and then matches none.
   */
  lemma DroppingTheStar(t: Target, raw: string, parse: IpParser)
    requires ParsesAddresses(parse) && IsStarred(raw)
    ensures !StarAndDots(raw) ==> PieceMatches(t, Normal(raw), parse) == PieceMatches(t, raw, parse)
    ensures StarAndDots(raw) ==>
              && PieceMatches(t, raw, parse) == PortMatches(t, raw)
              && PieceMatches(t, Normal(raw), parse) == (PortMatches(t, raw) && t.host == [])
  {
    var rest := raw[1..];
    assert LowerAscii(raw)[0] == '*' && LowerAscii(rest)[0] == '.' && "<local>"[0] == '<';
    InByLastIndex(raw, '/');
    InByLastIndex(rest, '/');
    assert raw == [raw[0]] + rest;
    if LastIndex(raw, '/') >= 0 {
      CidrNeedsAnAddress(t, raw, parse);
      CidrNeedsAnAddress(t, rest, parse);
    } else {
      assert rest != "*" by { assert rest[0] == '.'; }
      assert raw != "*" by { assert |raw| >= 2; }
      StarAndPort(t, raw);
      PieceByParts(t, raw, parse);
      PieceByParts(t, rest, parse);
      NameWithoutStar(t, HostPart(rest));
      assert HostPart(raw)[1..] == HostPart(rest);
    }
  }

  // ---------------------------------------------------------------- what the merged list lets bypass

  /** The target's address is what its host denotes. */
  ghost predicate WellParsed(t: Target, parse: IpParser) {
    t.address == parse(t.host)
  }

  /** A name without colons, or with several, that the matcher takes as it is. */
  predicate IsPlainName(name: string) {
    && name != [] && Count(name, ':') != 1 && LowerAscii(name) == name
    && (forall i :: 0 <= i < |name| ==> IsAlphanumeric(name[i]) || name[i] == '.' || name[i] == ':')
    && name[0] != '.' && name[|name| - 1] != '.'
  }

  /** It matches its own host only. */
  lemma PlainName(t: Target, name: string, parse: IpParser)
    requires IsPlainName(name)
    ensures PieceMatches(t, name, parse) ==> t.host == name
  {
    assert name[0] != '*' && name[0] != '<' && "<local>"[0] == '<';
    InByLastIndex(name, '/');
    assert LastIndex(name, '/') < 0 && HostPart(name) == name;
    PieceByParts(t, name, parse);
    PlainNameMatches(t, name);
  }

  lemma PlainNameMatches(t: Target, name: string)
    requires name != [] && LowerAscii(name) == name
    requires forall i :: 0 <= i < |name| ==> IsAlphanumeric(name[i]) || name[i] == '.' || name[i] == ':'
    requires name[0] != '.' && name[|name| - 1] != '.'
    ensures NameMatches(t, name) <==> t.host == name
  {
    assert TrimDots(name) == name && Normal(name) == name;
    assert !IsBracket(name[0]) && !IsBracket(name[|name| - 1]);
    assert TrimBracketsStart(name) == name && TrimBracketsEnd(name) == name;
    assert '*' !in name;
  }

  lemma OnlyLoopback(t: Target, name: string, parse: IpParser)
    requires WellParsed(t, parse) && IsPlainName(name)
    requires name == "localhost" || (parse(name).Some? && IsLoopback(parse(name).value))
    ensures PieceMatches(t, name, parse) ==> Loopback(t)
  {
    PlainName(t, name, parse);
  }

  lemma AddressIsPlain()
    ensures IsPlainName("127.0.0.1")
  {
    RequiredAreLower(0);
    NoColons("127.0.0.1");
  }

  lemma LocalhostIsPlain()
    ensures IsPlainName("localhost")
  {
    RequiredAreLower(1);
    NoColons("localhost");
  }

  lemma ShortAddressIsPlain()
    ensures IsPlainName("::1")
  {
    var name: string := "::1";
    RequiredAreLower(2);
    assert name[1..][1..] == "1" && Count("1", ':') == 0;
    assert Count(name[1..], ':') == 1 && Count(name, ':') == 2;
  }

  lemma {:induction false} NoColons(name: string)
    requires forall i :: 0 <= i < |name| ==> name[i] != ':'
    ensures Count(name, ':') == 0
  {
    if name != [] {
      NoColons(name[1..]);
    }
  }

  lemma RequiredIsPlain(entry: string)
    requires entry in REQUIRED
    ensures IsPlainName(entry)
  {
    AddressIsPlain();
    LocalhostIsPlain();
    ShortAddressIsPlain();
  }

  /** The entries always added let only loopback targets bypass. */
  lemma RequiredOnlyLoopback(t: Target, entry: string, parse: IpParser)
    requires ParsesAddresses(parse) && WellParsed(t, parse) && entry in REQUIRED
    ensures PieceMatches(t, entry, parse) ==> Loopback(t)
  {
    RequiredIsPlain(entry);
    OnlyLoopback(t, entry, parse);
  }

  /** The pieces merging keeps. */
  predicate KeptPiece(raw: string) {
    raw != [] && Acceptable(Normal(raw))
  }

  lemma {:induction false} EntriesComeFromPieces(raws: seq<string>, e: string)
    requires e in Collected(raws)
    ensures e in REQUIRED || exists raw :: raw in raws && KeptPiece(raw) && e == Normal(raw)
  {
    if raws != [] {
      var n := |raws| - 1;
      if e in Collected(raws[..n]) {
        EntriesComeFromPieces(raws[..n], e);
        assert forall raw :: raw in raws[..n] ==> raw in raws;
      } else {
        assert raws[n] in raws && KeptPiece(raws[n]) && e == Normal(raws[n]);
      }
    }
  }

  lemma AddKeepsKnown(entries: seq<string>, raw: string, entry: string)
    requires Known(entries, entry)
    ensures Known(Add(entries, raw), entry)
  {
    var e :| e in entries && LowerAscii(e) == LowerAscii(entry);
    assert e in Add(entries, raw);
  }

  lemma AddMakesKnown(entries: seq<string>, raw: string)
    requires KeptPiece(raw)
    ensures Known(Add(entries, raw), Normal(raw))
  {
    if !Known(entries, Normal(raw)) {
      assert Normal(raw) in Add(entries, raw);
    }
  }

  lemma {:induction false} PiecesAreKnown(raws: seq<string>, raw: string)
    requires raw in raws && KeptPiece(raw)
    ensures Known(Collected(raws), Normal(raw))
  {
    var n := |raws| - 1;
    if raw in raws[..n] {
      PiecesAreKnown(raws[..n], raw);
      AddKeepsKnown(Collected(raws[..n]), raws[n], Normal(raw));
    } else {
      assert raw == raws[n];
      AddMakesKnown(Collected(raws[..n]), raw);
    }
  }

  /** Exactly who bypasses by the merged list: loopback targets, and those a kept piece covers once its star is gone. */
  lemma MergedBypasses(t: Target, values: seq<string>, parse: IpParser)
    requires ParsesAddresses(parse) && WellParsed(t, parse)
    ensures Bypasses(t, Merge(values), parse)
       <==> Loopback(t)
            || exists raw :: raw in AllPieces(values) && KeptPiece(raw) && PieceMatches(t, Normal(raw), parse)
  {
    var raws := AllPieces(values);
    MergedList(values);
    if p :| p in Collected(raws) && PieceMatches(t, p, parse) {
      EntriesComeFromPieces(raws, p);
      if p in REQUIRED {
        RequiredOnlyLoopback(t, p, parse);
      }
    }
    if raw :| raw in raws && KeptPiece(raw) && PieceMatches(t, Normal(raw), parse) {
      PiecesAreKnown(raws, raw);
      var e :| e in Collected(raws) && LowerAscii(e) == LowerAscii(Normal(raw));
      CaseDoesNotMatter(t, e, Normal(raw), parse);
    }
  }

  lemma {:induction false} PiecesOfSome(values: seq<string>, raw: string)
    ensures raw in AllPieces(values) <==> exists v :: v in values && raw in Pieces(v)
  {
    if values != [] {
      var most, last := values[..|values| - 1], values[|values| - 1];
      PiecesOfSome(most, raw);
      assert last in values;
      assert forall v :: v in values <==> v in most || v == last;
    }
  }

  /** Some input list lets the target bypass on its own. */
  predicate SomeListBypasses(t: Target, values: seq<string>, parse: IpParser) {
    exists v :: v in values && Bypasses(t, v, parse)
  }

  /** Merging never lets a target bypass that is not loopback and that no input list lets bypass. */
  lemma MergeNeverWidens(t: Target, values: seq<string>, parse: IpParser)
    requires ParsesAddresses(parse) && WellParsed(t, parse) && Bypasses(t, Merge(values), parse)
    ensures Loopback(t) || SomeListBypasses(t, values, parse)
  {
    MergedBypasses(t, values, parse);
    if raw :| raw in AllPieces(values) && KeptPiece(raw) && PieceMatches(t, Normal(raw), parse) {
      if IsStarred(raw) {
        DroppingTheStar(t, raw, parse);
      }
      PiecesOfSome(values, raw);
      var v :| v in values && raw in Pieces(v);
      assert Bypasses(t, v, parse);
    }
  }

  /** What dropping the star leaves of a piece. */
  lemma NormalMatches(t: Target, raw: string, parse: IpParser)
    requires ParsesAddresses(parse)
    ensures PieceMatches(t, Normal(raw), parse)
       <==> PieceMatches(t, raw, parse) && (StarAndDots(raw) ==> t.host == [])
  {
    if IsStarred(raw) {
      DroppingTheStar(t, raw, parse);
    }
  }

  /** A kept piece lets the target bypass, and is no star before dots. */
  predicate Carries(t: Target, raw: string, parse: IpParser) {
    KeptPiece(raw) && PieceMatches(t, raw, parse) && (StarAndDots(raw) ==> t.host == [])
  }

  /**
   * Exactly whom merging stops from bypassing: targets that are not loopback, and that input lists cover only
   * by pieces that are not kept or are a star before dots.
   */
  lemma MergeNarrows(t: Target, values: seq<string>, parse: IpParser)
    requires ParsesAddresses(parse) && WellParsed(t, parse)
    ensures Bypasses(t, Merge(values), parse)
       <==> Loopback(t) || exists raw :: raw in AllPieces(values) && Carries(t, raw, parse)
  {
    MergedBypasses(t, values, parse);
    forall raw
      ensures KeptPiece(raw) && PieceMatches(t, Normal(raw), parse) <==> Carries(t, raw, parse)
    {
      NormalMatches(t, raw, parse);
    }
  }

  /** Nothing is lost if all pieces are kept and none is a star before dots. */
  lemma MergeKeepsTheRest(t: Target, values: seq<string>, parse: IpParser)
    requires ParsesAddresses(parse) && WellParsed(t, parse)
    requires forall raw :: raw in AllPieces(values) && raw != [] ==> KeptPiece(raw) && !StarAndDots(raw)
    ensures Loopback(t) || SomeListBypasses(t, values, parse) ==> Bypasses(t, Merge(values), parse)
  {
    MergeNarrows(t, values, parse);
    if !Loopback(t) && SomeListBypasses(t, values, parse) {
      var v :| v in values && Bypasses(t, v, parse);
      var raw :| raw in Pieces(v) && PieceMatches(t, raw, parse);
      PiecesOfSome(values, raw);
      assert Carries(t, raw, parse);
    }
  }
}
