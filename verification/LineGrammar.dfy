/**
 * The lines of a request, as a grammar writes them (sections 3 and 7.1 of RFC 9112, sections 5.1 and 5.6.2 of
 * RFC 9110), and that the readers of lines read exactly what is written.
 */
module LineGrammar {
  import opened Wrappers
  import opened Bytes
  import opened Numerals
  import opened RequestHead
  import opened StreamRewriter

  // ---------------------------------------------------------------- characters

  const DELIMITERS: bytes := "\"(),/:;<=>?@[\\]{}"
  const CAPITALS: bytes := "ABCDEFGHIJKLMNOPQRSTUVWXYZ"
  const SMALL: bytes := "abcdefghijklmnopqrstuvwxyz"
  const WHITE: bytes := [' ', '\t', '\n', '\U{0B}', '\U{0C}', '\r']

  /** A token holds any visible character but the delimiters. */
  lemma TokenCharIs(c: byte)
    ensures IsTokenChar(c) <==> '!' <= c <= '~' && c !in DELIMITERS
  {
    if IsTokenChar(c) {
      NotADelimiter(c);
    } else if '!' <= c <= '~' {
      IsADelimiter(c);
    }
  }

  lemma NotADelimiter(c: byte)
    requires IsTokenChar(c)
    ensures '!' <= c <= '~' && c !in DELIMITERS
  {
  }

  lemma IsADelimiter(c: byte)
    requires '!' <= c <= '~' && !IsTokenChar(c)
    ensures c in DELIMITERS
  {
  }

  lemma SpaceIs(c: byte)
    ensures IsSpace(c) <==> c in WHITE
  {
  }

  lemma LetterCase(i: nat)
    requires i < 26
    ensures LowerByte(CAPITALS[i]) == SMALL[i] && UpperByte(SMALL[i]) == CAPITALS[i]
  {
  }

  lemma OthersHaveNoCase(c: byte)
    ensures c !in CAPITALS ==> LowerByte(c) == c
    ensures c !in SMALL ==> UpperByte(c) == c
  {
    if 'A' <= c <= 'Z' {
      assert CAPITALS[c as int - 'A' as int] == c;
    }
    if 'a' <= c <= 'z' {
      assert SMALL[c as int - 'a' as int] == c;
    }
  }

  // ---------------------------------------------------------------- white space around

  predicate AllWhite(s: bytes) {
    forall c :: c in s ==> IsSpace(c)
  }

  predicate Trimmed(s: bytes) {
    s == [] || (!IsSpace(s[0]) && !IsSpace(s[|s| - 1]))
  }

  lemma {:induction false} StripLeftParts(s: bytes) returns (before: bytes)
    ensures s == before + StripLeft(s) && AllWhite(before)
    ensures StripLeft(s) == [] || !IsSpace(StripLeft(s)[0])
  {
    if s != [] && IsSpace(s[0]) {
      var rest := StripLeftParts(s[1..]);
      before := [s[0]] + rest;
    } else {
      before := [];
    }
  }

  lemma {:induction false} StripRightParts(s: bytes) returns (after: bytes)
    ensures s == StripRight(s) + after && AllWhite(after)
    ensures StripRight(s) == [] || !IsSpace(StripRight(s)[|StripRight(s)| - 1])
    ensures StripRight(s) == [] || StripRight(s)[0] == s[0]
  {
    if s != [] && IsSpace(s[|s| - 1]) {
      var rest := StripRightParts(s[..|s| - 1]);
      after := rest + [s[|s| - 1]];
    } else {
      after := [];
    }
  }

  lemma StripParts(s: bytes) returns (before: bytes, after: bytes)
    ensures s == before + Strip(s) + after && AllWhite(before) && AllWhite(after) && Trimmed(Strip(s))
  {
    before := StripLeftParts(s);
    after := StripRightParts(StripLeft(s));
    assert s == before + (Strip(s) + after);
  }

  lemma {:induction false} StripLeftOff(before: bytes, s: bytes)
    requires AllWhite(before) && (s == [] || !IsSpace(s[0]))
    ensures StripLeft(before + s) == s
  {
    if before == [] {
      assert before + s == s;
    } else {
      assert before[0] in before && (before + s)[1..] == before[1..] + s;
      StripLeftOff(before[1..], s);
    }
  }

  lemma {:induction false} StripRightOff(s: bytes, after: bytes)
    requires AllWhite(after) && (s == [] || !IsSpace(s[|s| - 1]))
    ensures StripRight(s + after) == s
  {
    if after == [] {
      assert s + after == s;
    } else {
      var n := |after| - 1;
      assert after[n] in after && (s + after)[..|s + after| - 1] == s + after[..n];
      StripRightOff(s, after[..n]);
    }
  }

  lemma {:induction false} WhiteStripsAway(s: bytes)
    requires AllWhite(s)
    ensures StripLeft(s) == []
  {
    if s != [] {
      assert s[0] in s;
      WhiteStripsAway(s[1..]);
    }
  }

  /** Exactly what stripping leaves: what is trimmed, with nothing but white space around it. */
  lemma StripIs(s: bytes, core: bytes)
    ensures Strip(s) == core
       <==> Trimmed(core) && exists before, after :: s == before + core + after && AllWhite(before) && AllWhite(after)
  {
    if Strip(s) == core {
      var before, after := StripParts(s);
    }
    if before, after :| Trimmed(core) && s == before + core + after && AllWhite(before) && AllWhite(after) {
      StripOff(before, core, after);
    }
  }

  lemma StripOff(before: bytes, core: bytes, after: bytes)
    requires Trimmed(core) && AllWhite(before) && AllWhite(after)
    ensures Strip(before + core + after) == core
  {
    if core == [] {
      assert before + core + after == before + after;
      WhiteStripsAway(before + after);
    } else {
      assert before + core + after == before + (core + after);
      StripLeftOff(before, core + after);
      StripRightOff(core, after);
    }
  }

  // ---------------------------------------------------------------- chunk-size lines

  /** A chunk-size line: hexadecimal digits of either case, with zeros in front, white space around, an extension. */
  datatype SizeLine = SizeLine(before: bytes, zeros: nat, digits: bytes, after: bytes, extension: bytes)

  function SizeLineText(p: SizeLine): bytes {
    p.before + p.digits + p.after + p.extension
  }

  predicate SizeLineSays(p: SizeLine, n: nat) {
    && AllWhite(p.before) && AllWhite(p.after) && Spells(p.digits, p.zeros, n, 16)
    && (p.extension == [] || p.extension[0] == ';')
  }

  /** The line announces a chunk of so many bytes. */
  ghost predicate IsSizeLine(line: bytes, n: nat) {
    exists p :: SizeLineText(p) == line && SizeLineSays(p, n)
  }

  /** What is spelled in hexadecimal consists of digits. */
  lemma SpelledInDigits(s: bytes, zeros: nat, n: nat)
    requires Spells(s, zeros, n, 16)
    ensures AllHexDigits(s)
  {
    NumeralIsHexadecimal(n);
    var numeral := Numeral(n, 16);
    LeadingZerosHexadecimal(zeros, numeral);
    forall c | c in s ensures IsHexDigit(c) {
      var i :| 0 <= i < |s| && s[i] == c;
      assert Lower(s)[i] == LowerByte(c) && Lower(s)[i] in Zeros(zeros) + numeral;
    }
  }

  lemma DigitsAreTrimmed(s: bytes)
    requires AllHexDigits(s)
    ensures Trimmed(s) && ';' !in s
  {
    assert s[0] in s && s[|s| - 1] in s;
  }

  lemma FirstSemicolon(text: bytes, extension: bytes)
    requires ';' !in text && (extension == [] || extension[0] == ';')
    ensures Find(text + extension, ";") == if extension == [] then -1 else |text|
  {
    if extension == [] {
      assert text + extension == text;
      FindAbsent(text, ';', ";");
    } else {
      assert text + extension == text + [';'] + extension[1..];
      FindByte(text, ';', extension[1..]);
      assert [';'] == ";";
    }
  }

  lemma SizeReads(p: SizeLine, n: nat)
    requires SizeLineSays(p, n)
    ensures SizeOf(SizeLineText(p)) == Some(n)
  {
    var text := p.before + p.digits + p.after;
    SpelledInDigits(p.digits, p.zeros, n);
    DigitsAreTrimmed(p.digits);
    assert ';' !in text;
    FirstSemicolon(text, p.extension);
    assert (text + p.extension)[..|text|] == text && (p.extension == [] ==> text + p.extension == text);
    StripOff(p.before, p.digits, p.after);
    HexadecimalIs(p.digits, n);
  }

  lemma AtSemicolon(line: bytes) returns (text: bytes, extension: bytes)
    ensures line == text + extension && (extension == [] || extension[0] == ';')
    ensures text == if Find(line, ";") < 0 then line else line[..Find(line, ";")]
  {
    var at := Find(line, ";");
    if at < 0 {
      text, extension := line, [];
    } else {
      text, extension := line[..at], line[at..];
      assert line[at..at + 1] == ";" && extension[0] == line[at..at + 1][0];
    }
  }

  lemma SizeWritten(line: bytes, n: nat) returns (p: SizeLine)
    requires SizeOf(line) == Some(n)
    ensures SizeLineText(p) == line && SizeLineSays(p, n)
  {
    var text, extension := AtSemicolon(line);
    var before, after := StripParts(text);
    var zeros := HexadecimalSpells(Strip(text));
    p := SizeLine(before, zeros, Strip(text), after, extension);
  }

  /** Exactly what a chunk-size line announces. */
  lemma SizeOfIs(line: bytes, n: nat)
    ensures SizeOf(line) == Some(n) <==> IsSizeLine(line, n)
  {
    if SizeOf(line) == Some(n) {
      var p := SizeWritten(line, n);
    }
    if p :| SizeLineText(p) == line && SizeLineSays(p, n) {
      SizeReads(p, n);
    }
  }

  /** A line announces one size at most. */
  lemma OneSize(line: bytes, m: nat, n: nat)
    requires IsSizeLine(line, m) && IsSizeLine(line, n)
    ensures m == n
  {
    SizeOfIs(line, m);
    SizeOfIs(line, n);
  }

  // ---------------------------------------------------------------- field lines

  /** A field line: a token, a colon, a value. */
  predicate IsField(line: bytes, name: bytes, value: bytes) {
    IsToken(name) && line == name + [':'] + value
  }

  lemma TokenHasNoColon(name: bytes)
    requires IsToken(name)
    ensures ':' !in name && Trimmed(name)
  {
    assert name[0] in name && name[|name| - 1] in name;
  }

  lemma FieldAt(line: bytes, name: bytes, value: bytes)
    requires IsField(line, name, value)
    ensures Find(line, ":") == |name| && line[..|name|] == name && line[|name| + 1..] == value
  {
    TokenHasNoColon(name);
    FindByte(name, ':', value);
    assert [':'] == ":";
  }

  lemma FieldSplits(line: bytes, at: nat)
    requires Find(line, ":") == at && IsToken(line[..at])
    ensures IsField(line, line[..at], line[at + 1..])
  {
    assert line[at..at + 1] == ":" && line == line[..at] + line[at..at + 1] + line[at + 1..];
  }

  /** A header line is a field line, and is read as what it is. */
  lemma HeaderIs(line: bytes, h: Header)
    ensures ParseHeader(line) == Some(h)
       <==> exists name :: IsField(line, name, h.value) && h.name == Lower(name) && h.line == line
  {
    if ParseHeader(line) == Some(h) {
      FieldSplits(line, Find(line, ":"));
    }
    if name :| IsField(line, name, h.value) && h.name == Lower(name) && h.line == line {
      FieldAt(line, name, h.value);
      TokenHasNoColon(name);
      StripTrimmed(name);
    }
  }

  /** A trailer line is one. */
  ghost predicate IsTrailer(line: bytes) {
    exists name, value :: IsField(line, name, value)
  }

  lemma TrailerIs(line: bytes)
    ensures ValidTrailer(line) <==> IsTrailer(line)
  {
    if ValidTrailer(line) {
      FieldSplits(line, Find(line, ":"));
    }
    if name, value :| IsField(line, name, value) {
      FieldAt(line, name, value);
    }
  }

  // ---------------------------------------------------------------- request lines

  const VERSIONS: seq<bytes> := ["HTTP/1.0", "HTTP/1.1"]

  /** A request line: method, target and version, none with a space in it. */
  predicate IsRequestLine(line: bytes, methodName: bytes, target: bytes, version: bytes) {
    && line == methodName + [' '] + (target + [' '] + version)
    && methodName != [] && ' ' !in methodName
    && target != [] && ' ' !in target
    && version in VERSIONS
  }

  lemma WordSplits(word: bytes, sep: byte, rest: bytes)
    requires sep !in word
    ensures Split(word + [sep] + rest, [sep]) == [word] + Split(rest, [sep])
  {
    var s := word + [sep] + rest;
    FindByte(word, sep, rest);
    assert s[..|word|] == word && s[|word| + 1..] == rest;
  }

  lemma VersionsHaveNoSpace(version: bytes)
    requires version in VERSIONS
    ensures ' ' !in version
  {
    assert version == VERSIONS[0] || version == VERSIONS[1];
  }

  lemma RequestLineSplits(line: bytes, methodName: bytes, target: bytes, version: bytes)
    requires IsRequestLine(line, methodName, target, version)
    ensures Split(line, [' ']) == [methodName, target, version]
  {
    WordSplits(methodName, ' ', target + [' '] + version);
    WordSplits(target, ' ', version);
    VersionsHaveNoSpace(version);
    FindAbsent(version, ' ', [' ']);
    assert [target] + [version] == [target, version];
  }

  lemma AbsentByte(s: bytes, c: byte)
    requires Find(s, [c]) < 0
    ensures c !in s
  {
    forall i | 0 <= i < |s| ensures s[i] != c {
      assert !OccursAt(s, [c], i);
      assert s[i..i + 1] == [s[i]];
    }
  }

  lemma RequestLineReads(line: bytes, parts: seq<bytes>)
    requires parts == Split(line, [' ']) && ValidRequestLine(parts)
    ensures IsRequestLine(line, parts[0], parts[1], parts[2])
  {
    AbsentByte(parts[0], ' ');
    AbsentByte(parts[1], ' ');
    JoinSplit(line, [' ']);
    ThreeJoined(parts, [' ']);
    assert VERSIONS[0] in VERSIONS && VERSIONS[1] in VERSIONS;
  }

  lemma ThreeJoined(parts: seq<bytes>, sep: bytes)
    requires |parts| == 3
    ensures Join(parts, sep) == parts[0] + sep + (parts[1] + sep + parts[2])
  {
    var two := parts[1..];
    assert Join(two[1..], sep) == two[1];
    assert Join(two, sep) == two[0] + sep + two[1];
  }

  /** Exactly which request lines are taken, and the three parts they have. */
  lemma RequestLineIs(line: bytes, methodName: bytes, target: bytes, version: bytes)
    ensures Split(line, [' ']) == [methodName, target, version] && ValidRequestLine(Split(line, [' ']))
       <==> IsRequestLine(line, methodName, target, version)
  {
    if IsRequestLine(line, methodName, target, version) {
      RequestLineSplits(line, methodName, target, version);
      VersionIsValid(methodName, target, version);
    }
    if Split(line, [' ']) == [methodName, target, version] && ValidRequestLine(Split(line, [' '])) {
      RequestLineReads(line, [methodName, target, version]);
    }
  }

  lemma VersionIsValid(methodName: bytes, target: bytes, version: bytes)
    requires methodName != [] && target != [] && version in VERSIONS
    ensures ValidRequestLine([methodName, target, version])
  {
    assert version == VERSIONS[0] || version == VERSIONS[1];
  }

  // ---------------------------------------------------------------- keys

  /** Exactly the keys taken, and what is made of them: nothing. */
  lemma KeyIs(given: ApiKey, key: bytes)
    ensures ValidateApiKey(given) == Ok(key)
       <==> && (if given.Text? then given.text == key && forall i :: 0 <= i < |key| ==> key[i] as int < 128
                else given.key == key)
            && 1 <= |key| <= 2048 && forall i :: 0 <= i < |key| ==> key[i] != '\r' && key[i] != '\n'
  {
  }
}
