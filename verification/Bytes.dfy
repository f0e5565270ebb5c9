/** Byte strings and the handful of Python `bytes` operations the proxy scripts use. */
module Bytes {
  /** A byte, written as the character with the same code so that literals stay readable. */
  type byte = c: char | c as int < 256 witness ' '
  type bytes = seq<byte>

  const CRLF: bytes := "\r\n"
  const CRLFCRLF: bytes := "\r\n\r\n"

  // ---------------------------------------------------------------- find

  predicate OccursAt(s: bytes, pattern: bytes, i: int) {
    0 <= i && i + |pattern| <= |s| && s[i..i + |pattern|] == pattern
  }

  /** `s.find(pattern)`: the leftmost occurrence, or -1. */
  function Find(s: bytes, pattern: bytes): (r: int)
    requires pattern != []
    ensures -1 <= r
    ensures r >= 0 ==> OccursAt(s, pattern, r)
    ensures forall i :: OccursAt(s, pattern, i) ==> 0 <= r <= i
  {
    if |s| < |pattern| then -1
    else if s[..|pattern|] == pattern then
      assert s[0..0 + |pattern|] == s[..|pattern|];
      0
    else
      var rest := Find(s[1..], pattern);
      assert forall i :: OccursAt(s, pattern, i) ==> i >= 1 && OccursAt(s[1..], pattern, i - 1) by {
        forall i | OccursAt(s, pattern, i) ensures i >= 1 && OccursAt(s[1..], pattern, i - 1) {
          assert i != 0;
          assert s[1..][i - 1..i - 1 + |pattern|] == s[i..i + |pattern|];
        }
      }
      assert rest >= 0 ==> s[1..][rest..rest + |pattern|] == s[rest + 1..rest + 1 + |pattern|];
      if rest < 0 then -1 else rest + 1
  }

  /** The leftmost occurrence is pinned down by its two defining facts. */
  lemma FindIs(s: bytes, pattern: bytes, r: nat)
    requires pattern != []
    requires OccursAt(s, pattern, r)
    requires forall i :: 0 <= i < r ==> !OccursAt(s, pattern, i)
    ensures Find(s, pattern) == r
  {
  }

  lemma OccursInConcat(a: bytes, b: bytes, pattern: bytes, i: int)
    requires pattern != [] && 0 <= i && i + |pattern| <= |a|
    ensures OccursAt(a + b, pattern, i) <==> OccursAt(a, pattern, i)
  {
    assert (a + b)[i..i + |pattern|] == a[i..i + |pattern|];
  }

  /** Appending bytes never moves an occurrence already found; a new one must reach past the old end. */
  lemma FindExtend(a: bytes, b: bytes, pattern: bytes)
    requires pattern != []
    ensures Find(a, pattern) >= 0 ==> Find(a + b, pattern) == Find(a, pattern)
    ensures Find(a, pattern) < 0 ==> Find(a + b, pattern) < 0 || Find(a + b, pattern) + |pattern| > |a|
  {
    var r := Find(a + b, pattern);
    if r >= 0 && r + |pattern| <= |a| {
      OccursInConcat(a, b, pattern, r);
    }
    var q := Find(a, pattern);
    if q >= 0 {
      OccursInConcat(a, b, pattern, q);
    }
  }

  /** A line without CRLF followed by CRLF ends exactly there: CRLF cannot straddle the join. */
  lemma FindLine(line: bytes, rest: bytes)
    requires Find(line, CRLF) < 0
    ensures Find(line + CRLF + rest, CRLF) == |line|
  {
    var s := line + CRLF + rest;
    assert OccursAt(s, CRLF, |line|) by { assert s[|line|..|line| + 2] == CRLF; }
    assert s == line + (CRLF + rest);
    FindExtend(line, CRLF + rest, CRLF);
    var r := Find(s, CRLF);
    assert s[r + 1] == s[r..r + 2][1] == '\n';
    assert s[|line|] == '\r';
  }

  /** The part of a byte string before its first CRLF contains none. */
  lemma LineBeforeFind(s: bytes, pattern: bytes)
    requires pattern != [] && Find(s, pattern) >= 0
    ensures Find(s[..Find(s, pattern)], pattern) < 0
    ensures s == s[..Find(s, pattern)] + pattern + s[Find(s, pattern) + |pattern|..]
  {
    var r := Find(s, pattern);
    var q := Find(s[..r], pattern);
    assert s == s[..r] + s[r..];
    if q >= 0 {
      OccursInConcat(s[..r], s[r..], pattern, q);
      assert false;
    }
    assert s[r..r + |pattern|] == pattern;
  }

  /** Appending leaves what was already there in place. */
  lemma SliceAppend(a: bytes, b: bytes, k: nat)
    requires k <= |a|
    ensures (a + b)[..k] == a[..k] && (a + b)[k..] == a[k..] + b
  {
  }

  /** A single byte is found at its first occurrence. */
  lemma FindByte(before: bytes, c: byte, after: bytes)
    requires c !in before
    ensures Find(before + [c] + after, [c]) == |before|
  {
    var s := before + [c] + after;
    assert s[|before|..|before| + 1] == [c];
    forall i | 0 <= i < |before| ensures !OccursAt(s, [c], i) {
      assert s[i..i + 1][0] == before[i];
    }
    FindIs(s, [c], |before|);
  }

  lemma OccurrenceStarts(s: bytes, pattern: bytes, i: int)
    requires pattern != [] && OccursAt(s, pattern, i)
    ensures pattern[0] in s
  {
    assert s[i] == s[i..i + |pattern|][0];
  }

  lemma FindAbsent(s: bytes, c: byte, pattern: bytes)
    requires c !in s && pattern != [] && pattern[0] == c
    ensures Find(s, pattern) < 0
  {
    if Find(s, pattern) >= 0 {
      OccurrenceStarts(s, pattern, Find(s, pattern));
      assert false;
    }
  }

  // ---------------------------------------------------------------- split and join

  /** `s.split(sep)` */
  function Split(s: bytes, sep: bytes): (r: seq<bytes>)
    requires sep != []
    ensures |r| >= 1
    ensures forall p :: p in r ==> Find(p, sep) < 0
    decreases |s|
  {
    var at := Find(s, sep);
    if at < 0 then [s]
    else
      LineBeforeFind(s, sep);
      [s[..at]] + Split(s[at + |sep|..], sep)
  }

  /** `sep.join(parts)` */
  function Join(parts: seq<bytes>, sep: bytes): bytes {
    if |parts| == 0 then []
    else if |parts| == 1 then parts[0]
    else parts[0] + sep + Join(parts[1..], sep)
  }

  lemma {:induction false} JoinSplit(s: bytes, sep: bytes)
    requires sep != []
    ensures Join(Split(s, sep), sep) == s
    decreases |s|
  {
    var at := Find(s, sep);
    if at >= 0 {
      LineBeforeFind(s, sep);
      JoinSplit(s[at + |sep|..], sep);
      var tail := Split(s[at + |sep|..], sep);
      assert ([s[..at]] + tail)[1..] == tail;
    }
  }

  /** Lines without CRLF survive being joined by CRLF and split again. */
  lemma {:induction false} SplitJoinLines(lines: seq<bytes>)
    requires |lines| >= 1
    requires forall l :: l in lines ==> Find(l, CRLF) < 0
    ensures Split(Join(lines, CRLF), CRLF) == lines
  {
    if |lines| == 1 {
      assert lines == [lines[0]];
    } else {
      var rest := Join(lines[1..], CRLF);
      SplitJoinLines(lines[1..]);
      FindLine(lines[0], rest);
      var s := lines[0] + CRLF + rest;
      assert s[..|lines[0]|] == lines[0];
      assert s[|lines[0]| + 2..] == rest;
      assert lines == [lines[0]] + lines[1..];
    }
  }

  /** Joined non-empty lines hold no blank line, so a head made of them ends at its first CRLFCRLF. */
  lemma {:induction false} FindHeadEnd(lines: seq<bytes>)
    requires |lines| >= 1
    requires forall l :: l in lines ==> l != [] && Find(l, CRLF) < 0
    ensures Find(Join(lines, CRLF) + CRLFCRLF, CRLFCRLF) == |Join(lines, CRLF)|
  {
    var body := Join(lines, CRLF);
    var s := body + CRLFCRLF;
    assert OccursAt(s, CRLFCRLF, |body|) by { assert s[|body|..|body| + 4] == CRLFCRLF; }
    var r := Find(s, CRLFCRLF);
    if r < |body| {
      NoBlankLine(lines, r);
    }
  }

  lemma {:induction false} NoBlankLine(lines: seq<bytes>, r: nat)
    requires |lines| >= 1
    requires forall l :: l in lines ==> l != [] && Find(l, CRLF) < 0
    requires r < |Join(lines, CRLF)|
    ensures !OccursAt(Join(lines, CRLF) + CRLFCRLF, CRLFCRLF, r)
  {
    var line := lines[0];
    var s := Join(lines, CRLF) + CRLFCRLF;
    if OccursAt(s, CRLFCRLF, r) {
      TwoCrlfs(s, r);
      assert s[r] == s[r..r + 2][0] == '\r';
      var after := AfterFirstLine(lines);
      assert s[|line| + 1] == '\n';
      if r == |line| {
        assert OccursAt(after, CRLF, 0) by { assert after[0..2] == s[r + 2..r + 4]; }
        FirstLineEnd(lines, after);
        assert false;
      } else if r == |line| + 1 {
        assert false;
      } else {
        if |lines| == 1 { assert false; }
        assert forall l :: l in lines[1..] ==> l in lines;
        assert after[r - |line| - 2..r - |line| + 2] == s[r..r + 4];
        NoBlankLine(lines[1..], r - |line| - 2);
      }
    }
  }

  lemma TwoCrlfs(s: bytes, r: nat)
    requires OccursAt(s, CRLFCRLF, r)
    ensures OccursAt(s, CRLF, r) && OccursAt(s, CRLF, r + 2)
  {
    assert s[r..r + 2] == s[r..r + 4][..2] == CRLF;
    assert s[r + 2..r + 4] == s[r..r + 4][2..] == CRLF;
  }

  /** What follows the first line of a rendered head, which is where its first CRLF stands. */
  lemma AfterFirstLine(lines: seq<bytes>) returns (after: bytes)
    requires |lines| >= 1
    requires forall l :: l in lines ==> Find(l, CRLF) < 0
    ensures var s := Join(lines, CRLF) + CRLFCRLF;
            && s == lines[0] + CRLF + after && Find(s, CRLF) == |lines[0]| && after == s[|lines[0]| + 2..]
    ensures |lines| == 1 ==> after == CRLF
    ensures |lines| > 1 ==> after == Join(lines[1..], CRLF) + CRLFCRLF
  {
    after := if |lines| == 1 then CRLF else Join(lines[1..], CRLF) + CRLFCRLF;
    var s := Join(lines, CRLF) + CRLFCRLF;
    assert s == lines[0] + CRLF + after;
    FindLine(lines[0], after);
    assert s[|lines[0]| + 2..] == after;
  }

  lemma FirstLineEnd(lines: seq<bytes>, after: bytes)
    requires |lines| >= 1
    requires forall l :: l in lines ==> l != [] && Find(l, CRLF) < 0
    requires |lines| > 1 ==> after == Join(lines[1..], CRLF) + CRLFCRLF
    requires OccursAt(after, CRLF, 0)
    ensures |lines| == 1
  {
    if |lines| > 1 {
      assert lines[1] in lines;
      var next := AfterFirstLine(lines[1..]);
      assert false;
    }
  }

  // ---------------------------------------------------------------- characters

  /** What `bytes.strip()` removes. */
  predicate IsSpace(c: byte) {
    c == ' ' || '\t' <= c <= '\r'
  }

  function StripLeft(s: bytes): (r: bytes)
    ensures |r| <= |s|
  {
    if s != [] && IsSpace(s[0]) then StripLeft(s[1..]) else s
  }

  function StripRight(s: bytes): (r: bytes)
    ensures |r| <= |s|
  {
    if s != [] && IsSpace(s[|s| - 1]) then StripRight(s[..|s| - 1]) else s
  }

  function Strip(s: bytes): (r: bytes)
    ensures |r| <= |s|
  {
    StripRight(StripLeft(s))
  }

  /** Nothing is stripped off a string that neither starts nor ends with white space. */
  lemma StripTrimmed(s: bytes)
    requires s != [] ==> !IsSpace(s[0]) && !IsSpace(s[|s| - 1])
    ensures Strip(s) == s
  {
  }

  function LowerByte(c: byte): byte {
    if 'A' <= c <= 'Z' then (c as int + 32) as char else c
  }

  /** `s.lower()`: ASCII letters only. */
  function Lower(s: bytes): (r: bytes)
    ensures |r| == |s|
  {
    seq(|s|, i requires 0 <= i < |s| => LowerByte(s[i]))
  }

  function UpperByte(c: byte): byte {
    if 'a' <= c <= 'z' then (c as int - 32) as char else c
  }

  /** `s.upper()` */
  function Upper(s: bytes): (r: bytes)
    ensures |r| == |s|
  {
    seq(|s|, i requires 0 <= i < |s| => UpperByte(s[i]))
  }

  predicate IsDigit(c: byte) { '0' <= c <= '9' }

  predicate IsHexDigit(c: byte) {
    IsDigit(c) || 'a' <= c <= 'f' || 'A' <= c <= 'F'
  }

  /** `s.isdigit()`: false for the empty string. */
  predicate AllDigits(s: bytes) {
    s != [] && forall c :: c in s ==> IsDigit(c)
  }

  predicate AllHexDigits(s: bytes) {
    s != [] && forall c :: c in s ==> IsHexDigit(c)
  }

  function HexValue(c: byte): nat
    requires IsHexDigit(c)
  {
    if IsDigit(c) then c as int - '0' as int
    else if c <= 'F' then c as int - 'A' as int + 10
    else c as int - 'a' as int + 10
  }

  /** `int(s, 10)` */
  function DecimalValue(s: bytes): nat
    requires forall c :: c in s ==> IsDigit(c)
  {
    if s == [] then 0
    else 10 * DecimalValue(s[..|s| - 1]) + HexValue(s[|s| - 1])
  }

  /** `int(s, 16)` */
  function HexadecimalValue(s: bytes): nat
    requires forall c :: c in s ==> IsHexDigit(c)
  {
    if s == [] then 0
    else 16 * HexadecimalValue(s[..|s| - 1]) + HexValue(s[|s| - 1])
  }

  predicate IsTokenChar(c: byte) {
    IsDigit(c) || 'a' <= c <= 'z' || 'A' <= c <= 'Z' || c in "!#$%&'*+.^_`|~-"
  }

  /** A full match of the header-name pattern. */
  predicate IsToken(s: bytes) {
    s != [] && forall c :: c in s ==> IsTokenChar(c)
  }
}
