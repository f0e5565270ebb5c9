/** What trimming a text leaves: said by what surrounds it. */
module Trimming {
  import opened Text

  predicate Blank(s: string) {
    forall i :: 0 <= i < |s| ==> IsWhitespace(s[i])
  }

  predicate Trimmed(s: string) {
    s == [] || (!IsWhitespace(s[0]) && !IsWhitespace(s[|s| - 1]))
  }

  lemma {:induction false} StartParts(s: string) returns (before: string)
    ensures s == before + TrimStart(s) && Blank(before)
  {
    if s != [] && IsWhitespace(s[0]) {
      var rest := StartParts(s[1..]);
      before := [s[0]] + rest;
    } else {
      before := [];
    }
  }

  lemma {:induction false} EndParts(s: string) returns (after: string)
    ensures s == TrimEnd(s) + after && Blank(after)
  {
    if s != [] && IsWhitespace(s[|s| - 1]) {
      var rest := EndParts(s[..|s| - 1]);
      after := rest + [s[|s| - 1]];
    } else {
      after := [];
    }
  }

  lemma Parts(s: string) returns (before: string, after: string)
    ensures s == before + Trim(s) + after && Blank(before) && Blank(after) && Trimmed(Trim(s))
  {
    before := StartParts(s);
    after := EndParts(TrimStart(s));
    assert s == before + (Trim(s) + after);
  }

  lemma {:induction false} StartOff(before: string, s: string)
    requires Blank(before) && (s == [] || !IsWhitespace(s[0]))
    ensures TrimStart(before + s) == s
  {
    if before == [] {
      assert before + s == s;
    } else {
      assert (before + s)[1..] == before[1..] + s;
      StartOff(before[1..], s);
    }
  }

  lemma {:induction false} EndOff(s: string, after: string)
    requires Blank(after) && (s == [] || !IsWhitespace(s[|s| - 1]))
    ensures TrimEnd(s + after) == s
  {
    if after == [] {
      assert s + after == s;
    } else {
      var n := |after| - 1;
      assert (s + after)[..|s + after| - 1] == s + after[..n];
      EndOff(s, after[..n]);
    }
  }

  lemma TrimOff(before: string, core: string, after: string)
    requires Trimmed(core) && Blank(before) && Blank(after)
    ensures Trim(before + core + after) == core
  {
    if core == [] {
      assert before + core + after == before + after + [];
      StartOff(before + after, []);
    } else {
      assert before + core + after == before + (core + after);
      StartOff(before, core + after);
      EndOff(core, after);
    }
  }

  /** Exactly what trimming leaves: what is trimmed, with nothing but white space around it. */
  lemma TrimIs(s: string, core: string)
    ensures Trim(s) == core
       <==> Trimmed(core) && exists before, after :: s == before + core + after && Blank(before) && Blank(after)
  {
    if Trim(s) == core {
      var before, after := Parts(s);
    }
    if before, after :| Trimmed(core) && s == before + core + after && Blank(before) && Blank(after) {
      TrimOff(before, core, after);
    }
  }

  /** Nothing is left exactly of white space. */
  lemma NothingLeft(s: string)
    ensures Trim(s) == [] <==> Blank(s)
  {
    var before, after := Parts(s);
    if Blank(s) {
      TrimOff(s, [], []);
      assert s + [] + [] == s;
    }
    if Trim(s) == [] {
      assert s == before + after;
    }
  }

  /** White space stays so in lower case, and nothing becomes so. */
  lemma LowerTrimmed(s: string)
    ensures Trim(LowerAscii(s)) == LowerAscii(Trim(s))
  {
    var before, after := Parts(s);
    LowerJoined(before, Trim(s), after);
    SameWhitespace(before);
    SameWhitespace(after);
    TrimOff(LowerAscii(before), LowerAscii(Trim(s)), LowerAscii(after));
  }

  lemma LowerJoined(a: string, b: string, c: string)
    ensures LowerAscii(a + b + c) == LowerAscii(a) + LowerAscii(b) + LowerAscii(c)
  {
  }

  lemma SameWhitespace(s: string)
    ensures Blank(LowerAscii(s)) <==> Blank(s)
  {
    assert forall i :: 0 <= i < |s| ==> (IsWhitespace(s[i]) <==> IsWhitespace(LowerAscii(s)[i]));
  }
}
