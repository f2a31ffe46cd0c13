/** The JavaScript string operations the parsers lean on: trim, substring and join. */
module Text {

  /** WhiteSpace and LineTerminator of ECMAScript, which is what String.prototype.trim removes. */
  predicate IsSpace(c: char) {
    var n := c as int;
    9 <= n <= 13 || n == 32 || n == 0xA0 || n == 0x1680 || 0x2000 <= n <= 0x200A
    || n == 0x2028 || n == 0x2029 || n == 0x202F || n == 0x205F || n == 0x3000 || n == 0xFEFF
  }

  function TrimStart(s: string): string {
    if s != "" && IsSpace(s[0]) then TrimStart(s[1..]) else s
  }

  function TrimEnd(s: string): string {
    if s != "" && IsSpace(s[|s| - 1]) then TrimEnd(s[..|s| - 1]) else s
  }

  function Trim(s: string): string {
    TrimEnd(TrimStart(s))
  }

  predicate Trimmed(s: string) {
    s == "" || (!IsSpace(s[0]) && !IsSpace(s[|s| - 1]))
  }

  predicate AllSpace(s: string) {
    forall i | 0 <= i < |s| :: IsSpace(s[i])
  }

  lemma {:induction false} TrimStartFacts(s: string)
    ensures var r := TrimStart(s);
      && |r| <= |s| && r == s[|s| - |r|..]
      && (r != "" ==> !IsSpace(r[0]))
      && AllSpace(s[..|s| - |r|])
  {
    if s != "" && IsSpace(s[0]) {
      TrimStartFacts(s[1..]);
      var r := TrimStart(s);
      assert s[..|s| - |r|] == [s[0]] + s[1..][..|s| - 1 - |r|];
    }
  }

  lemma {:induction false} TrimEndFacts(s: string)
    ensures var r := TrimEnd(s);
      && |r| <= |s| && r == s[..|r|]
      && (r != "" ==> !IsSpace(r[|r| - 1]))
      && AllSpace(s[|r|..])
  {
    if s != "" && IsSpace(s[|s| - 1]) {
      var n := |s| - 1;
      TrimEndFacts(s[..n]);
      var r := TrimEnd(s);
      assert s[|r|..] == s[..n][|r|..] + [s[n]];
    }
  }

  lemma TrimIsTrimmed(s: string)
    ensures Trimmed(Trim(s)) && |Trim(s)| <= |s|
  {
    TrimStartFacts(s);
    TrimEndFacts(TrimStart(s));
  }

  /** Trimming changes exactly the untrimmed strings, and those get shorter. */
  lemma TrimChangesExactly(s: string)
    ensures Trim(s) == s <==> Trimmed(s)
    ensures !Trimmed(s) ==> |Trim(s)| < |s|
  {
    TrimStartFacts(s);
    TrimEndFacts(TrimStart(s));
  }

  /** What trimming takes off is white space, in front and behind. */
  lemma TrimSplits(s: string) returns (before: string, after: string)
    ensures s == before + Trim(s) + after && AllSpace(before) && AllSpace(after)
  {
    TrimStartFacts(s);
    var t := TrimStart(s);
    TrimEndFacts(t);
    before, after := s[..|s| - |t|], t[|Trim(s)|..];
    assert s == before + t;
    assert t == Trim(s) + after;
    assert before + (Trim(s) + after) == before + Trim(s) + after;
  }

  lemma {:induction false} TrimSkipsBefore(before: string, s: string)
    requires AllSpace(before)
    ensures TrimStart(before + s) == TrimStart(s)
    decreases |before|
  {
    if before == "" {
      assert before + s == s;
    } else {
      assert (before + s)[1..] == before[1..] + s && IsSpace(before[0]);
      TrimSkipsBefore(before[1..], s);
    }
  }

  lemma {:induction false} TrimSkipsAfter(s: string, after: string)
    requires AllSpace(after)
    ensures TrimEnd(s + after) == TrimEnd(s)
    decreases |after|
  {
    var n := |after| - 1;
    if after == "" {
      assert s + after == s;
    } else {
      assert (s + after)[..|s| + n] == s + after[..n] && IsSpace(after[n]);
      TrimSkipsAfter(s, after[..n]);
    }
  }

  /** White space around a trimmed text comes off again. */
  lemma TrimPadded(before: string, s: string, after: string)
    requires Trimmed(s) && s != "" && AllSpace(before) && AllSpace(after)
    ensures Trim(before + s + after) == s
  {
    assert before + s + after == before + (s + after);
    TrimSkipsBefore(before, s + after);
    assert TrimStart(s + after) == s + after;
    TrimSkipsAfter(s, after);
    assert TrimEnd(s) == s;
  }

  lemma TrimEmptyExactly(s: string)
    ensures Trim(s) == "" <==> AllSpace(s)
  {
    TrimStartFacts(s);
    TrimEndFacts(TrimStart(s));
    var a := TrimStart(s);
    if a != "" {
      assert a[0] == s[|s| - |a|];
      assert a[0..] == a;
    } else {
      assert s[..|s|] == s;
    }
  }

  /** The characters trimming takes off, one by one: white space and line terminators of ECMAScript. */
  lemma TrimmedCharacters(c: char)
    ensures Trim([c]) == "" <==> c in {
      '\t', '\n', '\U{000B}', '\U{000C}', '\r', ' ', '\U{00A0}', '\U{1680}', '\U{2000}', '\U{2001}', '\U{2002}',
      '\U{2003}', '\U{2004}', '\U{2005}', '\U{2006}', '\U{2007}', '\U{2008}', '\U{2009}', '\U{200A}', '\U{2028}',
      '\U{2029}', '\U{202F}', '\U{205F}', '\U{3000}', '\U{FEFF}'}
  {
    TrimEmptyExactly([c]);
    assert [c][0] == c;
    assert AllSpace([c]) <==> IsSpace(c);
  }

  lemma TrimSkipsLeadingSpace(c: char, s: string)
    requires IsSpace(c)
    ensures Trim([c] + s) == Trim(s)
  {
    assert ([c] + s)[1..] == s;
  }

  /** String.prototype.substring: clamps are not needed here, but swapped bounds are exchanged. */
  function Substring(s: string, start: nat, end: nat): string
    requires start <= |s| && end <= |s|
  {
    if start <= end then s[start..end] else s[end..start]
  }

  function Join(parts: seq<string>, separator: string): string {
    if parts == [] then ""
    else if |parts| == 1 then parts[0]
    else parts[0] + separator + Join(parts[1..], separator)
  }

  /** Lower case of the letters A to Z; other characters are left alone. */
  function LowerChar(c: char): char {
    if 'A' <= c <= 'Z' then c - 'A' + 'a' else c
  }

  function Lower(s: string): string {
    seq(|s|, i requires 0 <= i < |s| => LowerChar(s[i]))
  }

  const CAPITALS := "ABCDEFGHIJKLMNOPQRSTUVWXYZ"

  /** Lower case of the 26 letters, and of nothing else. */
  lemma LowersLetters(c: char)
    ensures Lower(CAPITALS) == "abcdefghijklmnopqrstuvwxyz"
    ensures c !in CAPITALS ==> Lower([c]) == [c]
  {
    if 'A' <= c <= 'Z' {
      assert CAPITALS[c as int - 'A' as int] == c;
    }
  }
}
