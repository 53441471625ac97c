/** String helpers shared by the content-script and background models: the
    whitespace that `String.prototype.trim` removes, splitting on "\n" as
    `split('\n')` does, and the case folding a non-Unicode `/i` regular
    expression applies to the ASCII keywords it is given. */
module Strings {

  /** WhiteSpace and LineTerminator code points of ECMAScript, the characters
      `trim` strips from either end. */
  predicate IsJsWhitespace(c: char) {
    || c == ' ' || c == '\t' || c == '\n' || c == '\r'
    || c == '\U{000B}' || c == '\U{000C}' || c == '\U{00A0}' || c == '\U{1680}'
    || ('\U{2000}' <= c <= '\U{200A}')
    || c == '\U{2028}' || c == '\U{2029}' || c == '\U{202F}' || c == '\U{205F}'
    || c == '\U{3000}' || c == '\U{FEFF}'
  }

  /** `s.trim() === ''`: every character is whitespace. */
  predicate IsBlank(s: string) {
    forall i :: 0 <= i < |s| ==> IsJsWhitespace(s[i])
  }

  /** Number of occurrences of `c` in `s`. */
  function Occurrences(s: string, c: char): nat {
    multiset(s)[c]
  }

  /** Joins lines with "\n" between consecutive ones; the inverse of `SplitLines`. */
  function JoinLines(lines: seq<string>): string {
    if |lines| == 0 then ""
    else if |lines| == 1 then lines[0]
    else lines[0] + "\n" + JoinLines(lines[1..])
  }

  /** `s.split('\n')`: the maximal "\n"-free pieces of `s`, in order. There is
      always at least one piece (the empty string splits into [""]). */
  function SplitLines(s: string): (lines: seq<string>)
    ensures |lines| == Occurrences(s, '\n') + 1
    ensures forall k :: 0 <= k < |lines| ==> '\n' !in lines[k]
    ensures JoinLines(lines) == s
  {
    if |s| == 0 then [""]
    else
      var rest := SplitLines(s[1..]);
      OccurrencesCons(s);
      if s[0] == '\n' then
        JoinNewlineCons(rest);
        [""] + rest
      else
        JoinCharCons(s[0], rest);
        [[s[0]] + rest[0]] + rest[1..]
  }

  lemma {:induction false} OccurrencesCons(s: string)
    requires |s| > 0
    ensures Occurrences(s, '\n') == (if s[0] == '\n' then 1 else 0) + Occurrences(s[1..], '\n')
  {
    assert s == [s[0]] + s[1..];
  }

  lemma {:induction false} JoinNewlineCons(rest: seq<string>)
    requires |rest| >= 1
    ensures JoinLines([""] + rest) == "\n" + JoinLines(rest)
  {
    assert ([""] + rest)[1..] == rest;
  }

  lemma {:induction false} JoinCharCons(c: char, rest: seq<string>)
    requires |rest| >= 1
    ensures JoinLines([[c] + rest[0]] + rest[1..]) == [c] + JoinLines(rest)
  {
    var lines := [[c] + rest[0]] + rest[1..];
    if |rest| > 1 {
      assert lines[1..] == rest[1..];
      var tail := JoinLines(rest[1..]);
      calc {
        JoinLines(lines);
        ([c] + rest[0]) + "\n" + tail;
        [c] + (rest[0] + "\n" + tail);
      }
    }
  }

  /** Splitting a join of "\n"-free lines gives the lines back. */
  lemma {:induction false} SplitJoin(lines: seq<string>)
    requires |lines| >= 1
    requires forall k :: 0 <= k < |lines| ==> '\n' !in lines[k]
    ensures SplitLines(JoinLines(lines)) == lines
  {
    if |lines| == 1 {
      SplitNoNewline(lines[0]);
    } else {
      var tail := lines[1..];
      SplitJoin(tail);
      SplitPrefix(lines[0], JoinLines(tail));
      assert lines == [lines[0]] + tail;
    }
  }

  /** A "\n"-free string is a single line. */
  lemma {:induction false} SplitNoNewline(s: string)
    requires '\n' !in s
    ensures SplitLines(s) == [s]
  {
    if |s| > 0 {
      assert s == [s[0]] + s[1..];
      SplitNoNewline(s[1..]);
      SplitCharCons(s[0], s[1..]);
    }
  }

  /** A leading "\n" closes an empty first piece. */
  lemma {:induction false} SplitNewlineCons(t: string)
    ensures SplitLines("\n" + t) == [""] + SplitLines(t)
  {
    assert ("\n" + t)[1..] == t;
  }

  /** A leading character other than "\n" extends the first piece. */
  lemma {:induction false} SplitCharCons(c: char, t: string)
    requires c != '\n'
    ensures SplitLines([c] + t) == [[c] + SplitLines(t)[0]] + SplitLines(t)[1..]
  {
    assert ([c] + t)[1..] == t;
  }

  /** Splitting `a + "\n" + b` for a "\n"-free `a` puts `a` in front of the pieces of `b`. */
  lemma {:induction false} SplitPrefix(a: string, b: string)
    requires '\n' !in a
    ensures SplitLines(a + "\n" + b) == [a] + SplitLines(b)
  {
    if |a| == 0 {
      assert a + "\n" + b == "\n" + b;
      SplitNewlineCons(b);
    } else {
      var t := a[1..] + "\n" + b;
      assert a + "\n" + b == [a[0]] + t by {
        assert a == [a[0]] + a[1..];
      }
      SplitCharCons(a[0], t);
      SplitPrefix(a[1..], b);
      assert [a[0]] + a[1..] == a;
    }
  }

  /** ASCII lower-casing; the only folding a non-Unicode `/i` pattern made of
      lower-case ASCII letters and uncased CJK characters can observe. */
  function AsciiLower(c: char): char {
    if 'A' <= c <= 'Z' then (c as int - 'A' as int + 'a' as int) as char else c
  }

  /** `text` holds `kw` case-insensitively starting at position `i`. */
  predicate MatchesAt(text: string, i: int, kw: string) {
    && 0 <= i && i + |kw| <= |text|
    && forall j :: 0 <= j < |kw| ==> AsciiLower(text[i + j]) == AsciiLower(kw[j])
  }

  /** `new RegExp(kw, 'i').test(text)` for a keyword without special
      characters: some position of `text` starts a case-insensitive copy of `kw`. */
  function ContainsIgnoreCase(text: string, kw: string): (found: bool)
    ensures found <==> exists i :: MatchesAt(text, i, kw)
    decreases |text|
  {
    if MatchesAt(text, 0, kw) then true
    else if |text| == 0 then false
    else
      var found := ContainsIgnoreCase(text[1..], kw);
      assert forall i :: MatchesAt(text[1..], i, kw) ==> MatchesAt(text, i + 1, kw);
      assert forall i :: MatchesAt(text, i, kw) && i > 0 ==> MatchesAt(text[1..], i - 1, kw);
      found
  }
}
