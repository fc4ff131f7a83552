/** The parts of Python's `str` type the mail server relies on: `split()` on
    whitespace, `split(sep)`, `sep.join(parts)` and `strip()`. */
module PyText {

  /** `c.isspace()`: the characters that `split()` and `strip()` without
      arguments treat as whitespace. */
  predicate IsSpace(c: char) {
    || c == ' '
    || '\t' <= c <= '\r'
    || '\U{1C}' <= c <= '\U{1F}'
    || c == '\U{85}' || c == '\U{A0}' || c == '\U{1680}'
    || '\U{2000}' <= c <= '\U{200A}'
    || c == '\U{2028}' || c == '\U{2029}' || c == '\U{202F}' || c == '\U{205F}' || c == '\U{3000}'
  }

  /** Every character of `s` is whitespace (vacuously true of ""). */
  predicate AllSpace(s: string) {
    forall i | 0 <= i < |s| :: IsSpace(s[i])
  }

  /** A word as `split()` produces it: non-empty and free of whitespace. */
  predicate IsWord(w: string) {
    w != [] && forall i | 0 <= i < |w| :: !IsSpace(w[i])
  }

  /** The length of the run of non-space characters that starts `s`. */
  function WordLen(s: string): (n: nat)
    ensures n <= |s|
    ensures forall i | 0 <= i < n :: !IsSpace(s[i])
    ensures n < |s| ==> IsSpace(s[n])
  {
    if s == [] || IsSpace(s[0]) then 0 else 1 + WordLen(s[1..])
  }

  /** `s.split()`: the maximal runs of non-space characters of `s`, in order. */
  function Split(s: string): (words: seq<string>)
    ensures forall k | 0 <= k < |words| :: IsWord(words[k])
    decreases |s|
  {
    if s == [] then []
    else if IsSpace(s[0]) then Split(s[1..])
    else
      var n := WordLen(s);
      [s[..n]] + Split(s[n..])
  }

  /** `sep.join(parts)`. */
  function Join(parts: seq<string>, sep: string): string {
    if parts == [] then []
    else if |parts| == 1 then parts[0]
    else parts[0] + sep + Join(parts[1..], sep)
  }

  /** `s.split(sep)` for a one-character separator: the pieces between the
      separators, in order; there is always at least one piece, and `split`
      keeps the empty pieces that adjacent or trailing separators leave. */
  function SplitOn(s: string, sep: char): (pieces: seq<string>)
    ensures |pieces| >= 1
    ensures forall k | 0 <= k < |pieces| :: sep !in pieces[k]
    ensures pieces[0] <= s
    ensures |pieces[0]| < |s| ==> s[|pieces[0]|] == sep
  {
    if s == [] then [[]]
    else
      var rest := SplitOn(s[1..], sep);
      if s[0] == sep then [[]] + rest
      else [[s[0]] + rest[0]] + rest[1..]
  }

  /** The number of whitespace characters `strip()` removes from the front. */
  function LeadingSpace(s: string): (i: nat)
    ensures i <= |s| && AllSpace(s[..i])
    ensures i < |s| ==> !IsSpace(s[i])
  {
    if s != [] && IsSpace(s[0]) then 1 + LeadingSpace(s[1..]) else 0
  }

  /** The end of `s` once `strip()` has removed the whitespace at the back. */
  function TrailingStart(s: string): (j: nat)
    ensures j <= |s| && AllSpace(s[j..])
    ensures 0 < j ==> !IsSpace(s[j - 1])
  {
    if s != [] && IsSpace(s[|s| - 1]) then TrailingStart(s[..|s| - 1]) else |s|
  }

  /** `r` is what is left of `s` after cutting whitespace, and only
      whitespace, off both ends, and `r` neither begins nor ends with any. */
  predicate IsStripOf(r: string, s: string) {
    && (r == [] || (!IsSpace(r[0]) && !IsSpace(r[|r| - 1])))
    && exists i | 0 <= i <= |s| - |r| :: r == s[i..i + |r|] && AllSpace(s[..i]) && AllSpace(s[i + |r|..])
  }

  /** `s.strip()`. */
  function Strip(s: string): (r: string)
    ensures IsStripOf(r, s)
  {
    var i, j := LeadingSpace(s), TrailingStart(s);
    if i < j then
      assert AllSpace(s[..i]) && AllSpace(s[j..]);
      s[i..j]
    else
      assert AllSpace(s) by {
        forall k | 0 <= k < |s| ensures IsSpace(s[k]) {
          if k < i { assert s[..i][k] == s[k]; }
        }
      }
      assert s[..0] == [] && s[0..] == s;
      []
  }

  // ---------------------------------------------------------------------
  // Laws of split() and join()

  /** `s.split()` is empty exactly when `s` is all whitespace. */
  lemma {:induction false} SplitEmptyIff(s: string)
    ensures Split(s) == [] <==> AllSpace(s)
    decreases |s|
  {
    if s != [] {
      if IsSpace(s[0]) {
        SplitEmptyIff(s[1..]);
        if AllSpace(s[1..]) {
          forall k | 0 <= k < |s| ensures IsSpace(s[k]) {
            if k > 0 { assert s[1..][k - 1] == s[k]; }
          }
        }
      }
    }
  }

  /** A word followed by nothing or by whitespace is one run. */
  lemma {:induction false} WordLenOfWord(w: string, t: string)
    requires forall i | 0 <= i < |w| :: !IsSpace(w[i])
    requires t == [] || IsSpace(t[0])
    ensures WordLen(w + t) == |w|
    decreases |w|
  {
    if w != [] {
      assert (w + t)[0] == w[0];
      assert (w + t)[1..] == w[1..] + t;
      WordLenOfWord(w[1..], t);
    } else {
      assert w + t == t;
    }
  }

  /** Splitting words joined by single spaces gives the words back. */
  lemma {:induction false} SplitJoin(words: seq<string>)
    requires forall k | 0 <= k < |words| :: IsWord(words[k])
    ensures Split(Join(words, " ")) == words
    decreases |words|
  {
    if words == [] {
    } else {
      var w := words[0];
      if |words| == 1 {
        WordLenOfWord(w, []);
        assert w + [] == w;
        assert w[|w|..] == [];
        assert w[..|w|] == w;
      } else {
        var rest := Join(words[1..], " ");
        var s := w + " " + rest;
        assert s == w + (" " + rest);
        WordLenOfWord(w, " " + rest);
        assert s[0] == w[0];
        assert s[..|w|] == w;
        assert s[|w|..] == " " + rest;
        assert (" " + rest)[1..] == rest;
        SplitJoin(words[1..]);
        assert words == [w] + words[1..];
      }
    }
  }

  /** Joining the pieces of `s.split(sep)` with `sep` gives `s` back. */
  lemma {:induction false} JoinSplitOn(s: string, sep: char)
    ensures Join(SplitOn(s, sep), [sep]) == s
    decreases |s|
  {
    if s != [] {
      var rest := SplitOn(s[1..], sep);
      JoinSplitOn(s[1..], sep);
      if s[0] == sep {
        assert ([[]] + rest)[1..] == rest;
        assert s == [sep] + s[1..];
      } else if |rest| == 1 {
        assert s == [s[0]] + s[1..];
      } else {
        var pieces := [[s[0]] + rest[0]] + rest[1..];
        assert pieces[1..] == rest[1..];
        assert Join(rest, [sep]) == rest[0] + [sep] + Join(rest[1..], [sep]);
        assert s == [s[0]] + s[1..];
      }
    }
  }

  /** A first line without the separator is split off whole. */
  lemma {:induction false} SplitOnFirstLine(line: string, sep: char, rest: string)
    requires sep !in line
    ensures SplitOn(line + [sep] + rest, sep) == [line] + SplitOn(rest, sep)
    decreases |line|
  {
    var s := line + [sep] + rest;
    if line == [] {
      assert s == [sep] + rest;
      assert s[1..] == rest;
    } else {
      assert s[0] == line[0];
      assert s[1..] == line[1..] + [sep] + rest;
      SplitOnFirstLine(line[1..], sep, rest);
      assert [line[0]] + line[1..] == line;
    }
  }

  /** Text without the separator is a single piece. */
  lemma {:induction false} SplitOnWhole(s: string, sep: char)
    requires sep !in s
    ensures SplitOn(s, sep) == [s]
    decreases |s|
  {
    if s != [] {
      SplitOnWhole(s[1..], sep);
      assert [s[0]] + s[1..] == s;
    }
  }
}
