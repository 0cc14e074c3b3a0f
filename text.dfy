/** The string operations the decoders are built from, each modelled on the
    Rust standard-library call it stands for (`str::split`, `join`,
    `str::replace`, `str::trim`, `str::contains`, `str::starts_with`).
    A prefix test `s.starts_with(p)` is Dafny's `p <= s`. */
module Text {

  /** The characters with the Unicode White_Space property. */
  const WhiteSpace: set<char> := {
    '\t', '\n', '\U{000B}', '\U{000C}', '\r', ' ', '\U{0085}', '\U{00A0}', '\U{1680}',
    '\U{2000}', '\U{2001}', '\U{2002}', '\U{2003}', '\U{2004}', '\U{2005}', '\U{2006}',
    '\U{2007}', '\U{2008}', '\U{2009}', '\U{200A}', '\U{2028}', '\U{2029}', '\U{202F}',
    '\U{205F}', '\U{3000}'}

  /** `char::is_whitespace`. */
  predicate IsWhitespace(c: char) {
    c in WhiteSpace
  }

  /** `str::trim_start`: the text without its leading whitespace. */
  function TrimStart(s: string): string
    decreases |s|
  {
    if |s| > 0 && IsWhitespace(s[0]) then TrimStart(s[1..]) else s
  }

  /** `str::trim_end`: the text without its trailing whitespace. */
  function TrimEnd(s: string): string
    decreases |s|
  {
    if |s| > 0 && IsWhitespace(s[|s| - 1]) then TrimEnd(s[..|s| - 1]) else s
  }

  /** `str::trim`. */
  function Trim(s: string): string {
    TrimEnd(TrimStart(s))
  }

  /** Trimming removes whitespace from both ends and nothing else: the result
      is a slice of the text, everything cut off is whitespace, and the
      result neither starts nor ends with whitespace. */
  lemma {:induction false} TrimCutsWhitespace(s: string)
    ensures exists lo, hi | 0 <= lo <= hi <= |s| ::
      && Trim(s) == s[lo..hi]
      && (forall k | 0 <= k < lo :: IsWhitespace(s[k]))
      && (forall k | hi <= k < |s| :: IsWhitespace(s[k]))
    ensures Trim(s) == [] || (!IsWhitespace(Trim(s)[0]) && !IsWhitespace(Trim(s)[|Trim(s)| - 1]))
  {
    var t := TrimStart(s);
    var lo := TrimStartCut(s);
    var hi := TrimEndCut(t);
    assert Trim(s) == s[lo..lo + hi];
    assert forall k | lo + hi <= k < |s| :: s[k] == t[k - lo];
  }

  /** How many leading characters `TrimStart` cuts off. */
  lemma {:induction false} TrimStartCut(s: string) returns (lo: nat)
    ensures lo <= |s| && TrimStart(s) == s[lo..]
    ensures forall k | 0 <= k < lo :: IsWhitespace(s[k])
    ensures TrimStart(s) == [] || !IsWhitespace(TrimStart(s)[0])
    decreases |s|
  {
    if |s| > 0 && IsWhitespace(s[0]) {
      var rest := TrimStartCut(s[1..]);
      lo := rest + 1;
      assert s[1..][rest..] == s[lo..];
    } else {
      lo := 0;
    }
  }

  /** Where `TrimEnd` cuts the text off. */
  lemma {:induction false} TrimEndCut(s: string) returns (hi: nat)
    ensures hi <= |s| && TrimEnd(s) == s[..hi]
    ensures forall k | hi <= k < |s| :: IsWhitespace(s[k])
    ensures TrimEnd(s) == [] || !IsWhitespace(TrimEnd(s)[|TrimEnd(s)| - 1])
    decreases |s|
  {
    if |s| > 0 && IsWhitespace(s[|s| - 1]) {
      hi := TrimEndCut(s[..|s| - 1]);
      assert s[..|s| - 1][..hi] == s[..hi];
    } else {
      hi := |s|;
    }
  }

  /** Text without whitespace is its own trim. */
  lemma TrimWithoutWhitespace(s: string)
    requires forall i | 0 <= i < |s| :: !IsWhitespace(s[i])
    ensures Trim(s) == s
  {
  }

  /** `str::contains` with a string pattern. */
  predicate Contains(s: string, sub: string)
    decreases |s|
  {
    sub <= s || (|s| > 0 && Contains(s[1..], sub))
  }

  /** The first position of `x` in `s`. */
  function IndexOf<T(==)>(s: seq<T>, x: T): (r: nat)
    requires x in s
    ensures r < |s| && s[r] == x
    ensures forall k | 0 <= k < r :: s[k] != x
  {
    if s[0] == x then 0 else 1 + IndexOf(s[1..], x)
  }

  /** `str::split` with a non-empty string pattern: the pieces between the
      matches found scanning left to right, matches not overlapping. */
  function SplitOn(s: string, sep: string): (parts: seq<string>)
    requires sep != []
    ensures |parts| >= 1
    decreases |s|
  {
    if |s| == 0 then [""]
    else if sep <= s then [""] + SplitOn(s[|sep|..], sep)
    else
      var rest := SplitOn(s[1..], sep);
      [[s[0]] + rest[0]] + rest[1..]
  }

  /** `str::split` on one character. */
  function Split(s: string, c: char): seq<string> {
    SplitOn(s, [c])
  }

  /** `[String]::join`. */
  function Join(parts: seq<string>, sep: string): string
    decreases |parts|
  {
    if |parts| == 0 then ""
    else if |parts| == 1 then parts[0]
    else parts[0] + sep + Join(parts[1..], sep)
  }

  /** `str::replace`: every left-to-right, non-overlapping match of `pat`
      replaced by `repl`. */
  function Replace(s: string, pat: string, repl: string): string
    requires pat != []
    decreases |s|
  {
    if |s| == 0 then ""
    else if pat <= s then repl + Replace(s[|pat|..], pat, repl)
    else [s[0]] + Replace(s[1..], pat, repl)
  }

  /** `str::replace` with an array of characters and the empty replacement:
      deletes every occurrence of those characters. */
  function RemoveChars(s: string, cs: set<char>): string
    decreases |s|
  {
    if |s| == 0 then ""
    else if s[0] in cs then RemoveChars(s[1..], cs)
    else [s[0]] + RemoveChars(s[1..], cs)
  }

  /** Deleting characters that do not occur changes nothing. */
  lemma {:induction false} RemoveAbsentChars(s: string, cs: set<char>)
    requires forall i | 0 <= i < |s| :: s[i] !in cs
    ensures RemoveChars(s, cs) == s
    decreases |s|
  {
    if |s| > 0 {
      RemoveAbsentChars(s[1..], cs);
    }
  }

  lemma {:induction false} RemoveCharsAppend(a: string, b: string, cs: set<char>)
    ensures RemoveChars(a + b, cs) == RemoveChars(a, cs) + RemoveChars(b, cs)
    decreases |a|
  {
    if |a| > 0 {
      assert (a + b)[0] == a[0] && (a + b)[1..] == a[1..] + b;
      RemoveCharsAppend(a[1..], b, cs);
    } else {
      assert a + b == b;
    }
  }

  /** The non-empty pieces, in order (`filter(|p| p != "")`). */
  function NonEmpty(parts: seq<string>): (r: seq<string>)
    ensures |r| <= |parts|
    ensures forall i | 0 <= i < |r| :: r[i] != "" && r[i] in parts
    ensures (forall i | 0 <= i < |parts| :: parts[i] != "") ==> r == parts
    decreases |parts|
  {
    if |parts| == 0 then []
    else if parts[0] == "" then NonEmpty(parts[1..])
    else [parts[0]] + NonEmpty(parts[1..])
  }

  // ---------------------------------------------------------------------------
  // Splitting and joining are inverse to each other.

  /** A character put in front of the first piece comes first in the join. */
  lemma JoinPrepend(c: char, parts: seq<string>, sep: string)
    requires |parts| >= 1
    ensures Join([[c] + parts[0]] + parts[1..], sep) == [c] + Join(parts, sep)
  {
    var q := [[c] + parts[0]] + parts[1..];
    assert q[1..] == parts[1..];
  }

  /** An empty first piece contributes only its separator. */
  lemma JoinEmptyFirst(parts: seq<string>, sep: string)
    requires |parts| >= 1
    ensures Join([""] + parts, sep) == sep + Join(parts, sep)
  {
    assert ([""] + parts)[1..] == parts;
  }

  /** Joining the pieces with the separator gives back the text. */
  lemma {:induction false} JoinSplitOn(s: string, sep: string)
    requires sep != []
    ensures Join(SplitOn(s, sep), sep) == s
    decreases |s|
  {
    if |s| == 0 {
    } else if sep <= s {
      var rest := SplitOn(s[|sep|..], sep);
      assert SplitOn(s, sep) == [""] + rest;
      JoinSplitOn(s[|sep|..], sep);
      JoinEmptyFirst(rest, sep);
      assert s == sep + s[|sep|..];
    } else {
      var rest := SplitOn(s[1..], sep);
      assert SplitOn(s, sep) == [[s[0]] + rest[0]] + rest[1..];
      JoinSplitOn(s[1..], sep);
      JoinPrepend(s[0], rest, sep);
      assert s == [s[0]] + s[1..];
    }
  }

  lemma PrefixOfOne(s: string, c: char)
    requires |s| > 0
    ensures [c] <= s <==> s[0] == c
  {
    if s[0] == c {
      assert s[..1] == [c];
    }
  }

  /** No piece produced by a one-character split contains that character. */
  lemma {:induction false} SplitPiecesLackSeparator(s: string, c: char)
    ensures forall i | 0 <= i < |Split(s, c)| :: c !in Split(s, c)[i]
    decreases |s|
  {
    if |s| > 0 {
      SplitPiecesLackSeparator(s[1..], c);
      PrefixOfOne(s, c);
      var rest := Split(s[1..], c);
      if [c] <= s {
        assert s[1..] == s[|[c]|..];
      } else {
        assert Split(s, c) == [[s[0]] + rest[0]] + rest[1..];
        assert c !in [s[0]] + rest[0];
      }
    }
  }

  lemma {:induction false} SplitWithoutSeparator(w: string, c: char)
    requires c !in w
    ensures Split(w, c) == [w]
    decreases |w|
  {
    if |w| > 0 {
      PrefixOfOne(w, c);
      SplitWithoutSeparator(w[1..], c);
      assert [w[0]] + w[1..] == w;
    }
  }

  lemma {:induction false} SplitAfterPiece(w: string, c: char, t: string)
    requires c !in w
    ensures Split(w + [c] + t, c) == [w] + Split(t, c)
    decreases |w|
  {
    var s := w + [c] + t;
    if |w| == 0 {
      assert [c] <= s && s[|[c]|..] == t;
    } else {
      assert s[1..] == w[1..] + [c] + t;
      SplitAfterPiece(w[1..], c, t);
      PrefixOfOne(s, c);
      assert [s[0]] + w[1..] == w;
    }
  }

  /** A text splits into more than one piece exactly when it holds the
      separator. */
  lemma SplitCount(s: string, c: char)
    ensures |Split(s, c)| == 1 <==> c !in s
  {
    if c in s {
      var k := IndexOf(s, c);
      assert s == s[..k] + [c] + s[k + 1..];
      assert c !in s[..k];
      SplitAfterPiece(s[..k], c, s[k + 1..]);
    } else {
      SplitWithoutSeparator(s, c);
    }
  }

  /** A prefix free of the separator starts the first piece exactly when it
      starts the text. */
  lemma {:induction false} FirstPiecePrefix(s: string, c: char, p: string)
    requires c !in p
    ensures p <= Split(s, c)[0] <==> p <= s
    decreases |s|
  {
    if |s| > 0 && |p| > 0 {
      PrefixOfOne(s, c);
      if s[0] == c {
        assert Split(s, c)[0] == "";
      } else {
        var rest := Split(s[1..], c);
        assert Split(s, c)[0] == [s[0]] + rest[0];
        FirstPiecePrefix(s[1..], c, p[1..]);
        assert p <= s <==> p[0] == s[0] && p[1..] <= s[1..];
        assert p <= [s[0]] + rest[0] <==> p[0] == s[0] && p[1..] <= rest[0];
      }
    }
  }

  /** A character of a prefix is the text's character at that position. */
  lemma PrefixChar(p: string, s: string, k: nat)
    requires p <= s && k < |p|
    ensures s[k] == p[k]
  {
  }

  /** Two prefixes that differ at some position cannot both start a text. */
  lemma PrefixesExclusive(p: string, q: string, s: string, k: nat)
    requires k < |p| && k < |q| && p[k] != q[k]
    ensures !(p <= s && q <= s)
  {
    if p <= s && q <= s {
      PrefixChar(p, s, k);
      PrefixChar(q, s, k);
    }
  }

  /** Splitting a join of separator-free pieces gives back the pieces. */
  lemma {:induction false} SplitJoin(parts: seq<string>, c: char)
    requires |parts| >= 1
    requires forall i | 0 <= i < |parts| :: c !in parts[i]
    ensures Split(Join(parts, [c]), c) == parts
    decreases |parts|
  {
    if |parts| == 1 {
      SplitWithoutSeparator(parts[0], c);
    } else {
      SplitJoin(parts[1..], c);
      SplitAfterPiece(parts[0], c, Join(parts[1..], [c]));
    }
  }

  /** Replacing a pattern that does not occur changes nothing. */
  lemma {:induction false} ReplaceAbsent(s: string, pat: string, repl: string)
    requires pat != [] && !Contains(s, pat)
    ensures Replace(s, pat, repl) == s
    decreases |s|
  {
    if |s| > 0 {
      ReplaceAbsent(s[1..], pat, repl);
    }
  }

  /** A replacement cannot start inside a prefix that lacks the pattern's
      first character. */
  lemma {:induction false} ReplaceSkip(a: string, b: string, pat: string, repl: string)
    requires pat != [] && pat[0] !in a
    ensures Replace(a + b, pat, repl) == a + Replace(b, pat, repl)
    decreases |a|
  {
    if |a| > 0 {
      var s := a + b;
      assert s[0] == a[0] && s[1..] == a[1..] + b;
      assert !(pat <= s);
      assert Replace(s, pat, repl) == [a[0]] + Replace(s[1..], pat, repl);
      ReplaceSkip(a[1..], b, pat, repl);
      assert a == [a[0]] + a[1..];
    } else {
      assert a + b == b;
    }
  }

  lemma {:induction false} NoCharNoSubstring(s: string, sub: string, c: char)
    requires c in sub && c !in s
    ensures !Contains(s, sub)
    decreases |s|
  {
    if |s| > 0 {
      NoCharNoSubstring(s[1..], sub, c);
    }
  }

  lemma {:induction false} ContainsSuffix(a: string, b: string)
    ensures Contains(a + b, b)
    decreases |a|
  {
    if |a| > 0 {
      assert (a + b)[1..] == a[1..] + b;
      ContainsSuffix(a[1..], b);
    }
  }

  /** Collapsing runs of spaces: the non-empty pieces of a split on ' ',
      joined with single spaces. */
  function CollapseSpaces(s: string): string {
    Join(NonEmpty(Split(s, ' ')), " ")
  }
}
