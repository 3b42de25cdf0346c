/** The JavaScript string built-ins the core relies on: `String.prototype.split`
    with a string separator, `Array.prototype.join`, `String.prototype.trim`,
    and the substring test the error messages are checked with. */
module JsStrings {

  /** `needle` occurs in `haystack` starting at index `i`. */
  predicate OccursAt(haystack: string, needle: string, i: int) {
    0 <= i && i + |needle| <= |haystack| && haystack[i..i + |needle|] == needle
  }

  /** `haystack.includes(needle)`. */
  predicate Contains(haystack: string, needle: string) {
    exists i :: 0 <= i <= |haystack| && OccursAt(haystack, needle, i)
  }

  /** A message built as `prefix + x + suffix` mentions `x`. */
  lemma ContainsMiddle(prefix: string, x: string, suffix: string)
    ensures Contains(prefix + x + suffix, x)
  {
    var s := prefix + x + suffix;
    assert s[|prefix|..|prefix| + |x|] == x;
    assert OccursAt(s, x, |prefix|);
  }

  // ---------------------------------------------------------------- split

  /** `s.split(sep)`: the pieces between the non-overlapping occurrences of
      `sep`, found from left to right. An empty separator splits `s` into its
      characters (so "".split("") is []); with a non-empty separator there is
      always at least one piece ("".split(",") is [""]). */
  function Split(s: string, sep: string): (r: seq<string>)
    ensures sep != "" ==> |r| >= 1
    ensures sep == "" ==> |r| == |s|
    decreases |s|
  {
    if sep == "" then seq(|s|, i requires 0 <= i < |s| => [s[i]])
    else if |s| < |sep| then [s]
    else if s[..|sep|] == sep then [""] + Split(s[|sep|..], sep)
    else
      var rest := Split(s[1..], sep);
      [[s[0]] + rest[0]] + rest[1..]
  }

  /** With the empty separator the i-th piece is the i-th character. */
  lemma SplitIntoCharacters(s: string)
    ensures |Split(s, "")| == |s|
    ensures forall i :: 0 <= i < |s| ==> Split(s, "")[i] == [s[i]]
  {
  }

  /** `parts.join(sep)`. */
  function Join(parts: seq<string>, sep: string): (r: string)
    ensures |parts| == 1 ==> r == parts[0]
  {
    if parts == [] then ""
    else if |parts| == 1 then parts[0]
    else parts[0] + sep + Join(parts[1..], sep)
  }

  /** Joining pieces whose first piece is extended by a prefix `c` is the
      same as prefixing the joined string. */
  lemma JoinExtendHead(c: string, parts: seq<string>, sep: string)
    requires |parts| >= 1
    ensures Join([c + parts[0]] + parts[1..], sep) == c + Join(parts, sep)
  {
    var ext := [c + parts[0]] + parts[1..];
    if |parts| > 1 {
      assert ext[1..] == parts[1..];
    }
  }

  /** Splitting into characters and joining with the empty separator
      restores the string. */
  lemma {:induction false} CharsJoinBack(s: string)
    ensures Join(Split(s, ""), "") == s
    decreases |s|
  {
    if s != [] {
      CharsJoinBack(s[1..]);
      var cs := Split(s, "");
      assert cs[1..] == Split(s[1..], "");
      if |s| == 1 {
        assert s == [s[0]];
      } else {
        assert s == [s[0]] + s[1..];
      }
    }
  }

  /** The two ways `split` goes on with a non-empty separator, by whether
      the string starts with it. */
  lemma SplitStartingWithSeparator(s: string, sep: string)
    requires sep != "" && |s| >= |sep| && s[..|sep|] == sep
    ensures Split(s, sep) == [""] + Split(s[|sep|..], sep)
  {
  }

  lemma SplitNotStartingWithSeparator(s: string, sep: string)
    requires sep != "" && |s| >= |sep| && s[..|sep|] != sep
    ensures var rest := Split(s[1..], sep);
            Split(s, sep) == [[s[0]] + rest[0]] + rest[1..]
  {
  }

  /** Splitting and joining back with the same separator restores the
      string: `s.split(sep).join(sep) === s`. */
  lemma {:induction false} SplitJoinRoundTrip(s: string, sep: string)
    ensures Join(Split(s, sep), sep) == s
    decreases |s|
  {
    if sep == "" {
      CharsJoinBack(s);
    } else if |s| < |sep| {
    } else if s[..|sep|] == sep {
      var rest := Split(s[|sep|..], sep);
      SplitStartingWithSeparator(s, sep);
      SplitJoinRoundTrip(s[|sep|..], sep);
      assert ([""] + rest)[1..] == rest;
      assert s == sep + s[|sep|..];
    } else {
      var rest := Split(s[1..], sep);
      SplitNotStartingWithSeparator(s, sep);
      SplitJoinRoundTrip(s[1..], sep);
      JoinExtendHead([s[0]], rest, sep);
      assert s == [s[0]] + s[1..];
    }
  }

  /** A string in which the separator does not occur splits into itself. */
  lemma {:induction false} SplitWithoutSeparator(s: string, sep: string)
    requires sep != "" && !Contains(s, sep)
    ensures Split(s, sep) == [s]
    decreases |s|
  {
    if |s| >= |sep| {
      assert !OccursAt(s, sep, 0);
      NotContainedInTail(s, sep);
      SplitWithoutSeparator(s[1..], sep);
      assert s == [s[0]] + s[1..];
    }
  }

  /** A string that does not contain `sep` has a tail that does not either. */
  lemma NotContainedInTail(s: string, sep: string)
    requires s != "" && !Contains(s, sep)
    ensures !Contains(s[1..], sep)
  {
    forall i | 0 <= i <= |s[1..]| && i + |sep| <= |s[1..]| ensures !OccursAt(s[1..], sep, i) {
      assert s[1..][i..i + |sep|] == s[i + 1..i + 1 + |sep|];
      assert !OccursAt(s, sep, i + 1);
    }
  }

  /** A one-character separator occurs in a string only where its character
      does. */
  lemma NotContainsChar(s: string, sep: string)
    requires |sep| == 1 && sep[0] !in s
    ensures !Contains(s, sep)
  {
  }

  /** `split` matches leftmost first: when the first occurrence of a
      non-empty separator in `a + sep + b` is the one after `a`, the first
      piece is `a` and the others are the pieces of `b`. */
  lemma {:induction false} SplitAtFirstOccurrence(a: string, sep: string, b: string)
    requires sep != ""
    requires forall i :: 0 <= i < |a| ==> !OccursAt(a + sep + b, sep, i)
    ensures Split(a + sep + b, sep) == [a] + Split(b, sep)
    decreases |a|
  {
    var s := a + sep + b;
    if a == "" {
      assert s[..|sep|] == sep && s[|sep|..] == b;
    } else {
      assert !OccursAt(s, sep, 0);
      assert s[1..] == a[1..] + sep + b;
      forall i | 0 <= i < |a[1..]| ensures !OccursAt(a[1..] + sep + b, sep, i) {
        assert !OccursAt(s, sep, i + 1);
        assert s[i + 1..i + 1 + |sep|] == s[1..][i..i + |sep|];
      }
      SplitAtFirstOccurrence(a[1..], sep, b);
      assert [a[0]] + a[1..] == a;
    }
  }

  /** With a one-character separator that `a` does not contain, the first
      piece of `a + sep + b` is `a` and the others are the pieces of `b`. */
  lemma SplitAtFirst(a: string, sep: string, b: string)
    requires |sep| == 1 && !Contains(a, sep)
    ensures Split(a + sep + b, sep) == [a] + Split(b, sep)
  {
    var s := a + sep + b;
    forall i | 0 <= i < |a| ensures !OccursAt(s, sep, i) {
      assert !OccursAt(a, sep, i);
      assert s[i..i + 1] == a[i..i + 1];
    }
    SplitAtFirstOccurrence(a, sep, b);
  }

  /** Joining pieces with a one-character separator none of them contains
      and splitting the result gives the pieces back: the other half of the
      round trip. */
  lemma {:induction false} JoinSplitRoundTrip(parts: seq<string>, sep: string)
    requires |parts| >= 1 && |sep| == 1
    requires forall k :: 0 <= k < |parts| ==> !Contains(parts[k], sep)
    ensures Split(Join(parts, sep), sep) == parts
    decreases |parts|
  {
    if |parts| == 1 {
      SplitWithoutSeparator(parts[0], sep);
    } else {
      JoinSplitRoundTrip(parts[1..], sep);
      SplitAtFirst(parts[0], sep, Join(parts[1..], sep));
      assert [parts[0]] + parts[1..] == parts;
    }
  }

  // ----------------------------------------------------------------- trim

  /** The characters `trim` removes: ECMAScript WhiteSpace and LineTerminator. */
  predicate IsJsWhitespace(c: char) {
    || c == '\t' || c == '\n' || c == '\U{0B}' || c == '\U{0C}' || c == '\r'
    || c == ' ' || c == '\U{A0}' || c == '\U{1680}'
    || ('\U{2000}' <= c <= '\U{200A}')
    || c == '\U{2028}' || c == '\U{2029}' || c == '\U{202F}' || c == '\U{205F}'
    || c == '\U{3000}' || c == '\U{FEFF}'
  }

  predicate AllWhitespace(s: string) {
    forall k :: 0 <= k < |s| ==> IsJsWhitespace(s[k])
  }

  /** No whitespace at either end: what `trim` leaves. */
  predicate IsTrimmed(s: string) {
    s == "" || (!IsJsWhitespace(s[0]) && !IsJsWhitespace(s[|s| - 1]))
  }

  /** How many whitespace characters `s` starts with. */
  function LeadingSpace(s: string): (n: nat)
    ensures n <= |s|
    ensures AllWhitespace(s[..n])
    ensures n < |s| ==> !IsJsWhitespace(s[n])
  {
    if s != "" && IsJsWhitespace(s[0]) then
      var n := 1 + LeadingSpace(s[1..]);
      assert s[..n] == [s[0]] + s[1..][..n - 1];
      n
    else 0
  }

  /** How many whitespace characters `s` ends with. */
  function TrailingSpace(s: string): (n: nat)
    ensures n <= |s|
    ensures forall k :: |s| - n <= k < |s| ==> IsJsWhitespace(s[k])
    ensures n < |s| ==> !IsJsWhitespace(s[|s| - 1 - n])
  {
    if s != "" && IsJsWhitespace(s[|s| - 1]) then
      var init := s[..|s| - 1];
      var m := TrailingSpace(init);
      assert forall k :: 0 <= k < |init| ==> init[k] == s[k];
      1 + m
    else 0
  }

  /** Trailing whitespace of a suffix `t` of `s` is trailing whitespace of
      `s`. */
  lemma TrailingOfSuffix(s: string, t: string, n: nat)
    requires |t| <= |s| && t == s[|s| - |t|..] && n <= |t|
    requires forall k :: |t| - n <= k < |t| ==> IsJsWhitespace(t[k])
    ensures AllWhitespace(s[|s| - n..])
  {
    var u := s[|s| - n..];
    forall k | 0 <= k < |u| ensures IsJsWhitespace(u[k]) {
      assert u[k] == t[|t| - n + k];
    }
  }

  /** Cutting `s` after `i` leading whitespace characters and before `n`
      trailing ones, where the characters next to the cuts are not
      whitespace, leaves a trimmed slice. */
  lemma TrimSlice(s: string, i: nat, n: nat)
    requires i + n <= |s|
    requires i + n < |s| ==> !IsJsWhitespace(s[i]) && !IsJsWhitespace(s[|s| - 1 - n])
    ensures IsTrimmed(s[i..|s| - n])
  {
    var j := |s| - n;
    if i < j {
      assert s[i..j][0] == s[i];
      assert s[i..j][j - i - 1] == s[|s| - 1 - n];
    }
  }

  /** `s.trim()`: the part of `s` left once the whitespace at both ends is
      removed. */
  function Trim(s: string): (r: string)
    ensures IsTrimmed(r)
    ensures exists i, j :: 0 <= i <= j <= |s| && r == s[i..j]
                          && AllWhitespace(s[..i]) && AllWhitespace(s[j..])
  {
    var i := LeadingSpace(s);
    var t := s[i..];
    var n := TrailingSpace(t);
    assert n < |t| ==> s[|s| - 1 - n] == t[|t| - 1 - n];
    TrailingOfSuffix(s, t, n);
    TrimSlice(s, i, n);
    s[i..|s| - n]
  }

  /** A string without whitespace at its ends is left as it is, so `trim`
      is idempotent. */
  lemma TrimKeepsTrimmed(s: string)
    requires IsTrimmed(s)
    ensures Trim(s) == s
  {
  }

  lemma TrimIdempotent(s: string)
    ensures Trim(Trim(s)) == Trim(s)
  {
    TrimKeepsTrimmed(Trim(s));
  }
}
