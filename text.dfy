/**
  ASCII models of the Go standard-library string operations the env feeder
  relies on: strings.TrimSpace, strings.Index with a one-character separator,
  strings.ToLower and strings.Replace with a count of -1 (replace all).
 */
module Text {

  /** The ASCII characters Go's unicode.IsSpace accepts: space, tab, line feed,
      vertical tab, form feed and carriage return. */
  predicate IsSpace(c: char) {
    c == ' ' || c == '\t' || c == '\n' || c == '\U{B}' || c == '\U{C}' || c == '\r'
  }

  /** A string with no white space at either end. */
  predicate Trimmed(s: string) {
    s == [] || (!IsSpace(s[0]) && !IsSpace(s[|s| - 1]))
  }

  /** Scans forward from `i` over white space: the position of the first
      non-space character at or after `i`, or |s|. */
  function SkipSpace(s: string, i: nat): (r: nat)
    requires i <= |s|
    ensures i <= r <= |s|
    ensures r < |s| ==> !IsSpace(s[r])
    decreases |s| - i
  {
    if i < |s| && IsSpace(s[i]) then SkipSpace(s, i + 1) else i
  }

  /** Everything SkipSpace passes over is white space. */
  lemma {:induction false} SkipSpaceSkipsSpace(s: string, i: nat)
    requires i <= |s|
    ensures forall k :: i <= k < SkipSpace(s, i) ==> IsSpace(s[k])
    decreases |s| - i
  {
    if i < |s| && IsSpace(s[i]) {
      SkipSpaceSkipsSpace(s, i + 1);
    }
  }

  /** Scans backward from `j` over white space, not below `lo`: the end of
      the last non-space character of s[lo..j], or `lo`. */
  function SkipSpaceBack(s: string, lo: nat, j: nat): (r: nat)
    requires lo <= j <= |s|
    ensures lo <= r <= j
    ensures lo < r ==> !IsSpace(s[r - 1])
    decreases j
  {
    if lo < j && IsSpace(s[j - 1]) then SkipSpaceBack(s, lo, j - 1) else j
  }

  /** Everything SkipSpaceBack passes over is white space. */
  lemma {:induction false} SkipSpaceBackSkipsSpace(s: string, lo: nat, j: nat)
    requires lo <= j <= |s|
    ensures forall k :: SkipSpaceBack(s, lo, j) <= k < j ==> IsSpace(s[k])
    decreases j
  {
    if lo < j && IsSpace(s[j - 1]) {
      SkipSpaceBackSkipsSpace(s, lo, j - 1);
    }
  }

  /** strings.TrimSpace: the slice of `s` between its leading and its
      trailing white space. */
  function TrimSpace(s: string): (r: string)
    ensures Trimmed(r)
    ensures |r| <= |s|
  {
    var start := SkipSpace(s, 0);
    var stop := SkipSpaceBack(s, start, |s|);
    s[start..stop]
  }

  /** `s` is `r` with only white space before and after it. */
  predicate PaddedAt(s: string, r: string, i: nat) {
    i + |r| <= |s| && r == s[i..i + |r|]
    && (forall k :: 0 <= k < i ==> IsSpace(s[k]))
    && (forall k :: i + |r| <= k < |s| ==> IsSpace(s[k]))
  }

  /** TrimSpace cuts only white space, and only at the ends: the input is the
      result with white space before and after it. */
  lemma TrimSpaceSlice(s: string)
    ensures exists i: nat :: PaddedAt(s, TrimSpace(s), i)
  {
    var start := SkipSpace(s, 0);
    SkipSpaceSkipsSpace(s, 0);
    SkipSpaceBackSkipsSpace(s, start, |s|);
    assert PaddedAt(s, TrimSpace(s), start);
  }

  /** Every character TrimSpace keeps comes from `s`. */
  lemma TrimSpaceChars(s: string, c: char)
    requires c in TrimSpace(s)
    ensures c in s
  {
    var start := SkipSpace(s, 0);
    var stop := SkipSpaceBack(s, start, |s|);
    var k :| 0 <= k < stop - start && s[start..stop][k] == c;
    assert s[start + k] == c;
  }

  /** TrimSpace leaves a string without surrounding white space as it is. */
  lemma TrimSpaceOfTrimmed(s: string)
    requires Trimmed(s)
    ensures TrimSpace(s) == s
  {
  }

  /** Trimming twice is trimming once. */
  lemma TrimSpaceIdempotent(s: string)
    ensures TrimSpace(TrimSpace(s)) == TrimSpace(s)
  {
    TrimSpaceOfTrimmed(TrimSpace(s));
  }

  /** Scans forward from `i` for `c`: its first position at or after `i`,
      or -1. */
  function IndexFrom(s: string, c: char, i: nat): (r: int)
    requires i <= |s|
    ensures r == -1 || i <= r < |s|
    ensures r != -1 ==> s[r] == c
    decreases |s| - i
  {
    if i == |s| then -1 else if s[i] == c then i else IndexFrom(s, c, i + 1)
  }

  /** IndexFrom finds the first `c` at or after `i`, and -1 only when there
      is none. */
  lemma {:induction false} IndexFromIsFirst(s: string, c: char, i: nat)
    requires i <= |s|
    ensures var r := IndexFrom(s, c, i);
            forall k :: i <= k < (if r == -1 then |s| else r) ==> s[k] != c
    decreases |s| - i
  {
    if i < |s| && s[i] != c {
      IndexFromIsFirst(s, c, i + 1);
    }
  }

  /** strings.Index(s, string(c)): the position of the first `c` in `s`,
      or -1 when `s` holds no `c`. */
  function Index(s: string, c: char): (r: int)
    ensures -1 <= r < |s|
    ensures r != -1 ==> s[r] == c
  {
    IndexFrom(s, c, 0)
  }

  /** Index answers -1 exactly when `c` does not occur, and otherwise the
      position of its first occurrence. */
  lemma IndexFirst(s: string, c: char)
    ensures Index(s, c) == -1 <==> c !in s
    ensures Index(s, c) != -1 ==> c !in s[..Index(s, c)]
  {
    IndexFromIsFirst(s, c, 0);
    var r := Index(s, c);
    if r != -1 {
      assert forall k :: 0 <= k < r ==> s[..r][k] == s[k];
    }
  }

  /** The position of a `c` with no `c` before it is what Index answers. */
  lemma IndexAt(s: string, c: char, j: nat)
    requires j < |s| && s[j] == c && c !in s[..j]
    ensures Index(s, c) == j
  {
    IndexFromIsFirst(s, c, 0);
  }

  predicate IsUpper(c: char) {
    'A' <= c <= 'Z'
  }

  /** unicode.ToLower restricted to ASCII: an upper-case letter becomes the
      lower-case letter 32 code points above it; anything else is kept. */
  function LowerChar(c: char): (r: char)
    ensures !IsUpper(r)
    ensures !IsUpper(c) ==> r == c
    ensures IsUpper(c) ==> 'a' <= r <= 'z' && r as int - c as int == 32
  {
    if IsUpper(c) then (c as int + 32) as char else c
  }

  /** strings.ToLower over ASCII: every character is lowered in place. */
  function ToLower(s: string): (r: string)
    ensures |r| == |s|
    ensures forall i :: 0 <= i < |r| ==> !IsUpper(r[i])
    ensures forall i :: 0 <= i < |s| && !IsUpper(s[i]) ==> r[i] == s[i]
    ensures forall i :: 0 <= i < |s| && IsUpper(s[i]) ==> r[i] as int == s[i] as int + 32
  {
    seq(|s|, i requires 0 <= i < |s| => LowerChar(s[i]))
  }

  /** strings.Replace(s, string(from), string(to), -1): every occurrence of
      `from` becomes `to`, everything else keeps its place. */
  function ReplaceAll(s: string, from: char, to: char): (r: string)
    ensures |r| == |s|
    ensures from != to ==> from !in r
    ensures forall i :: 0 <= i < |s| && s[i] != from ==> r[i] == s[i]
    ensures forall i :: 0 <= i < |s| && s[i] == from ==> r[i] == to
  {
    seq(|s|, i requires 0 <= i < |s| => if s[i] == from then to else s[i])
  }
}
