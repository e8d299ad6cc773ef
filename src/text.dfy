/** The few `java.lang.String` operations the services rely on, restricted to
    ASCII: `isBlank`, `trim`, `toLowerCase`, `toUpperCase`, `contains` and
    `equalsIgnoreCase`, and Spring's `StringUtils.hasText`. */
module Text {
  import opened Shared

  /** `Character.isWhitespace` on ASCII: space, tab, line feed, vertical tab,
      form feed, carriage return and the four separators U+001C..U+001F. */
  predicate IsWhitespace(c: char) {
    c == ' ' || ('\t' <= c <= '\r') || ('\U{1C}' <= c <= '\U{1F}')
  }

  /** `String.isBlank`: empty, or whitespace only. */
  predicate Blank(s: string) {
    forall i :: 0 <= i < |s| ==> IsWhitespace(s[i])
  }

  /** The guard `s == null || s.isBlank()` used by the services. */
  predicate NullOrBlank(s: Option<string>) {
    s.None? || Blank(s.value)
  }

  /** Spring's `StringUtils.hasText`: not null and holds a non-whitespace
      character. */
  predicate HasText(s: Option<string>)
  {
    s.Some? && exists i :: 0 <= i < |s.value| && !IsWhitespace(s.value[i])
  }

  lemma HasTextIsNotNullOrBlank(s: Option<string>)
    ensures HasText(s) <==> !NullOrBlank(s)
  {
  }

  /** `String.trim`: every leading and trailing character whose code is at
      most U+0020 is removed; what is left is a contiguous part of `s` that
      starts and ends with a character above U+0020. */
  function Trim(s: string): (r: string)
    ensures Lead(s) + |r| <= |s| && r == s[Lead(s)..Lead(s) + |r|]
    ensures forall k :: Lead(s) + |r| <= k < |s| ==> s[k] <= ' '
    ensures r != [] ==> ' ' < r[0] && ' ' < r[|r| - 1]
  {
    var n := Lead(s);
    var t := s[n..];
    var m := End(t);
    assert t[..m] == s[n..n + m];
    t[..m]
  }

  /** The number of leading characters `trim` removes. */
  function Lead(s: string): (n: nat)
    ensures n <= |s|
    ensures forall k :: 0 <= k < n ==> s[k] <= ' '
    ensures n < |s| ==> ' ' < s[n]
  {
    if s != [] && s[0] <= ' ' then 1 + Lead(s[1..]) else 0
  }

  /** The length of `s` without the trailing characters `trim` removes. */
  function End(s: string): (m: nat)
    ensures m <= |s|
    ensures forall k :: m <= k < |s| ==> s[k] <= ' '
    ensures 0 < m ==> ' ' < s[m - 1]
  {
    if s != [] && s[|s| - 1] <= ' ' then End(s[..|s| - 1]) else |s|
  }

  /** Trimming twice is trimming once. */
  lemma TrimIdempotent(s: string)
    ensures Trim(Trim(s)) == Trim(s)
  {
    var t := Trim(s);
    if t != [] {
      TrimKeeps(t);
    }
  }

  /** A string that starts and ends above U+0020 is left alone by `trim`. */
  lemma TrimKeeps(t: string)
    requires t == [] || (' ' < t[0] && ' ' < t[|t| - 1])
    ensures Trim(t) == t
  {
    if t != [] {
      assert Lead(t) == 0;
      assert End(t) == |t|;
    }
  }

  function LowerChar(c: char): char {
    if 'A' <= c <= 'Z' then (c as int + 32) as char else c
  }

  function UpperChar(c: char): char {
    if 'a' <= c <= 'z' then (c as int - 32) as char else c
  }

  /** `String.toLowerCase` on ASCII letters. */
  function Lower(s: string): (r: string)
    ensures |r| == |s| && forall i :: 0 <= i < |s| ==> r[i] == LowerChar(s[i])
  {
    seq(|s|, i requires 0 <= i < |s| => LowerChar(s[i]))
  }

  /** `String.toUpperCase` on ASCII letters. */
  function Upper(s: string): (r: string)
    ensures |r| == |s| && forall i :: 0 <= i < |s| ==> r[i] == UpperChar(s[i])
  {
    seq(|s|, i requires 0 <= i < |s| => UpperChar(s[i]))
  }

  /** `String.equalsIgnoreCase` on ASCII: equal after lower-casing. */
  predicate EqualsIgnoreCase(a: string, b: string) {
    Lower(a) == Lower(b)
  }

  /** `q` occurs in `s` at position `i`. */
  predicate OccursAt(s: string, q: string, i: int) {
    0 <= i && i + |q| <= |s| && s[i..i + |q|] == q
  }

  /** `String.contains`: scans the start positions of `s` from the left. */
  function Contains(s: string, q: string): (r: bool)
    ensures r <==> exists i :: OccursAt(s, q, i)
  {
    if |q| > |s| then
      assert forall i :: !OccursAt(s, q, i);
      false
    else if s[..|q|] == q then
      assert OccursAt(s, q, 0);
      true
    else
      var r := Contains(s[1..], q);
      forall i ensures OccursAt(s[1..], q, i) <==> OccursAt(s, q, i + 1) {
        if 0 <= i && i + |q| <= |s| - 1 {
          assert s[1..][i..i + |q|] == s[i + 1..i + 1 + |q|];
        }
      }
      assert forall i :: OccursAt(s, q, i) ==> i == 0 || OccursAt(s[1..], q, i - 1);
      r
  }

  /** Every string contains the empty string. */
  lemma ContainsEmpty(s: string)
    ensures Contains(s, "")
  {
    assert OccursAt(s, "", 0);
  }
}
