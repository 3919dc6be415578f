/**
 * The handful of Python `str` operations the quiz code relies on:
 * `strip()`, `strip("`")`, `startswith`, `replace(pat, "")` and `lower()`.
 */
module Text {

  /** Python's `str.isspace()`: the characters `strip()` removes when called without arguments. */
  predicate IsSpace(c: char) {
    || c == ' '
    || ('\t' <= c <= '\r')
    || ('\U{1C}' <= c <= '\U{1F}')
    || c == '\U{85}' || c == '\U{A0}' || c == '\U{1680}'
    || ('\U{2000}' <= c <= '\U{200A}')
    || c == '\U{2028}' || c == '\U{2029}' || c == '\U{202F}' || c == '\U{205F}' || c == '\U{3000}'
  }

  /** The character classes the source strips: whitespace, or the backtick of a markdown fence. */
  datatype StripSet = Whitespace | Backticks

  predicate Cut(cs: StripSet, c: char) {
    match cs
    case Whitespace => IsSpace(c)
    case Backticks => c == '`'
  }

  /** How many characters at the start of `s` are in `cs`. */
  function LeadingCount(s: string, cs: StripSet): (n: nat)
    ensures n <= |s|
    ensures forall i :: 0 <= i < n ==> Cut(cs, s[i])
    ensures n < |s| ==> !Cut(cs, s[n])
  {
    if s != [] && Cut(cs, s[0]) then 1 + LeadingCount(s[1..], cs) else 0
  }

  /** How many characters at the end of `s` are in `cs`. */
  function TrailingCount(s: string, cs: StripSet): (n: nat)
    ensures n <= |s|
    ensures forall i :: |s| - n <= i < |s| ==> Cut(cs, s[i])
    ensures n < |s| ==> !Cut(cs, s[|s| - 1 - n])
  {
    if s != [] && Cut(cs, s[|s| - 1]) then 1 + TrailingCount(s[..|s| - 1], cs) else 0
  }

  /** The leading count is the length of the longest prefix of characters in `cs`. */
  lemma LeadingCountIs(s: string, cs: StripSet, n: nat)
    requires n <= |s| && (forall i :: 0 <= i < n ==> Cut(cs, s[i])) && (n < |s| ==> !Cut(cs, s[n]))
    ensures LeadingCount(s, cs) == n
  {
  }

  /** The trailing count is the length of the longest suffix of characters in `cs`. */
  lemma TrailingCountIs(s: string, cs: StripSet, n: nat)
    requires n <= |s| && (forall i :: |s| - n <= i < |s| ==> Cut(cs, s[i])) && (n < |s| ==> !Cut(cs, s[|s| - 1 - n]))
    ensures TrailingCount(s, cs) == n
  {
  }

  /** `pat` occurs in `s` starting at index `i`. */
  predicate OccursAt(s: string, pat: string, i: int) {
    0 <= i <= |s| - |pat| && s[i..i + |pat|] == pat
  }

  /** `pat` occurs somewhere in `s`. */
  ghost predicate Contains(s: string, pat: string) {
    exists i :: OccursAt(s, pat, i)
  }

  /** A substring of a substring is a substring. */
  lemma ContainsTransitive(a: string, b: string, c: string)
    requires Contains(a, b) && Contains(b, c)
    ensures Contains(a, c)
  {
    var i :| OccursAt(a, b, i);
    var j :| OccursAt(b, c, j);
    forall k | 0 <= k < |c| ensures a[i + j + k] == c[k] {
      assert c[k] == b[j..j + |c|][k] == b[j + k];
      assert b[j + k] == a[i..i + |b|][j + k];
    }
    assert OccursAt(a, c, i + j);
  }

  /** Every suffix is a substring. */
  lemma SuffixContained(s: string, n: nat)
    requires n <= |s|
    ensures Contains(s, s[n..])
  {
    assert OccursAt(s, s[n..], n);
  }

  /** Python's `s.strip(chars)`: drops characters of `cs` from both ends. */
  function Trim(s: string, cs: StripSet): (r: string)
    ensures |r| <= |s|
  {
    var lead := LeadingCount(s, cs);
    var trail := if lead == |s| then 0 else TrailingCount(s, cs);
    assert lead < |s| ==> trail < |s| - lead;
    s[lead..|s| - trail]
  }

  /**
   * What stripping leaves: the slice of `s` between a prefix and a suffix made only of
   * characters of `cs`, neither starting nor ending with such a character; empty exactly
   * when every character of `s` is in `cs`; and `s` itself when neither end of `s` is in
   * `cs`. These clauses determine the result.
   */
  lemma TrimSpec(s: string, cs: StripSet)
    ensures var r := Trim(s, cs);
      && Contains(s, r)
      && (exists i, j :: 0 <= i <= j <= |s| && r == s[i..j] &&
            (forall k :: 0 <= k < i ==> Cut(cs, s[k])) && (forall k :: j <= k < |s| ==> Cut(cs, s[k])))
      && (r != [] ==> !Cut(cs, r[0]) && !Cut(cs, r[|r| - 1]))
      && (r == [] <==> forall i :: 0 <= i < |s| ==> Cut(cs, s[i]))
      && (s != [] && !Cut(cs, s[0]) && !Cut(cs, s[|s| - 1]) ==> r == s)
  {
    var i, j := TrimBounds(s, cs);
    assert OccursAt(s, s[i..j], i);
  }

  /** The bounds of the slice `Trim` keeps, and what lies outside and at the ends of it. */
  lemma TrimBounds(s: string, cs: StripSet) returns (i: nat, j: nat)
    ensures i <= j <= |s| && Trim(s, cs) == s[i..j]
    ensures forall k :: 0 <= k < i ==> Cut(cs, s[k])
    ensures forall k :: j <= k < |s| ==> Cut(cs, s[k])
    ensures i < j ==> !Cut(cs, s[i]) && !Cut(cs, s[j - 1])
    ensures i == j ==> i == |s|
  {
    i := LeadingCount(s, cs);
    var trail := if i == |s| then 0 else TrailingCount(s, cs);
    j := |s| - trail;
  }

  /** Two slices that both meet the clauses of `TrimSpec` are the same slice. */
  lemma TrimUnique(s: string, cs: StripSet, i: nat, j: nat, i': nat, j': nat)
    requires i <= j <= |s| && i' <= j' <= |s|
    requires forall k :: 0 <= k < i ==> Cut(cs, s[k])
    requires forall k :: j <= k < |s| ==> Cut(cs, s[k])
    requires forall k :: 0 <= k < i' ==> Cut(cs, s[k])
    requires forall k :: j' <= k < |s| ==> Cut(cs, s[k])
    requires i < j ==> !Cut(cs, s[i]) && !Cut(cs, s[j - 1])
    requires i' < j' ==> !Cut(cs, s[i']) && !Cut(cs, s[j' - 1])
    ensures s[i..j] == s[i'..j']
  {
    if i < j && i' < j' {
      assert i == i' && j == j';
    }
  }

  /** Python's `s.strip()`. */
  function Strip(s: string): string {
    Trim(s, Whitespace)
  }

  /** Text with no whitespace at either end is left as it is by `Strip`. */
  lemma StripUnpadded(s: string)
    requires s != [] && !IsSpace(s[0]) && !IsSpace(s[|s| - 1])
    ensures Strip(s) == s
  {
    assert s[0..|s|] == s;
  }

  /** Python's `s.startswith(p)`. */
  predicate StartsWith(s: string, p: string) {
    |p| <= |s| && s[..|p|] == p
  }

  /**
   * Python's `s.replace(pat, "")`: a single left-to-right scan that deletes every
   * non-overlapping occurrence of `pat` it meets.
   */
  function RemoveAll(s: string, pat: string): (r: string)
    requires pat != []
    ensures |r| <= |s|
    decreases |s|
  {
    if |s| < |pat| then s
    else if s[..|pat|] == pat then RemoveAll(s[|pat|..], pat)
    else [s[0]] + RemoveAll(s[1..], pat)
  }

  /** Removing `pat` changes the string exactly when `pat` occurs in it. */
  lemma {:induction false} RemoveAllUnchangedIff(s: string, pat: string)
    requires pat != []
    ensures RemoveAll(s, pat) == s <==> !Contains(s, pat)
    decreases |s|
  {
    if Contains(s, pat) {
      RemoveAllShrinks(s, pat);
    } else if |s| >= |pat| {
      assert s[..|pat|] != pat by { assert !OccursAt(s, pat, 0); }
      assert !Contains(s[1..], pat) by {
        forall i | OccursAt(s[1..], pat, i) ensures OccursAt(s, pat, i + 1) {
          assert s[i + 1..i + 1 + |pat|] == s[1..][i..i + |pat|];
        }
      }
      RemoveAllUnchangedIff(s[1..], pat);
      assert [s[0]] + s[1..] == s;
    }
  }

  /** When `pat` occurs, at least one occurrence (the leftmost) is removed. */
  lemma {:induction false} RemoveAllShrinks(s: string, pat: string)
    requires pat != [] && Contains(s, pat)
    ensures |RemoveAll(s, pat)| < |s|
    decreases |s|
  {
    var i :| OccursAt(s, pat, i);
    if s[..|pat|] != pat {
      assert i > 0;
      assert s[1..][i - 1..i - 1 + |pat|] == s[i..i + |pat|];
      assert OccursAt(s[1..], pat, i - 1);
      RemoveAllShrinks(s[1..], pat);
    }
  }

  /**
   * The scan removes the leftmost occurrence and carries on after it: with `i` the first
   * place `pat` occurs, the result is the text before it followed by the removal applied
   * to the text after it. So every occurrence the scan meets is removed.
   */
  lemma RemoveAllAtFirst(s: string, pat: string, i: nat)
    requires pat != [] && OccursAt(s, pat, i)
    requires forall k :: 0 <= k < i ==> !OccursAt(s, pat, k)
    ensures RemoveAll(s, pat) == s[..i] + RemoveAll(s[i + |pat|..], pat)
  {
    RemoveAllFrom(s, pat, 0, i);
    assert s[0..] == s;
  }

  /** `RemoveAllAtFirst` for the suffix of `s` from `n`, by induction on the distance to `i`. */
  lemma {:induction false} RemoveAllFrom(s: string, pat: string, n: nat, i: nat)
    requires pat != [] && n <= i && OccursAt(s, pat, i)
    requires forall k :: n <= k < i ==> !OccursAt(s, pat, k)
    ensures RemoveAll(s[n..], pat) == s[n..i] + RemoveAll(s[i + |pat|..], pat)
    decreases i - n
  {
    if n == i {
      RemoveAllStepAt(s, pat, n);
    } else {
      assert !OccursAt(s, pat, n);
      RemoveAllStepPast(s, pat, n);
      RemoveAllFrom(s, pat, n + 1, i);
      ConsSlice(s, n, i, RemoveAll(s[i + |pat|..], pat));
    }
  }

  /** A character put back in front of the slice that follows it. */
  lemma ConsSlice(s: string, n: nat, i: nat, rest: string)
    requires n < i <= |s|
    ensures [s[n]] + (s[n + 1..i] + rest) == s[n..i] + rest
  {
    assert [s[n]] + s[n + 1..i] == s[n..i];
  }

  /** One step of the scan at an occurrence: the occurrence is dropped. */
  lemma RemoveAllStepAt(s: string, pat: string, n: nat)
    requires pat != [] && OccursAt(s, pat, n)
    ensures RemoveAll(s[n..], pat) == RemoveAll(s[n + |pat|..], pat)
  {
    assert s[n..][..|pat|] == pat;
    assert s[n..][|pat|..] == s[n + |pat|..];
  }

  /** One step of the scan where no occurrence starts: the character is kept. */
  lemma RemoveAllStepPast(s: string, pat: string, n: nat)
    requires pat != [] && n + |pat| <= |s| && !OccursAt(s, pat, n)
    ensures RemoveAll(s[n..], pat) == [s[n]] + RemoveAll(s[n + 1..], pat)
  {
    assert s[n..][..|pat|] == s[n..n + |pat|];
    assert s[n..][1..] == s[n + 1..];
  }

  /** The scan is single-pass: removing "json" from "jsjsonon" leaves a new "json". */
  lemma RemoveAllIsSinglePass()
    ensures RemoveAll("jsjsonon", "json") == "json"
    ensures Contains(RemoveAll("jsjsonon", "json"), "json")
  {
    assert "jsjsonon"[..4] == "jsjs";
    assert "sjsonon"[..4] == "sjso";
    assert "jsonon"[..4] == "json";
    assert "jsjsonon"[1..] == "sjsonon";
    assert "sjsonon"[1..] == "jsonon";
    assert "jsonon"[4..] == "on";
    assert OccursAt("json", "json", 0);
  }

  /** Python's `c.lower()` restricted to ASCII letters. */
  function LowerChar(c: char): (r: char)
    ensures !('A' <= r <= 'Z')
    ensures ('A' <= c <= 'Z') || r == c
    ensures 'A' <= c <= 'Z' ==> r as int == c as int - 'A' as int + 'a' as int && 'a' <= r <= 'z'
  {
    if 'A' <= c <= 'Z' then (c as int - 'A' as int + 'a' as int) as char else c
  }

  /** Python's `s.lower()` restricted to ASCII letters. */
  function Lower(s: string): (r: string)
    ensures |r| == |s|
  {
    seq(|s|, i requires 0 <= i < |s| => LowerChar(s[i]))
  }
}
