/** Character-level helpers shared by the hand-written regular expressions. */
module Strings {

  predicate StartsWith(s: string, prefix: string) {
    |prefix| <= |s| && s[..|prefix|] == prefix
  }

  predicate EndsWith(s: string, suffix: string) {
    |suffix| <= |s| && s[|s| - |suffix|..] == suffix
  }

  /** `str::contains`: `needle` occurs somewhere in `s`. */
  predicate Contains(s: string, needle: string)
    decreases |s|
  {
    StartsWith(s, needle) || (|s| > 0 && Contains(s[1..], needle))
  }

  /** The character class `[/\\]`. */
  predicate IsSep(c: char) { c == '/' || c == '\\' }

  /** One pattern character: a `/` in a pattern stands for `[/\\]`, every
      other character for itself. */
  predicate CharMatches(c: char, p: char) {
    if p == '/' then IsSep(c) else c == p
  }

  /** `s` begins with `pattern`, where each `/` of the pattern may be either
      separator. */
  predicate SepPrefix(s: string, pattern: string) {
    |pattern| <= |s| && forall i :: 0 <= i < |pattern| ==> CharMatches(s[i], pattern[i])
  }

  /** What the regex `.*` can span: any characters but a line feed. */
  predicate NoNewline(s: string) { '\n' !in s }

  /** `s` ends in `suffix`, and everything from `from` up to the suffix is
      what `.*` can span. */
  predicate TailThenSuffix(s: string, from: nat, suffix: string) {
    from + |suffix| <= |s| && EndsWith(s, suffix) && NoNewline(s[from..|s| - |suffix|])
  }

  lemma StartsWithIsSepPrefix(s: string, prefix: string)
    requires StartsWith(s, prefix) && '\\' !in prefix
    ensures SepPrefix(s, prefix)
  {
    forall i | 0 <= i < |prefix| ensures CharMatches(s[i], prefix[i]) {
      assert s[..|prefix|][i] == s[i];
    }
  }

  /** A needle with a character that `s` lacks does not occur in `s`. */
  lemma MissingNeedleChar(s: string, needle: string, k: nat)
    requires k < |needle| && needle[k] !in s
    ensures !Contains(s, needle)
  {
    if Contains(s, needle) {
      ContainsHasNeedleChar(s, needle, k);
    }
  }

  /** Every character of a needle that `s` contains occurs in `s`. */
  lemma {:induction false} ContainsHasNeedleChar(s: string, needle: string, k: nat)
    requires Contains(s, needle) && k < |needle|
    ensures needle[k] in s
    decreases |s|
  {
    if StartsWith(s, needle) {
      assert s[..|needle|][k] == s[k];
    } else {
      ContainsHasNeedleChar(s[1..], needle, k);
      var j :| 0 <= j < |s[1..]| && s[1..][j] == needle[k];
      assert s[j + 1] == needle[k];
    }
  }

  /** A prefix must agree on the first character. */
  lemma DiffersAtFirst(s: string, prefix: string)
    requires |s| > 0 && |prefix| > 0 && s[0] != prefix[0]
    ensures !StartsWith(s, prefix)
  {
    if |prefix| <= |s| {
      assert s[..|prefix|][0] == s[0];
    }
  }
}
