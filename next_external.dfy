/** The internal-path normaliser of crates/binding/src/handle_externals.rs
    (lines 367-415): `EXTERNAL_PATTERN`, `NEXT_DIST_REPLACE_PATTERN`,
    `resolve_next_external` and `normalize_path_sep`.

    `EXTERNAL_PATTERN` as the source builds it (`ExternalPatternAsWritten`)
    never looks for `dist` and wants a second separator straight after
    `next`, so it misses the framework's own `.external` files. The pattern
    the surrounding code evidently intends is `ExternalPattern`; both are
    modelled and compared below, and the cascade can be run with either
    (`PatternBuild`). */
module NextExternal {
  import opened Types
  import opened Strings

  /** `(\.external(\.js)?)$` preceded by `.*` that starts at `from`. */
  predicate ExternalTail(s: string, from: nat) {
    TailThenSuffix(s, from, ".external") || TailThenSuffix(s, from, ".external.js")
  }

  /** A match of the built pattern
      `next[/\\](([/\\])esm[/\\])?[/\\].*(\.external(\.js)?)$` that starts at `i`. */
  predicate AsWrittenAt(s: string, i: nat) {
    i <= |s| && SepPrefix(s[i..], "next/") &&
      ((SepPrefix(s[i + 5..], "/") && ExternalTail(s, i + 6)) ||
       (SepPrefix(s[i + 5..], "/esm//") && ExternalTail(s, i + 11)))
  }

  /** `EXTERNAL_PATTERN.is_match` for the pattern as lines 367-381 build it
      (unanchored at the start). */
  predicate ExternalPatternAsWritten(s: string) {
    exists i: nat | i <= |s| :: AsWrittenAt(s, i)
  }

  /** A match of `next[/\\]dist(([/\\])esm)?[/\\].*(\.external(\.js)?)$`
      that starts at `i`: a file under the distribution root, optionally
      under its `esm` directory, ending in `.external` or `.external.js`. */
  predicate IntendedAt(s: string, i: nat) {
    DistRootAt(s, i) &&
      ((SepPrefix(s[i + 9..], "/") && ExternalTail(s, i + 10)) ||
       (SepPrefix(s[i + 9..], "/esm/") && ExternalTail(s, i + 14)))
  }

  /** The external-file pattern the rest of the model uses. */
  predicate ExternalPattern(s: string) {
    exists i: nat | i <= |s| :: IntendedAt(s, i)
  }

  /** An occurrence of `next[/\\]dist` starts at `j`. */
  predicate DistRootAt(s: string, j: nat) {
    j <= |s| && SepPrefix(s[j..], "next/dist")
  }

  /** Where the lazy `.*?next[/\\]dist` of `NEXT_DIST_REPLACE_PATTERN`
      first matches: the leftmost occurrence of `next[/\\]dist`. */
  function FirstNextDist(s: string): (r: Option<nat>)
    ensures r.Some? ==> r.value + 9 <= |s| && DistRootAt(s, r.value)
    ensures r.Some? ==> forall j :: 0 <= j < r.value ==> !DistRootAt(s, j)
    ensures r.None? ==> forall j :: 0 <= j <= |s| ==> !DistRootAt(s, j)
    decreases |s|
  {
    if SepPrefix(s, "next/dist") then Some(0)
    else if |s| == 0 then None
    else
      var rest := FirstNextDist(s[1..]);
      assert forall j :: 1 <= j <= |s| ==> DistRootAt(s, j) == DistRootAt(s[1..], j - 1) by {
        forall j | 1 <= j <= |s| ensures s[j..] == s[1..][j - 1..] { }
      }
      match rest
      case None => None
      case Some(k) => Some(k + 1)
  }

  /** Where a `.*?` that ends at `i` can start at the earliest: one past
      the last newline before `i`, or 0 (a `.` never matches a newline). */
  function LineStart(s: string, i: nat): (k: nat)
    requires i <= |s|
    ensures k <= i
    ensures k == 0 || s[k - 1] == '\n'
    ensures '\n' !in s[k..i]
    decreases i
  {
    if i == 0 then 0
    else if s[i - 1] == '\n' then i
    else
      var k := LineStart(s, i - 1);
      assert s[k..i] == s[k..i - 1] + [s[i - 1]];
      k
  }

  /** `NEXT_DIST_REPLACE_PATTERN.replace(path, "next/dist")`. The leftmost
      match of `.*?next[/\\]dist` ends at the leftmost `next[/\\]dist` and
      starts at the beginning of that occurrence's line, so that stretch
      becomes `next/dist` and what precedes it, up to and including the last
      newline, is kept; without a match the path is unchanged. */
  function ReplaceNextDist(path: string): (r: string)
  {
    match FirstNextDist(path)
    case None => path
    case Some(i) => path[..LineStart(path, i)] + "next/dist" + path[i + 9..]
  }

  function SlashFor(c: char): char { if c == '\\' then '/' else c }

  /** `normalize_path_sep`: every `\` becomes `/`. */
  function NormalizePathSep(path: string): (r: string)
    ensures |r| == |path|
    ensures forall i :: 0 <= i < |path| ==> r[i] == SlashFor(path[i])
    ensures '\\' !in r
    decreases |path|
  {
    if path == [] then [] else [SlashFor(path[0])] + NormalizePathSep(path[1..])
  }

  lemma {:induction false} NormalizePathSepIdempotent(path: string)
    ensures NormalizePathSep(NormalizePathSep(path)) == NormalizePathSep(path)
  {
    var once := NormalizePathSep(path);
    var twice := NormalizePathSep(once);
    assert |twice| == |once|;
    forall i | 0 <= i < |once| ensures twice[i] == once[i] {
      assert once[i] != '\\';
    }
  }

  lemma {:induction false} NormalizePathSepAppend(a: string, b: string)
    ensures NormalizePathSep(a + b) == NormalizePathSep(a) + NormalizePathSep(b)
  {
    var l, r := NormalizePathSep(a + b), NormalizePathSep(a) + NormalizePathSep(b);
    assert |l| == |r|;
    forall i | 0 <= i < |l| ensures l[i] == r[i] {
      if i < |a| { assert (a + b)[i] == a[i]; } else { assert (a + b)[i] == b[i - |a|]; }
    }
  }

  /** Two strings that agree up to the choice of separator normalise alike. */
  lemma SepMatchNormalizesAlike(s: string, pattern: string)
    requires SepPrefix(s, pattern) && '\\' !in pattern && |s| == |pattern|
    ensures NormalizePathSep(s) == pattern
  {
    var n := NormalizePathSep(s);
    forall i | 0 <= i < |s| ensures n[i] == pattern[i] {
      assert CharMatches(s[i], pattern[i]);
      assert pattern[i] != '\\';
    }
  }

  /** Lines 403-406: the specifier an external file is rewritten to. */
  function ExternalSpecifier(path: string): (r: string)
    ensures StartsWith(r, "commonjs ") && '\\' !in r
  {
    var n := NormalizePathSep(ReplaceNextDist(path));
    assert ("commonjs " + n)[..9] == "commonjs ";
    assert '\\' !in "commonjs ";
    "commonjs " + n
  }

  /** `resolve_next_external`, with the external-file pattern as intended. */
  function ResolveNextExternal(localRes: string): (r: Option<string>)
    ensures r.Some? <==> ExternalPattern(localRes)
    ensures r.Some? ==> StartsWith(r.value, "commonjs ") && '\\' !in r.value
  {
    if ExternalPattern(localRes) then Some(ExternalSpecifier(localRes)) else None
  }

  /** `resolve_next_external` exactly as lines 395-410 run it, with the
      pattern as built. */
  function ResolveNextExternalAsWritten(localRes: string): (r: Option<string>)
    ensures r.Some? <==> ExternalPatternAsWritten(localRes)
    ensures r.Some? ==> StartsWith(r.value, "commonjs ") && '\\' !in r.value
  {
    if ExternalPatternAsWritten(localRes) then Some(ExternalSpecifier(localRes)) else None
  }

  /** Which `EXTERNAL_PATTERN` a cascade is run with: the one lines 367-381
      build, or the corrected one. */
  datatype PatternBuild = AsBuilt | Corrected

  /** `resolve_next_external` with the given pattern. */
  function ResolveNextExternalBy(build: PatternBuild): string -> Option<string> {
    match build
    case AsBuilt => ResolveNextExternalAsWritten
    case Corrected => ResolveNextExternal
  }

  /** Whichever pattern is used, an answer is the specifier of the path. */
  lemma ResolveNextExternalByGivesSpecifier(build: PatternBuild, path: string)
    ensures ResolveNextExternalBy(build)(path) in {None, Some(ExternalSpecifier(path))}
    ensures build == Corrected ==> (ResolveNextExternalBy(build)(path).Some? <==> ExternalPattern(path))
    ensures build == AsBuilt ==> (ResolveNextExternalBy(build)(path).Some? <==> ExternalPatternAsWritten(path))
  {
  }

  /** A path ending in `.shared-runtime.js`, the other ending the doc
      comment of `resolve_next_external` names (line 386), satisfies
      neither tail of line 373, so neither pattern accepts it. The
      corrected pattern keeps the ending of line 373 and leaves such files
      out, as the pattern as built does. */
  lemma SharedRuntimeNotExternal(build: PatternBuild, path: string)
    requires EndsWith(path, ".shared-runtime.js")
    ensures ResolveNextExternalBy(build)(path) == None
  {
    var n := |path|;
    assert path[n - 1] == path[n - 18..][17] == 's';
    assert path[n - 12] == path[n - 18..][6] == 'd';
    assert !EndsWith(path, ".external") by {
      assert path[n - 9..][8] == path[n - 1];
    }
    assert !EndsWith(path, ".external.js") by {
      assert path[n - 12..][0] == path[n - 12];
    }
    forall i: nat | i <= |path| ensures !IntendedAt(path, i) && !AsWrittenAt(path, i) {
      assert !ExternalTail(path, i + 6) && !ExternalTail(path, i + 10);
      assert !ExternalTail(path, i + 11) && !ExternalTail(path, i + 14);
    }
  }

  /** Every path the intended pattern accepts has a distribution root for
      the replacement to strip. */
  lemma ExternalPathHasDistRoot(path: string)
    requires ExternalPattern(path)
    ensures FirstNextDist(path).Some?
  {
    var k: nat :| k <= |path| && IntendedAt(path, k);
  }

  /** An occurrence of `next[/\\]dist` normalises to `next/dist`. */
  lemma NormalizeRoot(path: string, i: nat)
    requires i + 9 <= |path| && DistRootAt(path, i)
    ensures NormalizePathSep(path[i..i + 9]) == "next/dist"
  {
    var root := path[i..i + 9];
    assert SepPrefix(root, "next/dist") by {
      forall j | 0 <= j < 9 ensures CharMatches(root[j], "next/dist"[j]) {
        assert root[j] == path[i..][j];
      }
    }
    SepMatchNormalizesAlike(root, "next/dist");
  }

  lemma NormalizePathSepAppend3(a: string, b: string, c: string)
    ensures NormalizePathSep(a + b + c) == NormalizePathSep(a) + NormalizePathSep(b) + NormalizePathSep(c)
  {
    NormalizePathSepAppend(a + b, c);
    NormalizePathSepAppend(a, b);
  }

  /** Cutting `cut + root` out of `head + cut + root + rest` and writing
      `next/dist` in its place, when `root` normalises to `next/dist`. */
  lemma NormalizeAroundCut(head: string, cut: string, root: string, rest: string)
    requires NormalizePathSep(root) == "next/dist"
    ensures NormalizePathSep(head + "next/dist" + rest) == NormalizePathSep(head) + "next/dist" + NormalizePathSep(rest)
    ensures NormalizePathSep(head) + NormalizePathSep(cut) + "next/dist" + NormalizePathSep(rest)
            == NormalizePathSep(head + cut + root + rest)
  {
    NormalizePathSepKeepsSlashes("next/dist");
    NormalizePathSepAppend3(head, "next/dist", rest);
    NormalizePathSepAppend3(head + cut, root, rest);
    NormalizePathSepAppend(head, cut);
  }

  /** The replacement keeps the lines before the match, writes the cut
      stretch `path[k..i]` and the root as `next/dist`, and keeps the rest:
      putting the cut stretch back gives the path again, up to separators. */
  lemma {:induction false} ReplaceKeepsPathUpToSeparators(path: string, i: nat)
    requires FirstNextDist(path) == Some(i)
    ensures var k := LineStart(path, i);
      && NormalizePathSep(ReplaceNextDist(path))
         == NormalizePathSep(path[..k]) + "next/dist" + NormalizePathSep(path[i + 9..])
      && NormalizePathSep(path[..k]) + NormalizePathSep(path[k..i]) + "next/dist" + NormalizePathSep(path[i + 9..])
         == NormalizePathSep(path)
  {
    var k := LineStart(path, i);
    NormalizeRoot(path, i);
    SplitAt(path, k, i, i + 9);
    NormalizeAroundCut(path[..k], path[k..i], path[i..i + 9], path[i + 9..]);
  }

  lemma SplitAt(s: string, a: nat, b: nat, c: nat)
    requires a <= b <= c <= |s|
    ensures s == s[..a] + s[a..b] + s[b..c] + s[c..]
  {
  }

  /** Round trip: for a matching path, the specifier is `commonjs ` plus the
      rewritten path, and putting the stretch the rewrite cut back between
      the kept lines and the `next/dist` root gives back the path, up to
      separator normalisation. */
  lemma ResolveNextExternalRoundTrip(path: string)
    requires ExternalPattern(path)
    ensures FirstNextDist(path).Some?
    ensures var i := FirstNextDist(path).value;
      var k := LineStart(path, i);
      && ResolveNextExternal(path) == Some("commonjs " + NormalizePathSep(ReplaceNextDist(path)))
      && NormalizePathSep(ReplaceNextDist(path))
         == NormalizePathSep(path[..k]) + "next/dist" + NormalizePathSep(path[i + 9..])
      && NormalizePathSep(path[..k]) + NormalizePathSep(path[k..i]) + "next/dist" + NormalizePathSep(path[i + 9..])
         == NormalizePathSep(path)
  {
    ExternalPathHasDistRoot(path);
    var i := FirstNextDist(path).value;
    assert ResolveNextExternal(path) == Some(ExternalSpecifier(path));
    ReplaceKeepsPathUpToSeparators(path, i);
  }

  /** The specifier names a file under `next/dist`: the `next/dist` root
      starts the line of the match, and a path without newlines is rewritten
      to a specifier that starts with `next/dist`. */
  lemma ResolveNextExternalRootedAtDist(path: string)
    requires ExternalPattern(path)
    ensures FirstNextDist(path).Some?
    ensures var k := LineStart(path, FirstNextDist(path).value);
      var spec := NormalizePathSep(ReplaceNextDist(path));
      && ResolveNextExternal(path) == Some("commonjs " + spec)
      && k + 9 <= |spec|
      && spec[..k] == NormalizePathSep(path[..k])
      && (k == 0 || spec[k - 1] == '\n')
      && StartsWith(spec[k..], "next/dist")
    ensures '\n' !in path ==> StartsWith(NormalizePathSep(ReplaceNextDist(path)), "next/dist")
  {
    ExternalPathHasDistRoot(path);
    var i := FirstNextDist(path).value;
    var k := LineStart(path, i);
    ReplaceKeepsPathUpToSeparators(path, i);
    RootAfterKeptLines(path[..k], NormalizePathSep(path[i + 9..]));
    if k != 0 {
      assert path[..k][k - 1] == path[k - 1];
      assert path[k - 1] in path;
    }
  }

  /** `next/dist` placed right after the kept lines. */
  lemma RootAfterKeptLines(head: string, tail: string)
    ensures var spec := NormalizePathSep(head) + "next/dist" + tail;
      && |head| + 9 <= |spec|
      && spec[..|head|] == NormalizePathSep(head)
      && (|head| == 0 || spec[|head| - 1] == SlashFor(head[|head| - 1]))
      && StartsWith(spec[|head|..], "next/dist")
  {
    var spec := NormalizePathSep(head) + "next/dist" + tail;
    assert spec[|head|..][..9] == "next/dist";
  }

  /** A `next/dist/` request is rewritten to itself: the specifier is
      `commonjs ` plus the request with forward slashes. */
  lemma DistRequestSpecifier(request: string)
    requires StartsWith(request, "next/dist/")
    ensures ExternalSpecifier(request) == "commonjs " + NormalizePathSep(request)
    ensures |ExternalSpecifier(request)| == 9 + |request|
  {
    assert request[..9] == "next/dist/"[..9] == "next/dist";
    StartsWithIsSepPrefix(request, "next/dist");
    assert FirstNextDist(request) == Some(0);
    assert request[..0] + "next/dist" + request[9..] == request;
  }

  /** Any match of the built pattern needs two separators in a row right
      after `next`. */
  lemma AsWrittenNeedsDoubleSeparator(s: string, i: nat)
    requires AsWrittenAt(s, i)
    ensures i + 6 <= |s| && s[i..i + 4] == "next" && IsSep(s[i + 4]) && IsSep(s[i + 5])
    ensures i + 15 <= |s|
  {
    assert CharMatches(s[i..][4], "next/"[4]);
    assert forall j :: 0 <= j < 4 ==> CharMatches(s[i..][j], "next/"[j]);
    assert s[i + 5..][0] == s[i + 5];
    if SepPrefix(s[i + 5..], "/") {
      assert CharMatches(s[i + 5..][0], "/"[0]);
    } else {
      assert CharMatches(s[i + 5..][0], "/esm//"[0]);
    }
  }

  lemma NoDoubleSeparatorAfterNext(s: string, i: nat)
    requires s == "next/dist/x.external"
    requires i + 15 <= |s| && s[i..i + 4] == "next"
    ensures !IsSep(s[i + 5])
  {
    assert s[i..i + 4][0] == s[i];
    assert i == 0;
  }

  /** The built pattern does not match `next/dist/x.external`: the only
      `next` in it is followed by one separator, not two. */
  lemma AsWrittenRejectsDistExternal()
    ensures !ExternalPatternAsWritten("next/dist/x.external")
  {
    var s := "next/dist/x.external";
    forall i: nat | i <= |s| && AsWrittenAt(s, i) ensures false {
      AsWrittenNeedsDoubleSeparator(s, i);
      NoDoubleSeparatorAfterNext(s, i);
    }
  }

  lemma IntendedAcceptsDistExternal()
    ensures ExternalPattern("next/dist/x.external")
  {
    var s := "next/dist/x.external";
    assert SepPrefix(s[0..], "next/dist") by {
      forall j | 0 <= j < 9 ensures CharMatches(s[0..][j], "next/dist"[j]) { assert s[0..][j] == s[j]; }
    }
    assert SepPrefix(s[9..], "/") by { assert s[9..][0] == '/'; }
    assert TailThenSuffix(s, 10, ".external") by {
      assert s[|s| - 9..] == ".external";
      assert s[10..|s| - 9] == "x";
    }
    assert IntendedAt(s, 0);
  }

  /** A path without `\\` is left as it is. */
  lemma NormalizePathSepKeepsSlashes(path: string)
    requires '\\' !in path
    ensures NormalizePathSep(path) == path
  {
    var n := NormalizePathSep(path);
    forall j | 0 <= j < |path| ensures n[j] == path[j] {
      assert path[j] != '\\';
    }
  }

  lemma DistExternalSpecifier()
    ensures ExternalSpecifier("next/dist/x.external") == "commonjs " + "next/dist/x.external"
  {
    var s := "next/dist/x.external";
    assert s[..10] == "next/dist/";
    NormalizePathSepKeepsSlashes(s);
    DistRequestSpecifier(s);
  }

  /** Finding: the framework's own shared file `next/dist/x.external` is
      not externalized under the pattern as built, although the comments at
      lines 398-402 describe `.external` files under `next/dist/` as what
      the function externalizes. */
  lemma AsWrittenMissesDistExternal()
    ensures ResolveNextExternalAsWritten("next/dist/x.external") == None
    ensures ResolveNextExternal("next/dist/x.external") == Some("commonjs " + "next/dist/x.external")
  {
    AsWrittenRejectsDistExternal();
    IntendedAcceptsDistExternal();
    DistExternalSpecifier();
  }

  /** With `dist` in place, a file under the `esm` directory is recognised too. */
  lemma IntendedCoversEsmDirectory()
    ensures ExternalPattern("next/dist/esm/a.external.js")
  {
    var s := "next/dist/esm/a.external.js";
    assert SepPrefix(s[0..], "next/dist") by {
      forall j | 0 <= j < 9 ensures CharMatches(s[0..][j], "next/dist"[j]) { assert s[0..][j] == s[j]; }
    }
    assert SepPrefix(s[9..], "/esm/") by {
      forall j | 0 <= j < 5 ensures CharMatches(s[9..][j], "/esm/"[j]) { assert s[9..][j] == s[9 + j]; }
    }
    assert TailThenSuffix(s, 14, ".external.js") by {
      assert s[|s| - 12..] == ".external.js";
      assert s[14..|s| - 12] == "a";
    }
    assert IntendedAt(s, 0);
  }
}
