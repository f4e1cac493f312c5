/** The layer tables and the fixed regular expressions of
    crates/binding/src/handle_externals.rs (lines 9-64), each written out as a
    predicate on the request or resolved path. */
module Patterns {
  import opened Types
  import opened Strings

  const WEBPACK_BUNDLED_LAYERS: seq<string> :=
    ["rsc", "action-browser", "ssr", "app-pages-browser", "shared", "instrument", "middleware"]

  const WEBPACK_SERVER_ONLY_LAYERS: seq<string> :=
    ["rsc", "action-browser", "instrument", "middleware"]

  /** `is_webpack_bundled_layer`: a present layer that is one of the
      bundler-owned layers. */
  predicate IsWebpackBundledLayer(layer: Option<string>) {
    layer.Some? && layer.value in WEBPACK_BUNDLED_LAYERS
  }

  /** `should_use_react_server_condition`: a present server-only layer. */
  predicate ShouldUseReactServerCondition(layer: Option<string>) {
    layer.Some? && layer.value in WEBPACK_SERVER_ONLY_LAYERS
  }

  /** Every server-only layer is also a bundled layer. */
  lemma ServerOnlyLayersAreBundled(layer: Option<string>)
    ensures ShouldUseReactServerCondition(layer) ==> IsWebpackBundledLayer(layer)
    ensures layer == Some("ssr") ==> IsWebpackBundledLayer(layer) && !ShouldUseReactServerCondition(layer)
  {
    if ShouldUseReactServerCondition(layer) {
      var l := layer.value;
      assert l == "rsc" || l == "action-browser" || l == "instrument" || l == "middleware";
      if l == "rsc" { assert WEBPACK_BUNDLED_LAYERS[0] == l; }
      else if l == "action-browser" { assert WEBPACK_BUNDLED_LAYERS[1] == l; }
      else if l == "instrument" { assert WEBPACK_BUNDLED_LAYERS[5] == l; }
      else { assert WEBPACK_BUNDLED_LAYERS[6] == l; }
    }
    if layer == Some("ssr") {
      assert WEBPACK_BUNDLED_LAYERS[2] == "ssr";
    }
  }

  /** `^(react|react-dom|react-server-dom-webpack)($|/)` */
  predicate ReactPackage(s: string) {
    exists name :: name in ["react", "react-dom", "react-server-dom-webpack"] &&
      (s == name || StartsWith(s, name + "/"))
  }

  const NEXT_EXACT_MODULES: seq<string> :=
    ["app", "cache", "document", "link", "form", "head", "image", "legacy/image", "constants",
     "dynamic", "script", "navigation", "headers", "router", "compat/router", "server"]

  const PRIVATE_RSC_PREFIXES: seq<string> :=
    ["private-next-rsc-action-validate", "private-next-rsc-action-client-wrapper",
     "private-next-rsc-server-reference", "private-next-rsc-cache-wrapper"]

  /** The never-external pattern (line 28). Its `$` belongs only to the
      group of exact `next/...` names and to the last alternative, so every
      other alternative is a prefix test. */
  predicate NotExternalModule(s: string) {
    || StartsWith(s, "private-next-pages/")
    || StartsWith(s, "next/dist/pages/")
    || (exists name :: name in NEXT_EXACT_MODULES && s == "next/" + name)
    || StartsWith(s, "string-hash")
    || (exists p :: p in PRIVATE_RSC_PREFIXES && StartsWith(s, p))
    || s == "private-next-rsc-track-dynamic-import"
  }

  /** `^next[/\\]dist[/\\]shared[/\\]lib[/\\]image-loader` */
  predicate NextImageLoader(s: string) {
    SepPrefix(s, "next/dist/shared/lib/image-loader")
  }

  /** `^next[/\\]dist[/\\]compiled[/\\]next-server` */
  predicate NextServer(s: string) {
    SepPrefix(s, "next/dist/compiled/next-server")
  }

  /** The negative look-ahead `(?!lib[/\\]router[/\\]router)` at `at`. */
  predicate NotRouterAt(s: string, at: nat)
    requires at <= |s|
  {
    !SepPrefix(s[at..], "lib/router/router")
  }

  /** `^next[/\\]dist[/\\]shared[/\\](?!lib[/\\]router[/\\]router)` */
  predicate NextSharedCjs(s: string) {
    SepPrefix(s, "next/dist/shared/") && NotRouterAt(s, 17)
  }

  /** `^next[/\\]dist[/\\]esm[/\\]shared[/\\](?!lib[/\\]router[/\\]router)` */
  predicate NextSharedEsm(s: string) {
    SepPrefix(s, "next/dist/esm/shared/") && NotRouterAt(s, 21)
  }

  /** `^next[/\\]dist[/\\]compiled[/\\].*\.c?js$` */
  predicate NextCompiledCjs(s: string) {
    SepPrefix(s, "next/dist/compiled/") &&
      (TailThenSuffix(s, 19, ".js") || TailThenSuffix(s, 19, ".cjs"))
  }

  /** `^next[/\\]dist[/\\]compiled[/\\].*\.mjs$` */
  predicate NextCompiledMjs(s: string) {
    SepPrefix(s, "next/dist/compiled/") && TailThenSuffix(s, 19, ".mjs")
  }

  /** `s` contains, at some position, a match of a separator-class pattern. */
  predicate ContainsSep(s: string, pattern: string)
    decreases |s|
  {
    SepPrefix(s, pattern) || (|s| > 0 && ContainsSep(s[1..], pattern))
  }

  /** Every non-separator character of a separator-class pattern that `s`
      contains occurs in `s`. */
  lemma {:induction false} ContainsSepHasPatternChar(s: string, pattern: string, k: nat)
    requires ContainsSep(s, pattern) && k < |pattern| && pattern[k] != '/'
    ensures pattern[k] in s
    decreases |s|
  {
    if SepPrefix(s, pattern) {
      assert CharMatches(s[k], pattern[k]);
    } else {
      ContainsSepHasPatternChar(s[1..], pattern, k);
    }
  }

  /** `node_modules[/\\]@babel[/\\]runtime[/\\]` (unanchored) */
  predicate BabelRuntime(s: string) {
    ContainsSep(s, "node_modules/@babel/runtime/")
  }

  /** `node_modules[/\\]webpack|node_modules[/\\]css-loader` (unanchored) */
  predicate WebpackCssLoader(s: string) {
    ContainsSep(s, "node_modules/webpack") || ContainsSep(s, "node_modules/css-loader")
  }

  const BARREL_OPTIMIZATION_PREFIX: string := "__barrel_optimize__"

  /** The CommonJS and ESM buckets of `next/dist/` requests never overlap, so
      testing the CommonJS patterns first (line 268 before 272) decides nothing
      by itself: only the earlier image-loader and `next-server` rules take
      precedence over them. */
  lemma CjsAndEsmBucketsDisjoint(s: string)
    ensures !(NextSharedCjs(s) && NextSharedEsm(s))
    ensures !(NextCompiledCjs(s) && NextCompiledMjs(s))
    ensures !(NextSharedCjs(s) && NextCompiledMjs(s))
    ensures !(NextSharedEsm(s) && NextCompiledCjs(s))
  {
    if SepPrefix(s, "next/dist/shared/") {
      assert CharMatches(s[10], "next/dist/shared/"[10]);
      assert !SepPrefix(s, "next/dist/esm/shared/") by {
        assert !CharMatches(s[10], "next/dist/esm/shared/"[10]);
      }
      assert !SepPrefix(s, "next/dist/compiled/") by {
        assert !CharMatches(s[10], "next/dist/compiled/"[10]);
      }
    }
    if SepPrefix(s, "next/dist/esm/shared/") {
      assert CharMatches(s[10], "next/dist/esm/shared/"[10]);
      assert !SepPrefix(s, "next/dist/compiled/") by {
        assert !CharMatches(s[10], "next/dist/compiled/"[10]);
      }
    }
    if TailThenSuffix(s, 19, ".mjs") {
      assert s[|s| - 3..] == s[|s| - 4..][1..];
      assert s[|s| - 3..] == "mjs";
      assert !EndsWith(s, ".js");
      assert s[|s| - 4..][0] == '.';
      assert !EndsWith(s, ".cjs");
    }
  }
}
