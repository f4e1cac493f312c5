/** What `handle_externals` (crates/binding/src/handle_externals.rs:183-364)
    promises, stated over `HandleExternalsSpec`, the function the class
    method `ExternalHandler.HandleExternals` is proved equal to. */
module CascadeFacts {
  import opened Types
  import opened Strings
  import opened Patterns
  import opened NextExternal
  import opened Resolution
  import opened Externals

  /** `"commonjs " + x` determines `x`. */
  lemma CommonjsPrefixCancels(x: string, y: string)
    requires "commonjs " + x == "commonjs " + y
    ensures x == y
  {
    assert x == ("commonjs " + x)[9..];
    assert y == ("commonjs " + y)[9..];
  }

  /** A bare `next` import always gets the warning shim (lines 199-205),
      whatever the layer, the context, the dependency type, the settings or
      the resolver. */
  lemma NextRequestWarns(build: PatternBuild, s: Settings, dirs: Option<PackageDirs>, context: string, dependencyType: string,
                         layer: Option<string>, col: Collaborators)
    ensures HandleExternalsSpec(build, s, dirs, context, "next", dependencyType, layer, col)
            == (Ok(Some(NEXT_WARNING_EXTERNAL)), dirs)
  {
  }

  /** The `commonjs next` branch (lines 214-216) is dead: no request and no
      layer makes the rules decided without resolution answer
      `commonjs next`. */
  lemma CommonjsNextUnreachable(build: PatternBuild, request: string, layer: Option<string>)
    ensures FastPath(build, request, layer) != Decided(Ok(Some("commonjs " + "next")))
  {
    var v := FastPath(build, request, layer);
    if v == Decided(Ok(Some("commonjs " + "next"))) && request != "next" {
      if !IsLocalRequest(request) && ReactPackage(request) && !IsWebpackBundledLayer(layer) {
        CommonjsPrefixCancels(request, "next");
        assert false;
      } else if StartsWith(request, "next/dist/") {
        assert ("module " + request)[0] != ("commonjs " + "next")[0];
        DistOutcomeNotCommonjsNext(build, request);
      }
    }
  }

  /** No `next/dist/` rule answers `commonjs next`: every answer carries the
      request, which is longer than `next`. */
  lemma DistOutcomeNotCommonjsNext(build: PatternBuild, request: string)
    requires StartsWith(request, "next/dist/")
    ensures NextDistOutcome(build, request) != Ok(Some("commonjs " + "next"))
  {
    ResolveNextExternalByGivesSpecifier(build, request);
    DistRequestSpecifier(request);
    assert |"commonjs " + "next"| == 13;
  }

  /** A request whose first character is neither `.` nor `/` is not local. */
  lemma BareNameNotLocal(request: string)
    requires |request| > 0 && request[0] != '.' && request[0] != '/'
    ensures !IsLocalRequest(request)
  {
    assert request[..1] == [request[0]];
  }

  /** The React rule only matches bare package names: the `!is_local`
      guard around it (line 213) turns nothing away. */
  lemma ReactRuleNeverMatchesLocal(request: string)
    requires ReactPackage(request)
    ensures !IsLocalRequest(request) && request != "next"
  {
    ReactPackageStartsWithR(request);
    BareNameNotLocal(request);
  }

  /** Every React package name begins with `r`. */
  lemma ReactPackageStartsWithR(request: string)
    requires ReactPackage(request)
    ensures |request| > 0 && request[0] == 'r'
  {
    var name :| name in ["react", "react-dom", "react-server-dom-webpack"] &&
      (request == name || StartsWith(request, name + "/"));
    assert request[0] == name[0] == 'r' by {
      if request != name { assert request[..|name| + 1][0] == request[0]; }
    }
  }

  /** Likewise for the never-external rule (line 225). */
  lemma NotExternalRuleNeverMatchesLocal(request: string)
    requires NotExternalModule(request)
    ensures !IsLocalRequest(request)
  {
    if exists name :: name in NEXT_EXACT_MODULES && request == "next/" + name {
      var name :| name in NEXT_EXACT_MODULES && request == "next/" + name;
      assert request[0] == 'n';
    } else if exists p :: p in PRIVATE_RSC_PREFIXES && StartsWith(request, p) {
      var p :| p in PRIVATE_RSC_PREFIXES && StartsWith(request, p);
      assert p[0] == 'p';
      assert request[0] == request[..|p|][0];
    } else if StartsWith(request, "private-next-pages/") {
      assert request[0] == request[..19][0];
    } else if StartsWith(request, "next/dist/pages/") {
      assert request[0] == request[..16][0];
    } else if StartsWith(request, "string-hash") {
      assert request[0] == request[..11][0];
    }
    BareNameNotLocal(request);
  }

  /** A React package outside the bundled layers is externalized as
      CommonJS under its own name (lines 218-221). */
  lemma ReactOutsideBundledLayers(build: PatternBuild, s: Settings, dirs: Option<PackageDirs>, context: string, request: string,
                                  dependencyType: string, layer: Option<string>, col: Collaborators)
    requires ReactPackage(request) && !IsWebpackBundledLayer(layer)
    ensures HandleExternalsSpec(build, s, dirs, context, request, dependencyType, layer, col)
            == (Ok(Some("commonjs " + request)), dirs)
  {
    ReactRuleNeverMatchesLocal(request);
  }

  /** A decided request never reaches the resolver: its answer and the cache
      do not depend on the settings, the context, the dependency type or the
      collaborators. */
  lemma DecidedRequestsIgnoreResolution(build: PatternBuild, s1: Settings, s2: Settings, dirs: Option<PackageDirs>,
                                        context1: string, context2: string, request: string,
                                        dependencyType1: string, dependencyType2: string,
                                        layer: Option<string>, col1: Collaborators, col2: Collaborators)
    requires FastPath(build, request, layer).Decided?
    ensures HandleExternalsSpec(build, s1, dirs, context1, request, dependencyType1, layer, col1)
            == HandleExternalsSpec(build, s2, dirs, context2, request, dependencyType2, layer, col2)
            == (FastPath(build, request, layer).outcome, dirs)
  {
  }

  /** `@swc/helpers` and barrel-optimized requests are bundled (lines
      229-239), unless the React rule took them first, which it never does
      for a barrel request; either way the resolver is not asked. */
  lemma SwcHelpersAndBarrelBundled(build: PatternBuild, s: Settings, dirs: Option<PackageDirs>, context: string, request: string,
                                   dependencyType: string, layer: Option<string>, col: Collaborators)
    requires Contains(request, "@swc/helpers") || StartsWith(request, BARREL_OPTIMIZATION_PREFIX)
    ensures FastPath(build, request, layer).Decided?
    ensures var out := HandleExternalsSpec(build, s, dirs, context, request, dependencyType, layer, col);
      out == (Ok(None), dirs) ||
      (ReactPackage(request) && !IsWebpackBundledLayer(layer) && out == (Ok(Some("commonjs " + request)), dirs))
    ensures StartsWith(request, BARREL_OPTIMIZATION_PREFIX) ==>
              HandleExternalsSpec(build, s, dirs, context, request, dependencyType, layer, col) == (Ok(None), dirs)
  {
    if StartsWith(request, BARREL_OPTIMIZATION_PREFIX) && ReactPackage(request) {
      // A barrel request begins with `_`, a React package with `r`.
      ReactPackageStartsWithR(request);
      assert false;
    }
    if request == "next" {
      if Contains(request, "@swc/helpers") {
        ContainsHasNeedleChar(request, "@swc/helpers", 0);
      }
      assert false;
    }
  }

  /** Every `next/dist/` request is decided from its name (lines 249-277),
      never by the resolver. */
  lemma NextDistDecidedWithoutResolving(build: PatternBuild, request: string, layer: Option<string>)
    requires StartsWith(request, "next/dist/")
    ensures FastPath(build, request, layer).Decided?
  {
  }

  lemma VercelOgBundleNotLocal()
    ensures !IsLocalRequest(VERCEL_OG_NODE_BUNDLE)
  {
    BareNameNotLocal(VERCEL_OG_NODE_BUNDLE);
  }

  lemma VercelOgBundleNotReact()
    ensures !ReactPackage(VERCEL_OG_NODE_BUNDLE)
  {
    var r := VERCEL_OG_NODE_BUNDLE;
    forall name | name in ["react", "react-dom", "react-server-dom-webpack"]
      ensures !(r == name || StartsWith(r, name + "/"))
    {
      assert (name + "/")[0] == name[0] == 'r';
      DiffersAtFirst(r, name + "/");
    }
  }

  lemma VercelOgBundleNoPrefixRule()
    ensures !StartsWith(VERCEL_OG_NODE_BUNDLE, "next/dist/pages/")
    ensures !StartsWith(VERCEL_OG_NODE_BUNDLE, "private-next-pages/")
    ensures !StartsWith(VERCEL_OG_NODE_BUNDLE, "string-hash")
    ensures !StartsWith(VERCEL_OG_NODE_BUNDLE, BARREL_OPTIMIZATION_PREFIX)
  {
    var r := VERCEL_OG_NODE_BUNDLE;
    assert r[..16][10] == r[10];
    assert r[..19][0] == r[0];
    assert r[..11][0] == r[0];
  }

  lemma VercelOgBundleNoRscPrefix()
    ensures forall p :: p in PRIVATE_RSC_PREFIXES ==> !StartsWith(VERCEL_OG_NODE_BUNDLE, p)
  {
    forall p | p in PRIVATE_RSC_PREFIXES ensures !StartsWith(VERCEL_OG_NODE_BUNDLE, p) {
      DiffersAtFirst(VERCEL_OG_NODE_BUNDLE, p);
    }
  }

  lemma VercelOgBundleNotExactModule()
    ensures forall name :: name in NEXT_EXACT_MODULES ==> VERCEL_OG_NODE_BUNDLE != "next/" + name
  {
    forall name | name in NEXT_EXACT_MODULES ensures VERCEL_OG_NODE_BUNDLE != "next/" + name {
      assert |name| <= 13;
      assert |VERCEL_OG_NODE_BUNDLE| == 43;
    }
  }

  lemma VercelOgBundleNotExternalModule()
    ensures !NotExternalModule(VERCEL_OG_NODE_BUNDLE)
  {
    VercelOgBundleNoPrefixRule();
    VercelOgBundleNoRscPrefix();
    VercelOgBundleNotExactModule();
  }

  lemma VercelOgBundleNoHelpers()
    ensures !Contains(VERCEL_OG_NODE_BUNDLE, "@swc/helpers")
  {
    VercelOgBundleLacksW();
    MissingNeedleChar(VERCEL_OG_NODE_BUNDLE, "@swc/helpers", 2);
  }

  lemma VercelOgBundleLacksW()
    ensures 'w' !in VERCEL_OG_NODE_BUNDLE
  {
    var r := VERCEL_OG_NODE_BUNDLE;
    forall k | 0 <= k < |r| ensures r[k] != 'w' { }
  }

  /** The `@vercel/og` Node.js bundle is loaded as an ES module in the
      server-only layers (lines 246-255). */
  lemma VercelOgInServerLayers(build: PatternBuild, s: Settings, dirs: Option<PackageDirs>, context: string,
                               dependencyType: string, layer: Option<string>, col: Collaborators)
    requires ShouldUseReactServerCondition(layer)
    ensures HandleExternalsSpec(build, s, dirs, context, VERCEL_OG_NODE_BUNDLE, dependencyType, layer, col)
            == (Ok(Some("module " + VERCEL_OG_NODE_BUNDLE)), dirs)
  {
    VercelOgBundleNotLocal();
    VercelOgBundleNotReact();
    VercelOgBundleNotExternalModule();
    VercelOgBundleNoHelpers();
    VercelOgBundleNoPrefixRule();
  }

  /** `next/dist/x.external`, a framework file of the kind
      `resolve_next_external` documents itself as externalizing. */
  const DIST_EXTERNAL_FILE: string := "next/dist/x.external"

  lemma DistExternalFileNotReact()
    ensures !ReactPackage(DIST_EXTERNAL_FILE)
  {
    if ReactPackage(DIST_EXTERNAL_FILE) {
      ReactPackageStartsWithR(DIST_EXTERNAL_FILE);
    }
  }

  lemma DistExternalFileNoPrefixRule()
    ensures !StartsWith(DIST_EXTERNAL_FILE, "next/dist/pages/")
    ensures !StartsWith(DIST_EXTERNAL_FILE, "private-next-pages/")
    ensures !StartsWith(DIST_EXTERNAL_FILE, "string-hash")
    ensures !StartsWith(DIST_EXTERNAL_FILE, BARREL_OPTIMIZATION_PREFIX)
    ensures forall p :: p in PRIVATE_RSC_PREFIXES ==> !StartsWith(DIST_EXTERNAL_FILE, p)
  {
    var r := DIST_EXTERNAL_FILE;
    assert r[..16][10] == r[10];
    DiffersAtFirst(r, BARREL_OPTIMIZATION_PREFIX);
    DiffersAtFirst(r, "private-next-pages/");
    DiffersAtFirst(r, "string-hash");
    forall p | p in PRIVATE_RSC_PREFIXES ensures !StartsWith(r, p) {
      DiffersAtFirst(r, p);
    }
  }

  lemma DistExternalFileNotExactModule()
    ensures forall name :: name in NEXT_EXACT_MODULES ==> DIST_EXTERNAL_FILE != "next/" + name
  {
    forall name | name in NEXT_EXACT_MODULES ensures DIST_EXTERNAL_FILE != "next/" + name {
      assert |name| <= 13;
      assert |DIST_EXTERNAL_FILE| == 20;
    }
  }

  lemma DistExternalFileNoHelpers()
    ensures !Contains(DIST_EXTERNAL_FILE, "@swc/helpers")
  {
    var r := DIST_EXTERNAL_FILE;
    assert '@' !in r by {
      forall k | 0 <= k < |r| ensures r[k] != '@' { }
    }
    if Contains(r, "@swc/helpers") {
      ContainsHasNeedleChar(r, "@swc/helpers", 0);
    }
  }

  lemma DistExternalFileNotExternalModule()
    ensures !NotExternalModule(DIST_EXTERNAL_FILE)
  {
    DistExternalFileNoPrefixRule();
    DistExternalFileNotExactModule();
  }

  /** It is a `next/dist/` request other than `next` and the `@vercel/og`
      bundle. */
  lemma DistExternalFileIsDistRequest()
    ensures DIST_EXTERNAL_FILE != "next" && DIST_EXTERNAL_FILE != VERCEL_OG_NODE_BUNDLE
    ensures StartsWith(DIST_EXTERNAL_FILE, "next/dist/")
  {
    assert |VERCEL_OG_NODE_BUNDLE| == 43 && |DIST_EXTERNAL_FILE| == 20;
    assert DIST_EXTERNAL_FILE[..10] == "next/dist/";
  }

  /** None of the named `next/dist/` families (lines 257-274) contains it:
      each of their prefixes differs from it at the character after
      `next/dist/`. */
  lemma DistExternalFileInNoFamily()
    ensures !NextImageLoader(DIST_EXTERNAL_FILE) && !NextServer(DIST_EXTERNAL_FILE)
    ensures !NextSharedCjs(DIST_EXTERNAL_FILE) && !NextCompiledCjs(DIST_EXTERNAL_FILE)
    ensures !NextSharedEsm(DIST_EXTERNAL_FILE) && !NextCompiledMjs(DIST_EXTERNAL_FILE)
  {
    var r := DIST_EXTERNAL_FILE;
    assert r[10] == 'x';
    assert !CharMatches(r[10], "next/dist/shared/lib/image-loader"[10]);
    assert !CharMatches(r[10], "next/dist/compiled/next-server"[10]);
    assert !CharMatches(r[10], "next/dist/shared/"[10]);
    assert !CharMatches(r[10], "next/dist/esm/shared/"[10]);
    assert !CharMatches(r[10], "next/dist/compiled/"[10]);
  }

  /** It reaches the last line of the `next/dist/` block (line 276), so
      the pattern alone decides it. */
  lemma DistExternalFileFastPath(build: PatternBuild, layer: Option<string>)
    ensures FastPath(build, DIST_EXTERNAL_FILE, layer) == Decided(Ok(ResolveNextExternalBy(build)(DIST_EXTERNAL_FILE)))
  {
    BareNameNotLocal(DIST_EXTERNAL_FILE);
    DistExternalFileNotReact();
    DistExternalFileNotExternalModule();
    DistExternalFileNoHelpers();
    DistExternalFileNoPrefixRule();
    DistExternalFileIsDistRequest();
    DistExternalFileInNoFamily();
  }

  /** The finding at the level of the whole decision: with the pattern as
      built, `next/dist/x.external` is bundled in every layer (line 276 gets
      `None`); with the corrected pattern it is externalized as itself. This
      gives lines 39 and 46 their look-ahead meaning; as built, line 268
      panics before line 276 is reached, so `LocalDistExternalDecision`
      shows the finding on a route that avoids line 268. */
  lemma DistExternalFileDecision(s: Settings, dirs: Option<PackageDirs>, context: string, dependencyType: string,
                                 layer: Option<string>, col: Collaborators)
    ensures HandleExternalsSpec(AsBuilt, s, dirs, context, DIST_EXTERNAL_FILE, dependencyType, layer, col)
            == (Ok(None), dirs)
    ensures HandleExternalsSpec(Corrected, s, dirs, context, DIST_EXTERNAL_FILE, dependencyType, layer, col)
            == (Ok(Some("commonjs " + DIST_EXTERNAL_FILE)), dirs)
  {
    DistExternalFileFastPath(AsBuilt, layer);
    DistExternalFileFastPath(Corrected, layer);
    AsWrittenMissesDistExternal();
  }

  /** A relative request, outside every layer: no rule of lines 197-277
      decides it. */
  lemma LocalExternalFileNeedsResolution(build: PatternBuild)
    ensures IsLocalRequest(LOCAL_EXTERNAL_FILE)
    ensures FastPath(build, LOCAL_EXTERNAL_FILE, None) == NeedsResolution
  {
    LocalExternalFileNoRule();
    LocalRequestNeedsResolution(build, LOCAL_EXTERNAL_FILE);
  }

  /** Outside every layer, a local request that no name rule of lines
      229-257 catches is left to resolution: the React and never-external
      rules only look at bare names. */
  lemma LocalRequestNeedsResolution(build: PatternBuild, request: string)
    requires StartsWith(request, ".")
    requires !Contains(request, "@swc/helpers") && !StartsWith(request, BARREL_OPTIMIZATION_PREFIX)
    requires !StartsWith(request, "next/dist/")
    ensures FastPath(build, request, None) == NeedsResolution
  {
    assert request[0] == '.';
  }

  /** The name facts the fast path looks at. */
  lemma LocalExternalFileNoRule()
    ensures StartsWith(LOCAL_EXTERNAL_FILE, ".")
    ensures !Contains(LOCAL_EXTERNAL_FILE, "@swc/helpers")
    ensures !StartsWith(LOCAL_EXTERNAL_FILE, BARREL_OPTIMIZATION_PREFIX)
    ensures !StartsWith(LOCAL_EXTERNAL_FILE, "next/dist/")
  {
    var r := LOCAL_EXTERNAL_FILE;
    assert r[..1] == ".";
    DiffersAtFirst(r, BARREL_OPTIMIZATION_PREFIX);
    DiffersAtFirst(r, "next/dist/");
    assert '@' !in r by {
      forall k | 0 <= k < |r| ensures r[k] != '@' { }
    }
    if Contains(r, "@swc/helpers") {
      ContainsHasNeedleChar(r, "@swc/helpers", 0);
    }
  }

  const LOCAL_EXTERNAL_FILE: string := "./x.external"

  /** A resolver that finds `next/dist/x.external` in CommonJS format for
      every query. */
  function LocalWitnessCollaborators(): Collaborators {
    Collaborators(
      (mode: ResolveMode, from: string, request: string) => Resolved(Some(DIST_EXTERNAL_FILE), false),
      (context: string, isEsmRequested: bool) => Ok(map[]),
      (dirs: Option<PackageDirs>, path: string, isAppLayer: bool, externalType: string, optOut: bool,
       request: string) => None)
  }

  /** The finding on a route that never reaches the `next/dist/` families
      of lines 260-274: `require("./x.external")` resolving to
      `next/dist/x.external` is handed to `resolve_next_external` by the
      local callback (lines 287-301 and 503-509). As built it gets `None`
      and is bundled; corrected, it is externalized as that file. */
  lemma LocalDistExternalDecision()
    ensures HandleExternalsSpec(AsBuilt, WitnessSettings(), None, "/app/src", LOCAL_EXTERNAL_FILE, "commonjs", None,
                                LocalWitnessCollaborators())
            == (Ok(None), None)
    ensures HandleExternalsSpec(Corrected, WitnessSettings(), None, "/app/src", LOCAL_EXTERNAL_FILE, "commonjs", None,
                                LocalWitnessCollaborators())
            == (Ok(Some("commonjs " + DIST_EXTERNAL_FILE)), None)
  {
    AsWrittenMissesDistExternal();
    LocalExternalFileDecidedByCallback(AsBuilt);
    LocalExternalFileDecidedByCallback(Corrected);
  }

  /** Under either build, the decision is the callback's answer on the
      resolved file. */
  lemma LocalExternalFileDecidedByCallback(build: PatternBuild)
    ensures HandleExternalsSpec(build, WitnessSettings(), None, "/app/src", LOCAL_EXTERNAL_FILE, "commonjs", None,
                                LocalWitnessCollaborators())
            == (Ok(ResolveNextExternalBy(build)(DIST_EXTERNAL_FILE)), None)
  {
    var s, col := WitnessSettings(), LocalWitnessCollaborators();
    LocalExternalFileNeedsResolution(build);
    var rr := ResolutionOf(build, s, "/app/src", LOCAL_EXTERNAL_FILE, "commonjs", col);
    LocalExternalFileResolution(build);
    ResolvedRequest(build, s, None, "/app/src", LOCAL_EXTERNAL_FILE, "commonjs", None, col);
    if rr.localRes.None? {
      assert EffectiveResolution(LOCAL_EXTERNAL_FILE, rr) == (None, false);
    }
  }

  /** The loop of `resolve_external` tries CommonJS mode only, finds the
      file and hands it to the callback. */
  lemma LocalExternalFileResolution(build: PatternBuild)
    ensures ResolutionOf(build, WitnessSettings(), "/app/src", LOCAL_EXTERNAL_FILE, "commonjs", LocalWitnessCollaborators())
            == ResolveResult(None, false, ResolveNextExternalBy(build)(DIST_EXTERNAL_FILE))
  {
    var s, col := WitnessSettings(), LocalWitnessCollaborators();
    LocalExternalFileNeedsResolution(build);
    var q := QueryFor(build, s, "/app/src", LOCAL_EXTERNAL_FILE, false, col);
    assert q.isLocalCallback == Some(ResolveNextExternalBy(build));
    assert PreferEsmOptions(q.esmExternalsConfig, false) == [false];
    assert Step(q, false, false) == (Some(DIST_EXTERNAL_FILE), false);
  }

  /** A request the fast path leaves open is decided by the rules after
      resolution. */
  lemma ResolvedRequest(build: PatternBuild, s: Settings, dirs: Option<PackageDirs>, context: string, request: string,
                        dependencyType: string, layer: Option<string>, col: Collaborators)
    requires FastPath(build, request, layer) == NeedsResolution
    ensures HandleExternalsSpec(build, s, dirs, context, request, dependencyType, layer, col)
            == AfterResolution(s, dirs, context, request, dependencyType == "esm", IsLocalRequest(request),
                               IsWebpackBundledLayer(layer), ResolutionOf(build, s, context, request, dependencyType, col), col)
  {
  }

  /** What `resolve_external` returns for a request that needs resolution
      (lines 280-298). */
  function ResolutionOf(build: PatternBuild, s: Settings, context: string, request: string, dependencyType: string,
                        col: Collaborators): ResolveResult
  {
    ResolveExternalSpec(QueryFor(build, s, context, request, dependencyType == "esm", col))
  }

  /** After resolution, bundling is forced when there is no path, when the
      path is not opted out of bundling and the layer is a bundled one, and
      when the path is Babel's runtime, webpack or css-loader (lines
      305-341); a local answer is returned as it is (lines 300-302). */
  lemma ForcedBundlingAfterResolution(build: PatternBuild, s: Settings, dirs: Option<PackageDirs>, context: string, request: string,
                                      dependencyType: string, layer: Option<string>, col: Collaborators)
    requires FastPath(build, request, layer) == NeedsResolution
    ensures var rr := ResolutionOf(build, s, context, request, dependencyType, col);
      var (res, isEsm) := EffectiveResolution(request, rr);
      var out := HandleExternalsSpec(build, s, dirs, context, request, dependencyType, layer, col);
      && (rr.localRes.Some? ==> out == (Ok(rr.localRes), dirs))
      && (rr.localRes.None? && res.None? ==> out == (Ok(None), dirs))
      && (rr.localRes.None? && res.Some? && !s.optOutBundling(res.value) && IsWebpackBundledLayer(layer) ==>
            out == (Ok(None), dirs))
      && (rr.localRes.None? && res.Some? && !EsmViolation(s, dependencyType == "esm", isEsm, IsLocalRequest(request)) &&
          (BabelRuntime(res.value) || WebpackCssLoader(res.value)) ==>
            out == (Ok(None), dirs))
  {
  }

  /** `styled-jsx/style` is treated as a CommonJS path of that name
      whatever the resolver said (lines 305-310), so the ESM-externals
      check never refuses it: it is bundled, or left to the transpiled and
      opt-out resolution with external type `commonjs`. */
  lemma StyledJsxIsCommonJs(build: PatternBuild, s: Settings, dirs: Option<PackageDirs>, context: string,
                            dependencyType: string, layer: Option<string>, col: Collaborators)
    requires FastPath(build, STYLED_JSX_STYLE, layer) == NeedsResolution
    ensures var out := HandleExternalsSpec(build, s, dirs, context, STYLED_JSX_STYLE, dependencyType, layer, col);
      out == (Ok(None), dirs) ||
      out == TranspiledAndOptOut(s, dirs, context, STYLED_JSX_STYLE, dependencyType == "esm",
                                 IsWebpackBundledLayer(layer), STYLED_JSX_STYLE, false,
                                 s.optOutBundling(STYLED_JSX_STYLE), col)
  {
    var rr := ResolutionOf(build, s, context, STYLED_JSX_STYLE, dependencyType, col);
    BareNameNotLocal(STYLED_JSX_STYLE);
    LocalAnswerFromCallback(QueryFor(build, s, context, STYLED_JSX_STYLE, dependencyType == "esm", col));
    assert rr.localRes.None?;
  }

  /** With settings as the constructor builds them, the ESM-externals check
      of line 324 refuses exactly the formats `resolve_external` itself
      refuses (lines 499-501), for a request that is not local. */
  lemma EsmCheckIsFormatCheck(build: PatternBuild, s: Settings, context: string, request: string, isEsmRequested: bool,
                              isEsm: bool, col: Collaborators)
    requires WellFormed(s)
    ensures EsmViolation(s, isEsmRequested, isEsm, IsLocalRequest(request)) <==>
            Rejected(QueryFor(build, s, context, request, isEsmRequested, col), isEsm) && !IsLocalRequest(request)
  {
  }

  /** Hoisting guard: a bare package name that the handler externalizes was
      resolved from the importing module's directory, passed the format
      check, and resolves to the same path and format from the project
      directory (lines 513-538): externalizing it cannot swap in another
      copy of the package. */
  lemma ExternalizedPackageAgreesWithProjectRoot(build: PatternBuild, s: Settings, dirs: Option<PackageDirs>, context: string,
                                                 request: string, dependencyType: string, layer: Option<string>,
                                                 col: Collaborators)
    requires WellFormed(s) && !IsLocalRequest(request) && request != STYLED_JSX_STYLE
    requires FastPath(build, request, layer) == NeedsResolution
    ensures var q := QueryFor(build, s, context, request, dependencyType == "esm", col);
      var rr := ResolveExternalSpec(q);
      var out := HandleExternalsSpec(build, s, dirs, context, request, dependencyType, layer, col);
      out.0.Ok? && out.0.value.Some? ==>
        rr.res.Some? && !Rejected(q, rr.isEsm) && BaseAgrees(q, rr.res, rr.isEsm)
  {
    var q := QueryFor(build, s, context, request, dependencyType == "esm", col);
    ResolvedPathSound(q);
    LocalAnswerFromCallback(q);
  }

  /** A local request's answer, when the resolver finds a file for it, is
      what `resolve_next_external` makes of some resolved path: `commonjs `
      followed by a path without backslashes (lines 287-302). A bare name
      never gets such an answer. */
  lemma LocalAnswerIsNextExternal(build: PatternBuild, s: Settings, dirs: Option<PackageDirs>, context: string, request: string,
                                  dependencyType: string, layer: Option<string>, col: Collaborators)
    requires FastPath(build, request, layer) == NeedsResolution
    ensures var rr := ResolutionOf(build, s, context, request, dependencyType, col);
      && (rr.localRes.Some? ==> IsLocalRequest(request) && rr.res.None?)
      && (rr.localRes.Some? ==> exists p :: rr.localRes == ResolveNextExternalBy(build)(p))
      && (rr.localRes.Some? ==> StartsWith(rr.localRes.value, "commonjs ") && '\\' !in rr.localRes.value)
      && (rr.localRes.Some? ==>
            HandleExternalsSpec(build, s, dirs, context, request, dependencyType, layer, col) == (Ok(rr.localRes), dirs))
  {
    var q := QueryFor(build, s, context, request, dependencyType == "esm", col);
    LocalAnswerFromCallback(q);
    var rr := ResolveExternalSpec(q);
    if rr.localRes.Some? {
      var p :| rr.localRes == ResolveNextExternalBy(build)(p);
    }
  }

  /** The ESM-externals check never refuses a path that passed
      `resolve_external`'s own format check. */
  lemma EsmErrorSparesVettedPaths(build: PatternBuild, s: Settings, context: string, request: string, dependencyType: string,
                                  col: Collaborators)
    requires WellFormed(s)
    ensures var q := QueryFor(build, s, context, request, dependencyType == "esm", col);
      var rr := ResolveExternalSpec(q);
      rr.res.Some? && !Rejected(q, rr.isEsm) ==>
        !EsmViolation(s, dependencyType == "esm", rr.isEsm, IsLocalRequest(request))
  {
  }

  /** The ESM-externals error (lines 324-329) does fire on a bare package
      name when `resolve_external` hands back a candidate that its own
      format check refused: the loop keeps the last refused candidate when
      it runs out of modes, and that candidate is the CommonJS-mode
      resolution. */
  lemma EsmErrorOnRefusedCandidate(build: PatternBuild, s: Settings, dirs: Option<PackageDirs>, context: string, request: string,
                                   isEsmRequested: bool, isAppLayer: bool, col: Collaborators)
    requires WellFormed(s) && !IsLocalRequest(request) && request != STYLED_JSX_STYLE
    ensures var q := QueryFor(build, s, context, request, isEsmRequested, col);
      var rr := ResolveExternalSpec(q);
      rr.res.Some? && Rejected(q, rr.isEsm) && (s.optOutBundling(rr.res.value) || !isAppLayer) ==>
        && AfterResolution(s, dirs, context, request, isEsmRequested, false, isAppLayer, rr, col)
           == (Err(EsmImportError(request)), dirs)
        && col.resolve(Node, context, request) == Resolved(rr.res, true)
  {
    var q := QueryFor(build, s, context, request, isEsmRequested, col);
    var rr := ResolveExternalSpec(q);
    if rr.res.Some? && Rejected(q, rr.isEsm) && (s.optOutBundling(rr.res.value) || !isAppLayer) {
      ResolvedPathSound(q);
      assert rr.localRes.None?;
      assert EsmViolation(s, isEsmRequested, rr.isEsm, false) by {
        assert q.esmExternalsConfig == EffectiveEsmExternals(s.config);
      }
      EsmErrorAfterResolution(s, dirs, context, request, isEsmRequested, isAppLayer, rr, col);
    }
  }

  /** A resolved path whose format violates the ESM-externals check gives
      the error, whatever the opt-out and transpiled settings (line 324). */
  lemma EsmErrorAfterResolution(s: Settings, dirs: Option<PackageDirs>, context: string, request: string,
                                isEsmRequested: bool, isAppLayer: bool, rr: ResolveResult, col: Collaborators)
    requires request != STYLED_JSX_STYLE && rr.localRes.None? && rr.res.Some?
    requires EsmViolation(s, isEsmRequested, rr.isEsm, false)
    requires s.optOutBundling(rr.res.value) || !isAppLayer
    ensures AfterResolution(s, dirs, context, request, isEsmRequested, false, isAppLayer, rr, col)
            == (Err(EsmImportError(request)), dirs)
  {
    var path := rr.res.value;
    assert EffectiveResolution(request, rr) == (rr.res, rr.isEsm);
    assert PathRules(s, dirs, context, request, isEsmRequested, false, isAppLayer, path, rr.isEsm,
                     s.optOutBundling(path), col) == (Err(EsmImportError(request)), dirs);
  }

  /** The same, for the handler's answer. */
  lemma EsmErrorOnRefusedCandidateHandled(build: PatternBuild, s: Settings, dirs: Option<PackageDirs>, context: string, request: string,
                                          dependencyType: string, layer: Option<string>, col: Collaborators)
    requires WellFormed(s) && !IsLocalRequest(request) && request != STYLED_JSX_STYLE
    requires FastPath(build, request, layer) == NeedsResolution
    ensures var q := QueryFor(build, s, context, request, dependencyType == "esm", col);
      var rr := ResolveExternalSpec(q);
      rr.res.Some? && Rejected(q, rr.isEsm) && (s.optOutBundling(rr.res.value) || !IsWebpackBundledLayer(layer)) ==>
        HandleExternalsSpec(build, s, dirs, context, request, dependencyType, layer, col) == (Err(EsmImportError(request)), dirs)
  {
    EsmErrorOnRefusedCandidate(build, s, dirs, context, request, dependencyType == "esm", IsWebpackBundledLayer(layer), col);
    ResolvedRequest(build, s, dirs, context, request, dependencyType, layer, col);
  }

  /** Settings of a build with no experimental options: ESM externals are
      off, so not loose. */
  function WitnessSettings(): Settings {
    Settings(NextConfigComplete(None, None, None), (path: string) => false, [], "/app", false)
  }

  /** A resolver that finds an ES module for every query. */
  function WitnessCollaborators(): Collaborators {
    Collaborators(
      (mode: ResolveMode, from: string, request: string) => Resolved(Some("/app/node_modules/pkg/index.mjs"), true),
      (context: string, isEsmRequested: bool) => Ok(map[]),
      (dirs: Option<PackageDirs>, path: string, isAppLayer: bool, externalType: string, optOut: bool,
       request: string) => None)
  }

  /** The ESM-externals error is reachable: `require("pkg")` outside the
      bundled layers, where `pkg` resolves only to an ES module, fails with
      the error, even though `resolve_external` refused that format. */
  lemma EsmErrorReachable(build: PatternBuild)
    ensures WellFormed(WitnessSettings())
    ensures HandleExternalsSpec(build, WitnessSettings(), None, "/app/src", "pkg", "commonjs", None, WitnessCollaborators())
            == (Err(EsmImportError("pkg")), None)
  {
    var s, col := WitnessSettings(), WitnessCollaborators();
    PkgNeedsResolution(build);
    BareNameNotLocal("pkg");
    EsmErrorOnRefusedCandidateHandled(build, s, None, "/app/src", "pkg", "commonjs", None, col);
  }

  /** No rule decides `require("pkg")` outside the bundled layers without
      resolving it. */
  lemma PkgNeedsResolution(build: PatternBuild)
    ensures FastPath(build, "pkg", None) == NeedsResolution
  {
    var r := "pkg";
    BareNameNotLocal(r);
    DiffersAtFirst(r, BARREL_OPTIMIZATION_PREFIX);
    if Contains(r, "@swc/helpers") {
      ContainsHasNeedleChar(r, "@swc/helpers", 0);
    }
    assert !ReactPackage(r) by {
      forall name | name in ["react", "react-dom", "react-server-dom-webpack"]
        ensures !(r == name || StartsWith(r, name + "/"))
      {
        assert (name + "/")[0] == name[0] == 'r';
        DiffersAtFirst(r, name + "/");
      }
    }
  }

  /** In loose mode an ES-module path is never refused for a `require`: past
      the bundling exclusions it goes to the transpiled and opt-out
      resolution, with external type `module` when it is ESM (lines
      322-360). */
  lemma LooseModeKeepsEsmPaths(s: Settings, dirs: Option<PackageDirs>, context: string, request: string,
                               isEsmRequested: bool, isLocal: bool, isAppLayer: bool, rr: ResolveResult,
                               col: Collaborators)
    requires WellFormed(s) && EffectiveEsmExternals(s.config).IsLoose()
    requires rr.localRes.None? && request != STYLED_JSX_STYLE && rr.res.Some?
    requires s.optOutBundling(rr.res.value) || !isAppLayer
    requires !BabelRuntime(rr.res.value) && !WebpackCssLoader(rr.res.value)
    ensures AfterResolution(s, dirs, context, request, isEsmRequested, isLocal, isAppLayer, rr, col)
            == TranspiledAndOptOut(s, dirs, context, request, isEsmRequested, isAppLayer, rr.res.value, rr.isEsm,
                                   s.optOutBundling(rr.res.value), col)
  {
  }

  /** The rules after resolution leave a filled cache alone, fill an empty
      one only from `resolve_transpiled_packages` when there are transpiled
      packages, and give the same answer when run again on the cache they
      left. */
  lemma AfterResolutionCache(s: Settings, dirs: Option<PackageDirs>, context: string, request: string,
                             isEsmRequested: bool, isLocal: bool, isAppLayer: bool, rr: ResolveResult,
                             col: Collaborators)
    ensures var (out, dirs1) := AfterResolution(s, dirs, context, request, isEsmRequested, isLocal, isAppLayer, rr, col);
      && (dirs.Some? ==> dirs1 == dirs)
      && (dirs1 != dirs ==> dirs.None? && |s.transpiledPackages| != 0 &&
                            dirs1.Some? && col.resolveTranspiledPackages(context, isEsmRequested) == Ok(dirs1.value))
      && AfterResolution(s, dirs1, context, request, isEsmRequested, isLocal, isAppLayer, rr, col) == (out, dirs1)
  {
  }

  /** `resolved_external_package_dirs` is filled at most once (line 344):
      a filled cache is never replaced, and an empty one is filled only
      with what `resolve_transpiled_packages` computed. */
  lemma CacheFilledAtMostOnce(build: PatternBuild, s: Settings, dirs: Option<PackageDirs>, context: string, request: string,
                              dependencyType: string, layer: Option<string>, col: Collaborators)
    ensures var dirs1 := HandleExternalsSpec(build, s, dirs, context, request, dependencyType, layer, col).1;
      && (dirs.Some? ==> dirs1 == dirs)
      && (dirs1 != dirs ==> dirs.None? && |s.transpiledPackages| != 0 && dirs1.Some? &&
                            col.resolveTranspiledPackages(context, dependencyType == "esm") == Ok(dirs1.value))
  {
    if FastPath(build, request, layer) == NeedsResolution {
      ResolvedRequest(build, s, dirs, context, request, dependencyType, layer, col);
      AfterResolutionCache(s, dirs, context, request, dependencyType == "esm", IsLocalRequest(request),
                           IsWebpackBundledLayer(layer), ResolutionOf(build, s, context, request, dependencyType, col), col);
    }
  }

  /** Asking again: the same request, on the cache the first answer left,
      gets the same answer and leaves the cache as it is. */
  lemma RepeatedRequestSameAnswer(build: PatternBuild, s: Settings, dirs: Option<PackageDirs>, context: string, request: string,
                                  dependencyType: string, layer: Option<string>, col: Collaborators)
    ensures var (out, dirs1) := HandleExternalsSpec(build, s, dirs, context, request, dependencyType, layer, col);
      HandleExternalsSpec(build, s, dirs1, context, request, dependencyType, layer, col) == (out, dirs1)
  {
    if FastPath(build, request, layer) == NeedsResolution {
      var dirs1 := HandleExternalsSpec(build, s, dirs, context, request, dependencyType, layer, col).1;
      ResolvedRequest(build, s, dirs, context, request, dependencyType, layer, col);
      ResolvedRequest(build, s, dirs1, context, request, dependencyType, layer, col);
      AfterResolutionCache(s, dirs, context, request, dependencyType == "esm", IsLocalRequest(request),
                           IsWebpackBundledLayer(layer), ResolutionOf(build, s, context, request, dependencyType, col), col);
    }
  }
}
