/** The decision cascade of `ExternalHandler::handle_externals`
    (crates/binding/src/handle_externals.rs:141-365): for one import, bundle
    it (`Ok(None)`), externalize it (`Ok(Some("commonjs …"))` /
    `Ok(Some("module …"))`), or fail.

    `HandleExternalsSpec` states the whole decision as a function of the
    handler's settings, the package-directory cache and the request; the
    class `ExternalHandler` runs it step by step, as the source does, and
    fills the cache at most once. */
module Externals {
  import opened Types
  import opened Strings
  import opened Patterns
  import opened NextExternal
  import opened Resolution

  /** Why a decision failed: the ESM-externals error of lines 324-329, or the
      error `resolve_transpiled_packages` returned (line 346). */
  datatype HandlerError = EsmImportError(request: string) | PackageDirsError(message: string)
  {
    /** The text the error carries. */
    function Message(): string {
      match this
      case EsmImportError(request) => EsmImportMessage(request)
      case PackageDirsError(message) => message
    }
  }

  /** `Ok(None)` bundles; `Ok(Some(spec))` externalizes; `Err(error)` fails. */
  type Outcome = Result<Option<string>, HandlerError>

  /** `resolved_external_package_dirs`: package name to package directory. */
  type PackageDirs = map<string, string>

  /** What the request string and the layer alone decide (lines 197-277). */
  datatype Verdict = Decided(outcome: Outcome) | NeedsResolution

  const NEXT_WARNING_EXTERNAL: string := "commonjs next/dist/lib/import-next-warning"
  const VERCEL_OG_NODE_BUNDLE: string := "next/dist/compiled/@vercel/og/index.node.js"
  const STYLED_JSX_STYLE: string := "styled-jsx/style"

  /** `Path::is_absolute`, for POSIX paths. */
  predicate IsAbsolute(request: string) { StartsWith(request, "/") }

  /** `is_local_request` (lines 173-181). The Windows-only disjunct at line
      180 repeats the test at line 177, so it adds nothing. */
  predicate IsLocalRequest(request: string) {
    StartsWith(request, ".") || IsAbsolute(request)
  }

  /** The message of the ESM-externals error (lines 325-328). */
  function EsmImportMessage(request: string): string
  {
    "ESM packages (" + request + ") need to be imported. Use 'import' to reference the package instead. https://nextjs.org/docs/messages/import-esm-externals"
  }

  /** The error names the offending request. */
  lemma EsmImportMessageNamesRequest(request: string)
    ensures Contains(EsmImportError(request).Message(), request)
  {
    ContainsAt(EsmImportMessage(request), "ESM packages (", request);
  }

  lemma {:induction false} ContainsAt(m: string, before: string, needle: string)
    requires StartsWith(m, before + needle)
    ensures Contains(m, needle)
    decreases |before|
  {
    if before == [] {
      assert [] + needle == needle;
    } else {
      assert m[1..][..|before| - 1 + |needle|] == (before + needle)[1..];
      assert (before + needle)[1..] == before[1..] + needle;
      ContainsAt(m[1..], before[1..], needle);
    }
  }

  /** Lines 257-277: a `next/dist/` request is decided without resolving it. */
  function NextDistOutcome(build: PatternBuild, request: string): (o: Outcome)
    ensures o.Ok?
    ensures NextImageLoader(request) ==> o == Ok(None)
    ensures !NextImageLoader(request) && (NextServer(request) || NextSharedCjs(request) || NextCompiledCjs(request)) ==>
              o == Ok(Some("commonjs " + request))
    ensures !NextImageLoader(request) && !NextServer(request) && !NextSharedCjs(request) && !NextCompiledCjs(request) &&
            (NextSharedEsm(request) || NextCompiledMjs(request)) ==>
              o == Ok(Some("module " + request))
  {
    if NextImageLoader(request) then Ok(None)
    else if NextServer(request) then Ok(Some("commonjs " + request))
    else if NextSharedCjs(request) || NextCompiledCjs(request) then Ok(Some("commonjs " + request))
    else if NextSharedEsm(request) || NextCompiledMjs(request) then Ok(Some("module " + request))
    else Ok(ResolveNextExternalBy(build)(request))
  }

  /** Lines 197-277: the rules decided from the request and the layer,
      first match wins. */
  function FastPath(build: PatternBuild, request: string, layer: Option<string>): (v: Verdict)
  {
    if request == "next" then Decided(Ok(Some(NEXT_WARNING_EXTERNAL)))
    else
      var isLocal := IsLocalRequest(request);
      var isAppLayer := IsWebpackBundledLayer(layer);
      if !isLocal && request == "next" then Decided(Ok(Some("commonjs " + request)))
      else if !isLocal && ReactPackage(request) && !isAppLayer then Decided(Ok(Some("commonjs " + request)))
      else if !isLocal && NotExternalModule(request) then Decided(Ok(None))
      else if Contains(request, "@swc/helpers") then Decided(Ok(None))
      else if StartsWith(request, BARREL_OPTIMIZATION_PREFIX) then Decided(Ok(None))
      else if ShouldUseReactServerCondition(layer) && request == VERCEL_OG_NODE_BUNDLE then
        Decided(Ok(Some("module " + request)))
      else if StartsWith(request, "next/dist/") then Decided(NextDistOutcome(build, request))
      else NeedsResolution
  }

  /** The handler's build-wide settings (the immutable fields of
      `ExternalHandler`). The opt-out regex is supplied by the user, so it is
      a predicate here. */
  datatype Settings = Settings(
    config: NextConfigComplete,
    optOutBundling: string -> bool,
    transpiledPackages: seq<string>,
    dir: string,
    looseEsmExternals: bool)

  /** Settings as `ExternalHandler::new` builds them. */
  predicate WellFormed(s: Settings) {
    s.looseEsmExternals == LooseEsmExternals(s.config)
  }

  /** The collaborators whose bodies are not part of this model: the
      filesystem resolver, `resolve_transpiled_packages` (which computes the
      package-directory cache or fails) and
      `resolve_bundling_opt_out_packages` (cache, resolved path, app layer,
      external type, opted out, request). */
  datatype Collaborators = Collaborators(
    resolve: Resolver,
    resolveTranspiledPackages: (string, bool) -> Result<PackageDirs, string>,
    resolveBundlingOptOutPackages: (Option<PackageDirs>, string, bool, string, bool, string) -> Option<string>)

  /** The `resolve_external` call of lines 280-298. */
  function QueryFor(build: PatternBuild, s: Settings, context: string, request: string, isEsmRequested: bool, col: Collaborators): ResolveQuery {
    ResolveQuery(s.dir, EffectiveEsmExternals(s.config), context, request, isEsmRequested, col.resolve,
                 if IsLocalRequest(request) then Some(ResolveNextExternalBy(build)) else None, None)
  }

  /** The ESM-externals check of line 324. */
  predicate EsmViolation(s: Settings, isEsmRequested: bool, isEsm: bool, isLocal: bool) {
    !isEsmRequested && isEsm && !s.looseEsmExternals && !isLocal
  }

  /** The path and format the post-resolution rules look at (lines 305-310). */
  function EffectiveResolution(request: string, rr: ResolveResult): (Option<string>, bool) {
    if request == STYLED_JSX_STYLE then (Some(STYLED_JSX_STYLE), false) else (rr.res, rr.isEsm)
  }

  /** Lines 343-360, for a resolved path that survived the exclusions. */
  function TranspiledAndOptOut(s: Settings, dirs: Option<PackageDirs>, context: string, request: string,
                               isEsmRequested: bool, isAppLayer: bool, path: string, isEsm: bool,
                               optOut: bool, col: Collaborators): (Outcome, Option<PackageDirs>)
  {
    var externalType := if isEsm then "module" else "commonjs";
    if |s.transpiledPackages| != 0 && dirs.None? then
      match col.resolveTranspiledPackages(context, isEsmRequested)
      case Err(e) => (Err(PackageDirsError(e)), dirs)
      case Ok(d) =>
        (Ok(col.resolveBundlingOptOutPackages(Some(d), path, isAppLayer, externalType, optOut, request)), Some(d))
    else
      (Ok(col.resolveBundlingOptOutPackages(dirs, path, isAppLayer, externalType, optOut, request)), dirs)
  }

  /** Lines 322-362: the rules for a resolved path that is not left to an
      app layer's bundler. */
  function PathRules(s: Settings, dirs: Option<PackageDirs>, context: string, request: string,
                     isEsmRequested: bool, isLocal: bool, isAppLayer: bool, path: string, isEsm: bool,
                     optOut: bool, col: Collaborators): (Outcome, Option<PackageDirs>)
  {
    if EsmViolation(s, isEsmRequested, isEsm, isLocal) then (Err(EsmImportError(request)), dirs)
    else if BabelRuntime(path) then (Ok(None), dirs)
    else if WebpackCssLoader(path) then (Ok(None), dirs)
    else TranspiledAndOptOut(s, dirs, context, request, isEsmRequested, isAppLayer, path, isEsm, optOut, col)
  }

  /** Lines 300-363: what happens after `resolve_external` returned `rr`. */
  function AfterResolution(s: Settings, dirs: Option<PackageDirs>, context: string, request: string,
                           isEsmRequested: bool, isLocal: bool, isAppLayer: bool,
                           rr: ResolveResult, col: Collaborators): (Outcome, Option<PackageDirs>)
  {
    if rr.localRes.Some? then (Ok(rr.localRes), dirs)
    else
      var (res, isEsm) := EffectiveResolution(request, rr);
      if res.None? then (Ok(None), dirs)
      else
        var path := res.value;
        var optOut := s.optOutBundling(path);
        if !optOut && isAppLayer then (Ok(None), dirs)
        else PathRules(s, dirs, context, request, isEsmRequested, isLocal, isAppLayer, path, isEsm, optOut, col)
  }

  /** The decision for one request, and the package-directory cache after it. */
  function HandleExternalsSpec(build: PatternBuild, s: Settings, dirs: Option<PackageDirs>, context: string, request: string,
                               dependencyType: string, layer: Option<string>, col: Collaborators)
    : (Outcome, Option<PackageDirs>)
  {
    match FastPath(build, request, layer)
    case Decided(o) => (o, dirs)
    case NeedsResolution =>
      var isEsmRequested := dependencyType == "esm";
      var rr := ResolveExternalSpec(QueryFor(build, s, context, request, isEsmRequested, col));
      AfterResolution(s, dirs, context, request, isEsmRequested, IsLocalRequest(request),
                      IsWebpackBundledLayer(layer), rr, col)
  }

  /** `ExternalHandler`: build-wide settings plus the package-directory cache
      that the first request needing it fills. */
  class ExternalHandler {
    const config: NextConfigComplete
    const optOutBundlingPackageRegex: string -> bool
    const transpiledPackages: seq<string>
    const dir: string
    var resolvedExternalPackageDirs: Option<PackageDirs>
    const looseEsmExternals: bool

    /** The immutable fields, as the settings the cascade reads. */
    function Snapshot(): Settings {
      Settings(config, optOutBundlingPackageRegex, transpiledPackages, dir, looseEsmExternals)
    }

    /** `ExternalHandler::new` (lines 152-171). */
    constructor (config: NextConfigComplete, optOutBundlingPackageRegex: string -> bool,
                 transpiledPackages: seq<string>, dir: string)
      ensures this.config == config && this.transpiledPackages == transpiledPackages && this.dir == dir
      ensures this.optOutBundlingPackageRegex == optOutBundlingPackageRegex
      ensures resolvedExternalPackageDirs.None?
      ensures looseEsmExternals == (config.experimental.Some? && config.experimental.value.esmExternals == Loose)
      ensures WellFormed(Snapshot())
    {
      this.looseEsmExternals := match config.experimental
        case None => false
        case Some(exp) => exp.esmExternals == Loose;
      this.config := config;
      this.optOutBundlingPackageRegex := optOutBundlingPackageRegex;
      this.transpiledPackages := transpiledPackages;
      this.dir := dir;
      this.resolvedExternalPackageDirs := None;
    }

    /** `handle_externals` (lines 183-364), with the `next/dist` external
        pattern as the source builds it (`AsBuilt`). */
    method HandleExternals(context: string, request: string, dependencyType: string, layer: Option<string>,
                           col: Collaborators)
      returns (r: Outcome)
      modifies this
      ensures (r, resolvedExternalPackageDirs) ==
              HandleExternalsSpec(AsBuilt, Snapshot(), old(resolvedExternalPackageDirs), context, request, dependencyType, layer, col)
      ensures old(resolvedExternalPackageDirs).Some? ==> resolvedExternalPackageDirs == old(resolvedExternalPackageDirs)
    {
      // Lines 197-277: the rules that need no resolution.
      match FastPath(AsBuilt, request, layer) {
        case Decided(o) =>
          return o;
        case NeedsResolution =>
      }

      var isLocal := IsLocalRequest(request);
      var isAppLayer := IsWebpackBundledLayer(layer);
      var isEsmRequested := dependencyType == "esm";

      var resolveResult := ResolveExternal(dir, EffectiveEsmExternals(config), context, request, isEsmRequested,
                                           col.resolve, if isLocal then Some(ResolveNextExternalAsWritten) else None, None);
      r := AfterResolving(context, request, isEsmRequested, isLocal, isAppLayer, resolveResult, col);
    }

    /** Lines 300-363: the rules applied to what `resolve_external` returned;
        the only place the package-directory cache is filled. */
    method AfterResolving(context: string, request: string, isEsmRequested: bool, isLocal: bool, isAppLayer: bool,
                          resolveResult: ResolveResult, col: Collaborators)
      returns (r: Outcome)
      modifies this
      ensures (r, resolvedExternalPackageDirs) ==
              AfterResolution(Snapshot(), old(resolvedExternalPackageDirs), context, request, isEsmRequested,
                              isLocal, isAppLayer, resolveResult, col)
      ensures old(resolvedExternalPackageDirs).Some? ==> resolvedExternalPackageDirs == old(resolvedExternalPackageDirs)
    {
      if resolveResult.localRes.Some? {
        return Ok(resolveResult.localRes);
      }

      var res, isEsm := resolveResult.res, resolveResult.isEsm;
      if request == STYLED_JSX_STYLE {
        res, isEsm := Some(STYLED_JSX_STYLE), false;
      }

      if res.None? {
        return Ok(None);
      }
      var path := res.value;

      var isOptOutBundling := optOutBundlingPackageRegex(path);

      if !isOptOutBundling && isAppLayer {
        return Ok(None);
      }

      r := ApplyPathRules(context, request, isEsmRequested, isLocal, isAppLayer, path, isEsm, isOptOutBundling, col);
    }

    /** Lines 322-362: the ESM-externals check, the two excluded package
        families, then the transpiled-package and opt-out resolution. */
    method ApplyPathRules(context: string, request: string, isEsmRequested: bool, isLocal: bool, isAppLayer: bool,
                          path: string, isEsm: bool, isOptOutBundling: bool, col: Collaborators)
      returns (r: Outcome)
      modifies this
      ensures (r, resolvedExternalPackageDirs) ==
              PathRules(Snapshot(), old(resolvedExternalPackageDirs), context, request, isEsmRequested,
                        isLocal, isAppLayer, path, isEsm, isOptOutBundling, col)
      ensures old(resolvedExternalPackageDirs).Some? ==> resolvedExternalPackageDirs == old(resolvedExternalPackageDirs)
    {
      if !isEsmRequested && isEsm && !looseEsmExternals && !isLocal {
        return Err(EsmImportError(request));
      }

      if BabelRuntime(path) {
        return Ok(None);
      }

      if WebpackCssLoader(path) {
        return Ok(None);
      }

      r := ExternalOrBundle(context, request, isEsmRequested, isAppLayer, path, isEsm, isOptOutBundling, col);
    }

    /** Lines 343-362: fill the package-directory cache if it is still empty
        and needed, then let the opt-out resolution decide. */
    method ExternalOrBundle(context: string, request: string, isEsmRequested: bool, isAppLayer: bool,
                            path: string, isEsm: bool, isOptOutBundling: bool, col: Collaborators)
      returns (r: Outcome)
      modifies this
      ensures (r, resolvedExternalPackageDirs) ==
              TranspiledAndOptOut(Snapshot(), old(resolvedExternalPackageDirs), context, request, isEsmRequested,
                                  isAppLayer, path, isEsm, isOptOutBundling, col)
      ensures old(resolvedExternalPackageDirs).Some? ==> resolvedExternalPackageDirs == old(resolvedExternalPackageDirs)
    {
      var externalType := if isEsm then "module" else "commonjs";
      if |transpiledPackages| != 0 && resolvedExternalPackageDirs.None? {
        match col.resolveTranspiledPackages(context, isEsmRequested) {
          case Err(e) =>
            return Err(PackageDirsError(e));
          case Ok(d) =>
            resolvedExternalPackageDirs := Some(d);
        }
      }

      var resolvedBundlingOptOutRes := col.resolveBundlingOptOutPackages(
        resolvedExternalPackageDirs, path, isAppLayer, externalType, isOptOutBundling, request);

      if resolvedBundlingOptOutRes.Some? {
        return Ok(resolvedBundlingOptOutRes);
      }

      // Default to bundling.
      return Ok(None);
    }
  }
}
