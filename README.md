# Verified model of the next-rspack externals decision engine

This project models the externals decision engine of next-rspack-binding in Dafny. For every import the bundler meets, `ExternalHandler::handle_externals` decides one of three outcomes:

- bundle the module (`Ok(None)`);
- externalize it (`Ok(Some("commonjs …"))` or `Ok(Some("module …"))`);
- fail with the ESM-externals error.

Two small decision tables around it are modelled too:

- the conversion of the JavaScript options into the handler's configuration;
- the compiler-type → externals-list choice of `NextExternalsPlugin::apply`.

Modules, one per concern of the source:

- `Types` (`types.dfy`): `EsmExternalsConfig`, `ExperimentalConfig`, `NextConfigComplete`, with `is_enabled` and `is_loose`.
- `Strings` (`strings.dfy`): prefix, suffix and substring predicates. It also has the `[/\\]` separator class, which the patterns spell as `/`.
- `Patterns` (`patterns.dfy`):
  - the layer lists and their predicates;
  - every regular expression of the cascade, as a hand-written predicate on `seq<char>`. The look-ahead `(?!lib[/\\]router[/\\]router)` is modelled with its look-ahead meaning.
- `NextExternal` (`next_external.dfy`): `EXTERNAL_PATTERN`, the `.*?next[/\\]dist` replacement, `normalize_path_sep` and `resolve_next_external`.
  - `EXTERNAL_PATTERN` is modelled twice: as the source builds it (`ExternalPatternAsWritten`) and as its surrounding code intends it (`ExternalPattern`). See "## Findings".
  - `PatternBuild` names the two (`AsBuilt`, `Corrected`), and `ResolveNextExternalBy` picks `resolve_next_external` for either.
- `Resolution` (`resolve_external.dfy`): `resolve_external`.
  - `ResolveExternalSpec` is the loop stated as a recursive function.
  - The method `ResolveExternal` runs the `for prefer_esm` loop with its `continue`s and `break` and is proved equal to it.
  - The filesystem resolver is a function parameter over four mode tags (ESM, CJS, base ESM, base CJS).
- `Externals` (`handle_externals.dfy`): the cascade.
  - `FastPath` covers what the request and layer alone decide. `AfterResolution` and `PathRules` cover the steps after resolution. `HandleExternalsSpec` is the whole decision, together with the new value of the package-directory cache.
  - `FastPath`, `HandleExternalsSpec` and every lemma about them take a `PatternBuild`, so each fact holds for the cascade as built and for the corrected one.
  - The class `ExternalHandler` holds the handler's fields. Its `HandleExternals` method runs the fast path (lines 197-277) as one call to the function `FastPath`, then resolution (`Resolution.ResolveExternal`) and the steps after it as methods. It uses the pattern as built and fills `resolvedExternalPackageDirs` at most once. Each of these methods is proved equal to the matching spec function.
- `CascadeFacts` (`cascade_facts.dfy`): properties of the cascade across requests, layers, resolver behaviours and both pattern builds.
- `Binding` (`binding.dfy`): the `From` conversions of `lib.rs`.
- `ExternalsPlugin` (`externals_plugin.dfy`):
  - `get_edge_polyfilled_modules`, as a loop proved against the fold `Polyfills`;
  - the compiler-type selection.

Behaviours of the source that the model keeps:

- **`"next"`.** The request `"next"` is answered with `commonjs next/dist/lib/import-next-warning` in every layer (lines 201-205), not `commonjs next`. The later `commonjs next` branch (214-216) is unreachable, and `CascadeFacts.CommonjsNextUnreachable` proves it.
- **ESM error is reachable.** A format mismatch does not end the loop as "unresolved": the loop does not clear `res` when it refuses an ESM result for a `require` (lines 499-501). So when the refused candidate is the last mode tried, it is returned, and the ESM error of lines 324-329 fires on it.
  - `CascadeFacts.EsmErrorOnRefusedCandidate` shows the error fires exactly on such a refused candidate.
  - `CascadeFacts.EsmErrorReachable` gives a concrete resolver for which it does.
  - `CascadeFacts.EsmErrorSparesVettedPaths` shows it never fires on a path the loop accepted.
  - This is the behaviour the error message exists for, so it is not listed as a finding.
- **Local requests.** A local request skips the never-external rule as well as the React rule, because both sit inside `if !is_local` (lines 213-227).
- **`experimental` is optional.** Line 282 reads `self.config.experimental.esm_externals`, but `experimental` is an `Option` in `config_shared.rs`. The model reads an absent `experimental` as `EsmExternalsConfig::None`, as `ExternalHandler::new` does for the loose flag (lines 158-161).

## Model

| member | source | states |
|---|---|---|
| Types.LooseEsmExternals | crates/binding/src/handle_externals.rs:158-161 | The handler's loose flag holds exactly when the effective mode is `Loose`, and loose mode is an enabled mode. |
| Patterns.ServerOnlyLayersAreBundled | crates/binding/src/handle_externals.rs:9-64 | Every server-only layer is a bundled layer; `ssr` is bundled but not server-only. |
| Patterns.CjsAndEsmBucketsDisjoint | crates/binding/src/handle_externals.rs:38-50 | No `next/dist` path is in both the CommonJS bucket (shared, compiled `.js`/`.cjs`) and the ESM bucket (`esm/shared`, compiled `.mjs`), so the rules at lines 268 and 272 commute; only the earlier rules at lines 260 and 264 take precedence over them. |
| NextExternal.FirstNextDist | crates/binding/src/handle_externals.rs:383-384 | The match of `.*?next[/\\]dist` ends at the first position where `next`, a separator and `dist` begin, and there is none when there is no such position. |
| NextExternal.LineStart | crates/binding/src/handle_externals.rs:383-384 | The leftmost start of a `.*?` ending at a position: after the last newline before it (or 0), with no newline in between, since `.` does not match a newline. |
| NextExternal.NormalizePathSep | crates/binding/src/handle_externals.rs:413-415 | The result has the input's length, has `/` wherever the input has `\` and the input's character elsewhere, and contains no `\`. |
| NextExternal.NormalizePathSepIdempotent | crates/binding/src/handle_externals.rs:413-415 | Normalizing twice gives the same as normalizing once. |
| NextExternal.NormalizePathSepAppend | crates/binding/src/handle_externals.rs:413-415 | Normalization works character by character: normalizing a concatenation concatenates the normalized parts. |
| NextExternal.NormalizePathSepKeepsSlashes | crates/binding/src/handle_externals.rs:413-415 | A path without `\` is left unchanged. |
| NextExternal.ResolveNextExternalAsWritten | crates/binding/src/handle_externals.rs:367-410 | With the pattern as built, the function answers `Some` exactly when that pattern matches; any answer starts with `commonjs ` and contains no `\`. |
| NextExternal.AsWrittenNeedsDoubleSeparator | crates/binding/src/handle_externals.rs:367-381 | Any match of the pattern as built has `next` followed by two separators. |
| NextExternal.AsWrittenRejectsDistExternal | crates/binding/src/handle_externals.rs:367-381 | The pattern as built does not match `next/dist/x.external`. |
| NextExternal.AsWrittenMissesDistExternal | crates/binding/src/handle_externals.rs:386-410 | As built, `resolve_next_external` returns `None` for `next/dist/x.external`; the corrected function returns `commonjs next/dist/x.external`. |
| NextExternal.ResolveNextExternal | crates/binding/src/handle_externals.rs:386-410 | Corrected pattern (`next/dist`, optional `/esm`, then `.external` or `.external.js` at the end): `Some` exactly when the pattern matches; any answer starts with `commonjs ` and contains no `\`. |
| NextExternal.IntendedAcceptsDistExternal | crates/binding/src/handle_externals.rs:398-402 | The corrected pattern matches `next/dist/x.external`. |
| NextExternal.IntendedCoversEsmDirectory | crates/binding/src/handle_externals.rs:369-372 | The corrected pattern matches a file under the optional `esm` directory, `next/dist/esm/a.external.js`. |
| NextExternal.SharedRuntimeNotExternal | crates/binding/src/handle_externals.rs:373-386 | A path ending in `.shared-runtime.js`, which the doc comment at line 386 also names, is accepted by neither pattern: both keep the ending of line 373. |
| NextExternal.ExternalPathHasDistRoot | crates/binding/src/handle_externals.rs:383-403 | Every path the corrected pattern matches contains a `next/dist` root for the replacement to cut at. |
| NextExternal.ReplaceKeepsPathUpToSeparators | crates/binding/src/handle_externals.rs:403-404 | The replacement keeps every line before the line of the first `next/dist` and the text after it, and replaces only the stretch from that line's start to the root by `next/dist`: putting that stretch back into the normalized rewrite gives the normalized input. |
| NextExternal.ResolveNextExternalRoundTrip | crates/binding/src/handle_externals.rs:395-410 | For a matching path, the answer is `commonjs ` plus the normalized rewrite, and putting the removed stretch back reconstructs the path up to separators. |
| NextExternal.ResolveNextExternalRootedAtDist | crates/binding/src/handle_externals.rs:401-406 | For a matching path, the specifier keeps the earlier lines and starts the root's line with `next/dist`; for a path without newlines the specifier after `commonjs ` starts with `next/dist`. |
| NextExternal.DistRequestSpecifier | crates/binding/src/handle_externals.rs:403-406 | A path that starts with `next/dist/` is rewritten to itself, so its specifier is `commonjs ` plus the normalized path, nine characters longer than the path. |
| NextExternal.DistExternalSpecifier | crates/binding/src/handle_externals.rs:403-406 | `next/dist/x.external` is rewritten to itself. |
| NextExternal.ResolveNextExternalByGivesSpecifier | crates/binding/src/handle_externals.rs:395-410 | With either pattern, `resolve_next_external` answers `None` or the path's own specifier, and `Some` exactly when that pattern matches. |
| Resolution.PreferEsmOptions | crates/binding/src/handle_externals.rs:453-464 | The mode order ends with CJS, holds no mode twice, and tries ESM (first) exactly when ESM externals are enabled and the import is an ESM import. |
| Resolution.ResolveExternal | crates/binding/src/handle_externals.rs:439-550 | The loop returns exactly what the recursive statement of the loop gives for the same arguments. |
| Resolution.ResolvedPathSound | crates/binding/src/handle_externals.rs:472-549 | A returned path comes from one of the modes tried and has no local answer beside it. A refused ESM path is what the CJS resolution returned. A path that passed the format check was checked against the project directory (when the base check is on) and came without a local callback. |
| Resolution.NoFinalCandidateNoVettedPath | crates/binding/src/handle_externals.rs:472-549 | When no mode gives a path that would end the loop, there is no local answer and any returned path is a refused ESM result. |
| Resolution.FirstFinalCandidateWins | crates/binding/src/handle_externals.rs:472-543 | The first mode whose resolution ends the loop decides the result: its path and format, or the local callback applied to its path. |
| Resolution.LocalAnswerFromCallback | crates/binding/src/handle_externals.rs:503-511 | A local answer only comes with a local callback, with no path beside it, and is the callback's answer for some path. |
| Externals.EsmImportMessageNamesRequest | crates/binding/src/handle_externals.rs:325-328 | The message of the ESM-externals error contains the request. |
| Externals.NextDistOutcome | crates/binding/src/handle_externals.rs:257-277 | Never an error. The image loader is bundled. `next-server` and the CommonJS bucket give `commonjs <request>`, and the ESM bucket then gives `module <request>`. Anything else is left to `resolve_next_external` with the chosen pattern. |
| Externals.ExternalHandler.constructor | crates/binding/src/handle_externals.rs:152-171 | The handler keeps the configuration, opt-out regex, transpiled packages and directory, starts with no package-directory cache, and is loose exactly when the configuration says `Loose`. |
| Externals.ExternalHandler.HandleExternals | crates/binding/src/handle_externals.rs:183-364 | The answer and the new cache are what `HandleExternalsSpec` gives, with the pattern as built, for the old cache; a filled cache is never changed. |
| Externals.ExternalHandler.AfterResolving | crates/binding/src/handle_externals.rs:300-363 | After resolution, the answer and cache agree with `AfterResolution`; a filled cache is kept. |
| Externals.ExternalHandler.ApplyPathRules | crates/binding/src/handle_externals.rs:323-363 | The ESM check, the Babel and webpack/css-loader exclusions and the remaining steps agree with `PathRules`; a filled cache is kept. |
| Externals.ExternalHandler.ExternalOrBundle | crates/binding/src/handle_externals.rs:343-363 | Filling the cache, then asking the opt-out rule, agree with `TranspiledAndOptOut`; a filled cache is kept. |
| CascadeFacts.NextRequestWarns | crates/binding/src/handle_externals.rs:199-205 | `next` gives `commonjs next/dist/lib/import-next-warning` for every setting, context, dependency type, layer and resolver, and leaves the cache alone. |
| CascadeFacts.CommonjsNextUnreachable | crates/binding/src/handle_externals.rs:213-216 | With either pattern, the rules decided without resolution never answer `commonjs next`, so lines 214-216 never run. |
| CascadeFacts.DistOutcomeNotCommonjsNext | crates/binding/src/handle_externals.rs:257-277 | No `next/dist/` rule answers `commonjs next`. |
| CascadeFacts.BareNameNotLocal | crates/binding/src/handle_externals.rs:173-181 | A request starting with neither `.` nor `/` is not local. |
| CascadeFacts.ReactRuleNeverMatchesLocal | crates/binding/src/handle_externals.rs:213-221 | A request the React pattern matches is not local and is not `next`. |
| CascadeFacts.NotExternalRuleNeverMatchesLocal | crates/binding/src/handle_externals.rs:223-226 | A request the never-external pattern matches is not local. |
| CascadeFacts.ReactOutsideBundledLayers | crates/binding/src/handle_externals.rs:218-221 | A React request outside the bundled layers gives `commonjs <request>` without touching the cache. |
| CascadeFacts.DecidedRequestsIgnoreResolution | crates/binding/src/handle_externals.rs:197-277 | When the request and layer decide, the answer does not depend on settings, context, dependency type or resolver, and the cache is untouched. |
| CascadeFacts.SwcHelpersAndBarrelBundled | crates/binding/src/handle_externals.rs:229-239 | A request containing `@swc/helpers` or starting with `__barrel_optimize__` is decided without resolving. It is bundled unless the React rule took it first, and a barrel request is always bundled. |
| CascadeFacts.ReactPackageStartsWithR | crates/binding/src/handle_externals.rs:23-24 | Every request the React pattern matches begins with `r`. |
| CascadeFacts.NextDistDecidedWithoutResolving | crates/binding/src/handle_externals.rs:257-277 | Every `next/dist/` request is decided without calling the resolver. |
| CascadeFacts.VercelOgInServerLayers | crates/binding/src/handle_externals.rs:246-253 | In a server-only layer, the `@vercel/og` Node bundle gives `module <request>`. |
| CascadeFacts.DistExternalFileFastPath | crates/binding/src/handle_externals.rs:197-277 | `next/dist/x.external` passes every earlier rule and every named `next/dist/` family, so line 276 decides it with `resolve_next_external`, for either pattern and any layer. This holds with lines 39 and 46 given their look-ahead meaning (see Left out); as built, line 268 panics first. |
| CascadeFacts.DistExternalFileDecision | crates/binding/src/handle_externals.rs:257-277 | For every setting, cache, context, dependency type, layer and resolver, the cascade as built bundles `next/dist/x.external`; the corrected cascade externalizes it as `commonjs next/dist/x.external`. This holds with lines 39 and 46 given their look-ahead meaning (see Left out); as built, line 268 panics first. |
| CascadeFacts.LocalExternalFileNeedsResolution | crates/binding/src/handle_externals.rs:173-277 | `./x.external` is local, and no rule before resolution decides it outside every layer, under either pattern. |
| CascadeFacts.LocalExternalFileResolution | crates/binding/src/handle_externals.rs:280-298 | With ESM externals off and a resolver that finds the CommonJS file `next/dist/x.external`, `resolve_external` returns no path and the local callback's answer on that file (lines 503-509). |
| CascadeFacts.LocalExternalFileDecidedByCallback | crates/binding/src/handle_externals.rs:280-302 | Under either pattern, the decision for `./x.external` is that callback answer, and the cache is untouched. |
| CascadeFacts.LocalDistExternalDecision | crates/binding/src/handle_externals.rs:287-302 | On a route that never reaches lines 260-274: `require("./x.external")` resolving to `next/dist/x.external` is bundled as built (`Ok(None)`), and externalized as `commonjs next/dist/x.external` with the corrected pattern. |
| CascadeFacts.ForcedBundlingAfterResolution | crates/binding/src/handle_externals.rs:300-341 | A local answer is returned as is. With no path, the request is bundled. A path not opted out in a bundled layer is bundled. A Babel-runtime or webpack/css-loader path that passes the ESM check is bundled. |
| CascadeFacts.StyledJsxIsCommonJs | crates/binding/src/handle_externals.rs:304-310 | `styled-jsx/style` is bundled, or goes to the final steps as the CommonJS path `styled-jsx/style`, whatever the resolver says. |
| CascadeFacts.EsmCheckIsFormatCheck | crates/binding/src/handle_externals.rs:323-329 | The ESM error's condition is the loop's format check for a non-local request. |
| CascadeFacts.ExternalizedPackageAgreesWithProjectRoot | crates/binding/src/handle_externals.rs:513-539 | A non-local request that is externalized after resolution has a path that passed the format check and resolves alike from the project directory. |
| CascadeFacts.LocalAnswerIsNextExternal | crates/binding/src/handle_externals.rs:287-302 | A local answer only arises for a local request. It is what `resolve_next_external`, with the cascade's own pattern, gives for some path, starts with `commonjs `, contains no `\`, and is the handler's answer. |
| CascadeFacts.EsmErrorSparesVettedPaths | crates/binding/src/handle_externals.rs:323-329 | The ESM error never fires on a path the resolution loop accepted. |
| CascadeFacts.EsmErrorOnRefusedCandidate | crates/binding/src/handle_externals.rs:497-501 | A refused ESM path that is opted out, or not in a bundled layer, gives the ESM error for the request. That path is the CJS resolution's ESM result. |
| CascadeFacts.EsmErrorAfterResolution | crates/binding/src/handle_externals.rs:323-329 | A resolved path that fails the ESM check, and is opted out or outside the bundled layers, gives the ESM error whatever the later rules would say. |
| CascadeFacts.EsmErrorOnRefusedCandidateHandled | crates/binding/src/handle_externals.rs:319-329 | The same, for the handler's whole decision on a request that needs resolution. |
| CascadeFacts.EsmErrorReachable | crates/binding/src/handle_externals.rs:323-329 | For a `require` of `pkg` whose only resolution is an ESM file, in the default mode and with no layer, the handler fails with the ESM error. |
| CascadeFacts.PkgNeedsResolution | crates/binding/src/handle_externals.rs:197-277 | No rule decides `pkg` outside the bundled layers without resolving it. |
| CascadeFacts.LooseModeKeepsEsmPaths | crates/binding/src/handle_externals.rs:323-363 | In loose mode, a resolved path that is not forced into the bundle goes on to the final steps rather than failing. |
| CascadeFacts.AfterResolutionCache | crates/binding/src/handle_externals.rs:343-348 | After resolution, a filled cache is kept. A cache is only filled when it was empty and there are transpiled packages, with what `resolve_transpiled_packages` returned. Repeating the step with the new cache gives the same answer. |
| CascadeFacts.CacheFilledAtMostOnce | crates/binding/src/handle_externals.rs:343-348 | Over a whole request, a filled cache never changes, and an empty one is only filled, with transpiled packages present, with what `resolve_transpiled_packages` returned. |
| CascadeFacts.RepeatedRequestSameAnswer | crates/binding/src/handle_externals.rs:183-364 | Asking the same request again, with the cache the first call left, gives the same answer and leaves that cache alone. |
| Binding.ConvertExperimental | crates/binding/src/lib.rs:25-49 | `Loose` exactly for the string `"loose"`. `None` exactly for an absent value or `false`. `Strict` exactly for `true` or any other string. |
| Binding.ConvertExperimentalRoundTrip | crates/binding/src/lib.rs:25-49 | Every mode is reachable: its JavaScript spelling (absent, `"loose"`, `true`) converts back to it. |
| Binding.ConvertExperimentalExamples | crates/binding/src/lib.rs:29-43 | A boolean never gives `Loose`; `"strict"` and `""` give `Strict`. |
| Binding.ConvertedEsmMode | crates/binding/src/lib.rs:25-49 | For a converted option, the mode `resolve_external` gets is enabled exactly when the option is present and not `false`, and the handler is loose exactly for `"loose"`. |
| Binding.ConvertOptions | crates/binding/src/lib.rs:80-98 | The compiler type, built-in modules, opt-out regex, transpile packages and directory are copied unchanged; the configuration is converted. |
| Binding.ConvertOptionsOnlyConvertsConfig | crates/binding/src/lib.rs:80-98 | Putting the original configuration back gives the original options, and two option records convert alike apart from the configuration exactly when they agree apart from it. |
| ExternalsPlugin.PolyfillsKeys | crates/binding/src/next_externals_plugin.rs:22-25 | After inserting a list of modules, the keys are exactly each module and its `node:` form. |
| ExternalsPlugin.PolyfillsValues | crates/binding/src/next_externals_plugin.rs:22-25 | For modules not spelt with `node:`, both spellings of every module map to `commonjs node:<module>`. |
| ExternalsPlugin.GetEdgePolyfilledModules | crates/binding/src/next_externals_plugin.rs:20-27 | The loop builds the object of the insertions over `SUPPORTED_NATIVE_MODULES`, in order. |
| ExternalsPlugin.SupportedSpellings | crates/binding/src/next_externals_plugin.rs:12-18 | The spellings of the five supported modules are the ten keys `buffer`, `node:buffer`, …, `async_hooks`, `node:async_hooks`. |
| ExternalsPlugin.EdgePolyfills | crates/binding/src/next_externals_plugin.rs:12-27 | The polyfill object has exactly those ten keys, and for each supported module both spellings map to `commonjs node:<module>`. |
| ExternalsPlugin.EdgePolyfillsSize | crates/binding/src/next_externals_plugin.rs:20-27 | The polyfill object has ten keys. |
| ExternalsPlugin.SelectExternalsByCompiler | crates/binding/src/next_externals_plugin.rs:51-76 | `assign` exactly for `client` and `edge-server`, `commonjs2` otherwise. The list is non-empty exactly for `assign` and starts with `next`. `client` gets `[next]`. `edge-server` gets three items: `next`, the object mapping `@builder.io/partytown` and `next/dist/compiled/etag` to `{}`, and the polyfill object. |

## Left out

- `NODE_ESM_RESOLVE_OPTIONS` and the three other resolver option statics (handle_externals.rs:66-139) are reduced to four mode tags. What they configure is the foreign resolver's business.
- `async`, `Pin<Box<dyn Future>>` and `LazyLock` are modelled sequentially. They only add lazy initialisation and asynchrony.
- The filesystem resolver behind `get_resolve` is a total function parameter from mode, directory and request to a path-and-format or a failure.
- The user's opt-out regex (line 317) is a predicate parameter. It is not compiled or matched here.
- `resolve_transpiled_packages` and `resolve_bundling_opt_out_packages` (lines 346, 350) are not part of this model; their bodies are not available. They are function parameters. The first may fail, and its error is propagated as at line 347.
- The four optional resolver-option arguments of `resolve_external` are left out. The only caller passes `None` for each, and for `base_resolve_check`.
- The `?` after `resolve_external` (line 298) is left out, because `resolve_external` always returns `Ok`.
- Externals.IsLocalRequest: models `Path::is_absolute` for POSIX paths only, as a leading `/`. Windows drive paths are not modelled. The Windows-only disjunct of line 180 repeats line 177.
- A `.` in a regular expression is any character but a newline. `$` is modelled as end of input.
- Patterns.NextSharedCjs, Patterns.NextSharedEsm: give the negative look-ahead `(?!lib[/\\]router[/\\]router)` of lines 39 and 46 its look-ahead meaning. The `regex` crate does not support look-around, so as built `Regex::new(..).unwrap()` panics when line 268 is first reached. That panic is not modelled.
- Externals.FastPath: keeps the unreachable `commonjs next` branch (lines 214-216) so that the cascade matches the source.
- Externals.ExternalHandler.HandleExternals: fills the cache with the `Ok` value of `resolve_transpiled_packages`. The source cannot do so: `resolved_external_package_dirs` is a plain `Option` behind `&self`, and lines 345-347 discard the call's result, so the source never fills it. Since that call's body is not available, the model takes its `Ok` value to be the cache it computes.
- The `From<NapiNextConfigComplete>` conversion (lib.rs:57-67) is a function parameter of `Binding.ConvertOptions`. It writes a `bundle_pages_router_dependencies` field that `NextConfigComplete` does not have.
- napi marshalling, `register_plugin!` and `MyBannerPlugin` (lib.rs:101-127) are host binding code with no decision logic.
- `ExternalsPlugin::new(...).apply` (next_externals_plugin.rs:78-79) is a call into rspack. Only the arguments handed to it are modelled.
- `NextExternalsPlugin::new`, `name` and the `compiler_type` field are left out, apart from the compiler type's role in the selection.
- `ExternalItemValue` has only its string form here, the one form the plugin uses. `ExternalItem::String` is `Name`.
- `lib/index.d.ts` holds TypeScript declarations only.
- `NextExternalsPluginOptions` is not part of this model's sources. It is modelled as the napi record with the configuration converted.

## Findings

| source | as written | input that shows it | evidently intended | confidence | as-written member | corrected member |
|---|---|---|---|---|---|---|
| crates/binding/src/handle_externals.rs:367-381 | `EXTERNAL_PATTERN` is built as `next[/\\]` + `(([/\\])esm[/\\])?[/\\]` + `.*` + `(\.external(\.js)?)$`. It has no `dist` and needs two separators right after `next`. | `next/dist/x.external`: as built, `resolve_next_external` returns `None` (`NextExternal.AsWrittenMissesDistExternal`). A local request `./x.external` that resolves to that file reaches it through the callback of lines 287-301 and 503-509, never through line 268, and is bundled as built (`CascadeFacts.LocalDistExternalDecision`). | A file under `next/dist`, optionally under `esm`, ending in `.external` or `.external.js`, is externalized as `commonjs next/dist/…`. The intent is read from the names `next_dist` (line 374) and `optional_esm_part` (line 369), the comment at line 398 on files that end with `.external`, and the comment at lines 401-402 on returning the path that starts with `next/dist/`. The doc comment at line 386 also names `.shared-runtime.js`; neither pattern accepts that ending (`NextExternal.SharedRuntimeNotExternal`), and the correction deliberately leaves it out. | not executed | NextExternal.AsWrittenMissesDistExternal | NextExternal.ResolveNextExternal |
