/** `resolve_external` of crates/binding/src/handle_externals.rs (lines
    417-550): resolve a request from the importing module's directory in ESM
    and/or CommonJS mode, refuse ESM results for `require`, and re-resolve
    from the project directory so that a package which hoisting would swap
    for another copy is not externalized.

    The filesystem resolver behind `get_resolve` is a parameter: one total
    function from a resolver configuration, a directory and a request to
    `Ok((path, is_esm))` or an error. */
module Resolution {
  import opened Types

  /** The four resolver configurations, reduced to their tags:
      `NODE_ESM_RESOLVE_OPTIONS`, `NODE_RESOLVE_OPTIONS`,
      `NODE_BASE_ESM_RESOLVE_OPTIONS`, `NODE_BASE_RESOLVE_OPTIONS`. */
  datatype ResolveMode = Esm | Node | BaseEsm | Base

  /** One resolver call: `Ok((resolved_path, is_esm))` or `Err(_)`. */
  datatype ResolveOutcome = Resolved(path: Option<string>, isEsm: bool) | Failed

  type Resolver = (ResolveMode, string, string) -> ResolveOutcome

  datatype ResolveResult = ResolveResult(res: Option<string>, isEsm: bool, localRes: Option<string>)

  /** The arguments of one `resolve_external` call. The four optional resolver
      configurations are always left at their defaults by the caller, so they
      are not parameters here. */
  datatype ResolveQuery = ResolveQuery(
    dir: string,
    esmExternalsConfig: EsmExternalsConfig,
    context: string,
    request: string,
    isEsmRequested: bool,
    resolve: Resolver,
    isLocalCallback: Option<string -> Option<string>>,
    baseResolveCheck: Option<bool>)

  /** The order of `prefer_esm` values tried (lines 460-464). */
  function PreferEsmOptions(config: EsmExternalsConfig, isEsmRequested: bool): (order: seq<bool>)
    ensures |order| >= 1 && !order[|order| - 1]
    ensures (true in order) <==> config.IsEnabled() && isEsmRequested
    ensures true in order ==> order[0]
    ensures forall k, j :: 0 <= k < j < |order| ==> order[k] != order[j]
  {
    if config.IsEnabled() && isEsmRequested then [true, false] else [false]
  }

  function ModeFor(preferEsm: bool): ResolveMode { if preferEsm then Esm else Node }

  function BaseModeFor(isEsm: bool): ResolveMode { if isEsm then BaseEsm else Base }

  /** `base_resolve_check.unwrap_or(true)` */
  function BaseCheckEnabled(q: ResolveQuery): bool {
    match q.baseResolveCheck
    case None => true
    case Some(b) => b
  }

  /** The format check of lines 499-501: an ESM result for a request that
      was not an ESM import, outside loose mode. */
  predicate Rejected(q: ResolveQuery, isEsm: bool) {
    !q.isEsmRequested && isEsm && !q.esmExternalsConfig.IsLoose()
  }

  /** The base resolution from the project directory, with an error read as
      `(None, false)` (lines 526-529). */
  function BaseResolution(q: ResolveQuery, isEsm: bool): (Option<string>, bool) {
    match q.resolve(BaseModeFor(isEsm), q.dir, q.request)
    case Resolved(p, e) => (p, e)
    case Failed => (None, false)
  }

  /** The comparison of line 536 passes. */
  predicate BaseAgrees(q: ResolveQuery, res: Option<string>, isEsm: bool) {
    BaseResolution(q, isEsm) == (res, isEsm)
  }

  /** The resolution from the importing module's directory, with an error
      clearing the path but keeping the previous `is_esm` (lines 483-491). */
  function Step(q: ResolveQuery, preferEsm: bool, isEsm: bool): (Option<string>, bool) {
    match q.resolve(ModeFor(preferEsm), q.context, q.request)
    case Resolved(p, e) => (p, e)
    case Failed => (None, isEsm)
  }

  /** The loop of lines 472-543 run over the remaining `prefer_esm` values,
      from the current `res` and `is_esm`. */
  function Attempt(q: ResolveQuery, order: seq<bool>, res: Option<string>, isEsm: bool): ResolveResult
    decreases |order|
  {
    if order == [] then ResolveResult(res, isEsm, None)
    else
      var (res1, isEsm1) := Step(q, order[0], isEsm);
      if res1.None? then Attempt(q, order[1..], res1, isEsm1)
      else if Rejected(q, isEsm1) then Attempt(q, order[1..], res1, isEsm1)
      else if q.isLocalCallback.Some? then ResolveResult(None, false, q.isLocalCallback.value(res1.value))
      else if BaseCheckEnabled(q) && !BaseAgrees(q, res1, isEsm1) then Attempt(q, order[1..], None, isEsm1)
      else ResolveResult(res1, isEsm1, None)
  }

  /** What `resolve_external` returns. */
  function ResolveExternalSpec(q: ResolveQuery): ResolveResult {
    Attempt(q, PreferEsmOptions(q.esmExternalsConfig, q.isEsmRequested), None, false)
  }

  /** `resolve_external` (lines 439-550). */
  method ResolveExternal(
    dir: string,
    esmExternalsConfig: EsmExternalsConfig,
    context: string,
    request: string,
    isEsmRequested: bool,
    resolve: Resolver,
    isLocalCallback: Option<string -> Option<string>>,
    baseResolveCheck: Option<bool>)
    returns (r: ResolveResult)
    ensures r == ResolveExternalSpec(ResolveQuery(dir, esmExternalsConfig, context, request,
                                                  isEsmRequested, resolve, isLocalCallback, baseResolveCheck))
  {
    ghost var q := ResolveQuery(dir, esmExternalsConfig, context, request,
                                isEsmRequested, resolve, isLocalCallback, baseResolveCheck);
    var esmExternals := esmExternalsConfig.IsEnabled();
    var looseEsmExternals := esmExternalsConfig.IsLoose();

    var res: Option<string> := None;
    var isEsm := false;

    var preferEsmOptions := if esmExternals && isEsmRequested then [true, false] else [false];

    var baseCheck := match baseResolveCheck case None => true case Some(b) => b;

    var i := 0;
    while i < |preferEsmOptions|
      invariant 0 <= i <= |preferEsmOptions|
      invariant Attempt(q, preferEsmOptions[i..], res, isEsm) == ResolveExternalSpec(q)
    {
      var preferEsm := preferEsmOptions[i];
      assert preferEsmOptions[i..][1..] == preferEsmOptions[i + 1..];
      i := i + 1;
      var mode := if preferEsm then Esm else Node;

      match resolve(mode, context, request) {
        case Resolved(resolvedPath, resolvedIsEsm) =>
          res := resolvedPath;
          isEsm := resolvedIsEsm;
        case Failed =>
          res := None;
      }

      if res.None? {
        continue;
      }

      // ESM externals can only be imported, not required, except in loose mode.
      if !isEsmRequested && isEsm && !looseEsmExternals {
        continue;
      }

      if isLocalCallback.Some? {
        return ResolveResult(None, false, isLocalCallback.value(res.value));
      }

      // Re-resolve from the project directory: the externalized request
      // must find the same package at runtime.
      if baseCheck {
        var baseMode := if isEsm then BaseEsm else Base;
        var baseRes, baseIsEsm;
        match resolve(baseMode, dir, request) {
          case Resolved(p, e) =>
            baseRes, baseIsEsm := p, e;
          case Failed =>
            baseRes, baseIsEsm := None, false;
        }
        if baseRes != res || isEsm != baseIsEsm {
          res := None;
          continue;
        }
      }

      break;
    }

    r := ResolveResult(res, isEsm, None);
  }

  /** A resolution from the importing module's directory that passes the
      format check. */
  predicate Candidate(q: ResolveQuery, preferEsm: bool) {
    match q.resolve(ModeFor(preferEsm), q.context, q.request)
    case Resolved(p, e) => p.Some? && !Rejected(q, e)
    case Failed => false
  }

  /** A candidate that ends the loop: it goes to the local callback, or the
      base check is off, or the project directory resolves it alike. */
  predicate Final(q: ResolveQuery, preferEsm: bool) {
    Candidate(q, preferEsm) &&
      var o := q.resolve(ModeFor(preferEsm), q.context, q.request);
      (q.isLocalCallback.Some? || !BaseCheckEnabled(q) || BaseAgrees(q, o.path, o.isEsm))
  }

  /** The result a final candidate produces. */
  function ResultOf(q: ResolveQuery, preferEsm: bool): ResolveResult
    requires Candidate(q, preferEsm)
  {
    var o := q.resolve(ModeFor(preferEsm), q.context, q.request);
    if q.isLocalCallback.Some? then ResolveResult(None, false, q.isLocalCallback.value(o.path.value))
    else ResolveResult(o.path, o.isEsm, None)
  }

  /** Some mode of `order` resolved `res` with format `isEsm`. */
  predicate FromOrder(q: ResolveQuery, order: seq<bool>, res: Option<string>, isEsm: bool) {
    exists m :: m in order && q.resolve(ModeFor(m), q.context, q.request) == Resolved(res, isEsm)
  }

  lemma {:induction false} AttemptPathFromOrder(q: ResolveQuery, order0: seq<bool>, order: seq<bool>, res: Option<string>, isEsm: bool)
    requires forall m :: m in order ==> m in order0
    requires res.Some? ==> Rejected(q, isEsm) && FromOrder(q, order0, res, isEsm)
    ensures var r := Attempt(q, order, res, isEsm);
      r.res.Some? ==> r.localRes.None? && FromOrder(q, order0, r.res, r.isEsm)
    decreases |order|
  {
    if order != [] {
      var (res1, isEsm1) := Step(q, order[0], isEsm);
      assert forall m :: m in order[1..] ==> m in order;
      if res1.Some? {
        assert q.resolve(ModeFor(order[0]), q.context, q.request) == Resolved(res1, isEsm1);
      }
      if res1.None? || Rejected(q, isEsm1) {
        AttemptPathFromOrder(q, order0, order[1..], res1, isEsm1);
      } else if q.isLocalCallback.None? && BaseCheckEnabled(q) && !BaseAgrees(q, res1, isEsm1) {
        AttemptPathFromOrder(q, order0, order[1..], None, isEsm1);
      }
    }
  }

  lemma {:induction false} AttemptVetted(q: ResolveQuery, order: seq<bool>, res: Option<string>, isEsm: bool)
    requires res.Some? ==> Rejected(q, isEsm)
    ensures var r := Attempt(q, order, res, isEsm);
      r.res.Some? && !Rejected(q, r.isEsm) ==>
        q.isLocalCallback.None? && (BaseCheckEnabled(q) ==> BaseAgrees(q, r.res, r.isEsm))
    decreases |order|
  {
    if order != [] {
      var (res1, isEsm1) := Step(q, order[0], isEsm);
      if res1.None? || Rejected(q, isEsm1) {
        AttemptVetted(q, order[1..], res1, isEsm1);
      } else if q.isLocalCallback.None? && BaseCheckEnabled(q) && !BaseAgrees(q, res1, isEsm1) {
        AttemptVetted(q, order[1..], None, isEsm1);
      }
    }
  }

  lemma {:induction false} AttemptWithoutFinal(q: ResolveQuery, order: seq<bool>, res: Option<string>, isEsm: bool)
    requires res.Some? ==> Rejected(q, isEsm)
    requires forall m :: m in order ==> !Final(q, m)
    ensures var r := Attempt(q, order, res, isEsm);
      r.localRes.None? && (r.res.Some? ==> Rejected(q, r.isEsm))
    decreases |order|
  {
    if order != [] {
      var (res1, isEsm1) := Step(q, order[0], isEsm);
      assert forall m :: m in order[1..] ==> m in order;
      if res1.None? || Rejected(q, isEsm1) {
        AttemptWithoutFinal(q, order[1..], res1, isEsm1);
      } else if q.isLocalCallback.None? && BaseCheckEnabled(q) && !BaseAgrees(q, res1, isEsm1) {
        AttemptWithoutFinal(q, order[1..], None, isEsm1);
      } else {
        assert Final(q, order[0]);
      }
    }
  }

  /** What a returned path is. It was resolved from the importing module's
      directory by one of the tried modes. Either it passed the format check,
      came without a local callback and, with the base check on, resolves to
      the same path and format from the project directory; or it is the last
      mode's result that the format check refused (an ESM file for a
      `require`), which the loop leaves in place when it runs out of modes. */
  lemma ResolvedPathSound(q: ResolveQuery)
    ensures var r := ResolveExternalSpec(q);
      && (r.res.Some? ==> r.localRes.None?)
      && (r.res.Some? ==> exists m :: m in PreferEsmOptions(q.esmExternalsConfig, q.isEsmRequested) &&
                                      q.resolve(ModeFor(m), q.context, q.request) == Resolved(r.res, r.isEsm))
      && (r.res.Some? && Rejected(q, r.isEsm) ==>
            q.resolve(Node, q.context, q.request) == Resolved(r.res, r.isEsm))
      && (r.res.Some? && !Rejected(q, r.isEsm) ==>
            q.isLocalCallback.None? && (BaseCheckEnabled(q) ==> BaseAgrees(q, r.res, r.isEsm)))
  {
    var order := PreferEsmOptions(q.esmExternalsConfig, q.isEsmRequested);
    AttemptPathFromOrder(q, order, order, None, false);
    AttemptVetted(q, order, None, false);
  }

  /** Hoisting guard: when no tried mode yields a candidate that ends the
      loop (for instance, every candidate resolves differently from the
      project directory), no vetted path is returned: only nothing, or a
      path the format check refused. */
  lemma NoFinalCandidateNoVettedPath(q: ResolveQuery)
    requires forall m :: m in PreferEsmOptions(q.esmExternalsConfig, q.isEsmRequested) ==> !Final(q, m)
    ensures var r := ResolveExternalSpec(q);
      r.localRes.None? && (r.res.Some? ==> Rejected(q, r.isEsm))
  {
    var order := PreferEsmOptions(q.esmExternalsConfig, q.isEsmRequested);
    AttemptWithoutFinal(q, order, None, false);
  }

  lemma {:induction false} AttemptFirstFinal(q: ResolveQuery, order: seq<bool>, k: nat, res: Option<string>, isEsm: bool)
    requires k < |order| && Final(q, order[k])
    requires forall j :: 0 <= j < k ==> !Final(q, order[j])
    ensures Attempt(q, order, res, isEsm) == ResultOf(q, order[k])
    decreases k
  {
    var (res1, isEsm1) := Step(q, order[0], isEsm);
    if k > 0 {
      assert !Final(q, order[0]);
      forall j | 0 <= j < k - 1 ensures !Final(q, order[1..][j]) {
        assert order[1..][j] == order[j + 1];
      }
      if res1.None? || Rejected(q, isEsm1) {
        AttemptFirstFinal(q, order[1..], k - 1, res1, isEsm1);
      } else {
        AttemptFirstFinal(q, order[1..], k - 1, None, isEsm1);
      }
    }
  }

  /** The first mode, in the tried order, whose candidate ends the loop
      decides the result; with a local callback that result carries only the
      callback's answer on the path. */
  lemma FirstFinalCandidateWins(q: ResolveQuery, k: nat)
    requires var order := PreferEsmOptions(q.esmExternalsConfig, q.isEsmRequested);
      k < |order| && Final(q, order[k]) && forall j :: 0 <= j < k ==> !Final(q, order[j])
    ensures var order := PreferEsmOptions(q.esmExternalsConfig, q.isEsmRequested);
      var r := ResolveExternalSpec(q);
      var o := q.resolve(ModeFor(order[k]), q.context, q.request);
      && (q.isLocalCallback.None? ==> r.res == o.path && r.res.Some? && r.isEsm == o.isEsm && r.localRes.None?)
      && (q.isLocalCallback.Some? ==> r == ResolveResult(None, false, q.isLocalCallback.value(o.path.value)))
  {
    var order := PreferEsmOptions(q.esmExternalsConfig, q.isEsmRequested);
    AttemptFirstFinal(q, order, k, None, false);
  }

  lemma {:induction false} AttemptLocalFromCallback(q: ResolveQuery, order: seq<bool>, res: Option<string>, isEsm: bool)
    ensures var r := Attempt(q, order, res, isEsm);
      r.localRes.Some? ==> q.isLocalCallback.Some? && r.res.None? && exists p :: r.localRes == q.isLocalCallback.value(p)
    decreases |order|
  {
    if order != [] {
      var (res1, isEsm1) := Step(q, order[0], isEsm);
      if res1.None? || Rejected(q, isEsm1) {
        AttemptLocalFromCallback(q, order[1..], res1, isEsm1);
      } else if q.isLocalCallback.Some? {
        assert Attempt(q, order, res, isEsm).localRes == q.isLocalCallback.value(res1.value);
      } else if BaseCheckEnabled(q) && !BaseAgrees(q, res1, isEsm1) {
        AttemptLocalFromCallback(q, order[1..], None, isEsm1);
      }
    }
  }

  /** A local answer comes only from the local callback, applied to some
      resolved path, and then no path is returned beside it. Without a
      callback there is never a local answer. */
  lemma LocalAnswerFromCallback(q: ResolveQuery)
    ensures var r := ResolveExternalSpec(q);
      r.localRes.Some? ==> q.isLocalCallback.Some? && r.res.None? && exists p :: r.localRes == q.isLocalCallback.value(p)
  {
    AttemptLocalFromCallback(q, PreferEsmOptions(q.esmExternalsConfig, q.isEsmRequested), None, false);
  }
}
