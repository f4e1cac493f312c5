/** Value types shared by the externals engine: the configuration records of
    crates/binding/src/config_shared.rs and the Option/Result wrappers that
    stand for Rust's `Option` and `rspack_error::Result`. */
module Types {

  datatype Option<+T> = None | Some(value: T)

  datatype Result<+T, +E> = Ok(value: T) | Err(error: E)

  /** `EsmExternalsConfig`: whether ESM packages may be externalized, and how
      strictly their module format is checked. */
  datatype EsmExternalsConfig = NoEsm | Loose | Strict
  {
    /** `is_enabled`: every mode except `None`. */
    predicate IsEnabled() { !NoEsm? }

    /** `is_loose`: only `Loose`. */
    predicate IsLoose() { Loose? }
  }

  datatype ExperimentalConfig = ExperimentalConfig(esmExternals: EsmExternalsConfig)

  datatype NextConfigComplete = NextConfigComplete(
    serverExternalPackages: Option<seq<string>>,
    transpilePackages: Option<seq<string>>,
    experimental: Option<ExperimentalConfig>)

  /** The ESM-externals mode a configuration stands for; a configuration
      without an `experimental` record means `None`. */
  function EffectiveEsmExternals(config: NextConfigComplete): (c: EsmExternalsConfig)
    ensures config.experimental.None? ==> c == NoEsm
    ensures config.experimental.Some? ==> c == config.experimental.value.esmExternals
  {
    match config.experimental
    case None => NoEsm
    case Some(exp) => exp.esmExternals
  }

  /** The loose flag `ExternalHandler::new` derives (handle_externals.rs:158-161)
      is the `is_loose` of the effective mode that `resolve_external` is given. */
  function LooseEsmExternals(config: NextConfigComplete): (loose: bool)
    ensures loose <==> EffectiveEsmExternals(config).IsLoose()
    ensures loose ==> EffectiveEsmExternals(config).IsEnabled()
  {
    match config.experimental
    case None => false
    case Some(exp) => exp.esmExternals == Loose
  }
}
