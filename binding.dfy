/** The option conversions of crates/binding/src/lib.rs: what the
    JavaScript side passes in (`Napi…` records) becomes the configuration
    the externals handler reads. */
module Binding {
  import opened Types

  /** napi's `Either<String, bool>`. */
  datatype StringOrBool = Text(s: string) | Flag(b: bool)

  /** `NapiExperimentalConfig` (lines 20-23). */
  datatype NapiExperimentalConfig = NapiExperimentalConfig(esmExternals: Option<StringOrBool>)

  /** `NapiNextConfigComplete` (lines 51-55). */
  datatype NapiNextConfigComplete = NapiNextConfigComplete(
    experimental: NapiExperimentalConfig,
    bundlePagesRouterDependencies: Option<bool>)

  /** A user-supplied regular expression, carried along by its source text. */
  datatype Regex = Regex(source: string)

  /** `NapiNextExternalsPluginOptions` (lines 70-78). */
  datatype NapiNextExternalsPluginOptions = NapiNextExternalsPluginOptions(
    compilerType: string,
    config: NapiNextConfigComplete,
    builtinModules: seq<string>,
    optOutBundlingPackageRegex: Regex,
    finalTranspilePackages: seq<string>,
    dir: string)

  /** `NextExternalsPluginOptions`, the same record with the configuration
      converted. */
  datatype NextExternalsPluginOptions = NextExternalsPluginOptions(
    compilerType: string,
    config: NextConfigComplete,
    builtinModules: seq<string>,
    optOutBundlingPackageRegex: Regex,
    finalTranspilePackages: seq<string>,
    dir: string)

  /** `From<NapiExperimentalConfig> for ExperimentalConfig` (lines 25-49). */
  function ConvertExperimental(value: NapiExperimentalConfig): (c: ExperimentalConfig)
    ensures c.esmExternals == Loose <==> value.esmExternals == Some(Text("loose"))
    ensures c.esmExternals == NoEsm <==> value.esmExternals in {None, Some(Flag(false))}
    ensures c.esmExternals == Strict <==>
              value.esmExternals == Some(Flag(true)) ||
              (value.esmExternals.Some? && value.esmExternals.value.Text? && value.esmExternals.value.s != "loose")
  {
    ExperimentalConfig(
      match value.esmExternals
      case Some(Text(s)) => if s == "loose" then Loose else Strict
      case Some(Flag(b)) => if b then Strict else NoEsm
      case None => NoEsm)
  }

  /** One JavaScript value for each setting: the option as a user would
      write it. */
  function NapiFor(c: EsmExternalsConfig): NapiExperimentalConfig {
    match c
    case NoEsm => NapiExperimentalConfig(None)
    case Loose => NapiExperimentalConfig(Some(Text("loose")))
    case Strict => NapiExperimentalConfig(Some(Flag(true)))
  }

  /** Every setting can be reached from JavaScript: converting the value
      `NapiFor` picks gives the setting back. */
  lemma ConvertExperimentalRoundTrip(c: EsmExternalsConfig)
    ensures ConvertExperimental(NapiFor(c)).esmExternals == c
  {
  }

  /** A boolean never asks for loose mode, and `"strict"` and `""` are
      read as strict like every string but `"loose"`. */
  lemma ConvertExperimentalExamples(b: bool)
    ensures ConvertExperimental(NapiExperimentalConfig(Some(Flag(b)))).esmExternals != Loose
    ensures ConvertExperimental(NapiExperimentalConfig(Some(Text("strict")))).esmExternals == Strict
    ensures ConvertExperimental(NapiExperimentalConfig(Some(Text("")))).esmExternals == Strict
  {
  }

  /** What the handler makes of a converted option: ESM externals are on
      unless the option is absent or `false`, and loose only for `"loose"`
      (the mode `resolve_external` is given and the flag
      `ExternalHandler::new` derives). */
  lemma ConvertedEsmMode(value: NapiExperimentalConfig, config: NextConfigComplete)
    requires config.experimental == Some(ConvertExperimental(value))
    ensures EffectiveEsmExternals(config).IsEnabled() <==> value.esmExternals !in {None, Some(Flag(false))}
    ensures LooseEsmExternals(config) <==> value.esmExternals == Some(Text("loose"))
  {
  }

  /** `From<NapiNextExternalsPluginOptions> for NextExternalsPluginOptions`
      (lines 80-98). The conversion of the configuration record itself
      (lines 57-67) is passed in as `convertConfig`. */
  function ConvertOptions(value: NapiNextExternalsPluginOptions,
                          convertConfig: NapiNextConfigComplete -> NextConfigComplete)
    : (o: NextExternalsPluginOptions)
    ensures o.compilerType == value.compilerType && o.builtinModules == value.builtinModules
    ensures o.optOutBundlingPackageRegex == value.optOutBundlingPackageRegex
    ensures o.finalTranspilePackages == value.finalTranspilePackages && o.dir == value.dir
    ensures o.config == convertConfig(value.config)
  {
    NextExternalsPluginOptions(value.compilerType, convertConfig(value.config), value.builtinModules,
                               value.optOutBundlingPackageRegex, value.finalTranspilePackages, value.dir)
  }

  /** The napi record a converted record came from, but for the
      configuration. */
  function WithNapiConfig(o: NextExternalsPluginOptions, config: NapiNextConfigComplete): NapiNextExternalsPluginOptions {
    NapiNextExternalsPluginOptions(o.compilerType, config, o.builtinModules, o.optOutBundlingPackageRegex,
                                   o.finalTranspilePackages, o.dir)
  }

  /** Only the configuration is converted: putting the original
      configuration back into a converted record gives the napi record
      again, and two records that agree but for their configuration convert
      to records that agree but for theirs. */
  lemma ConvertOptionsOnlyConvertsConfig(value: NapiNextExternalsPluginOptions, other: NapiNextExternalsPluginOptions,
                                         convertConfig: NapiNextConfigComplete -> NextConfigComplete)
    ensures WithNapiConfig(ConvertOptions(value, convertConfig), value.config) == value
    ensures WithNapiConfig(ConvertOptions(value, convertConfig), other.config) == other <==>
            value == other.(config := value.config)
  {
  }
}
