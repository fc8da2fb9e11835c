/**
 * The send pipeline of src/httpYacApi.ts: `send` picks one of three modes
 * from the shape of the send context (one region, a list of regions, the
 * whole file), assembles the context (configuration, log settings,
 * variables, client) and processes regions, each mode with its own failure
 * policy; `getEnvironments` lists the environments of a file's providers.
 */
module HttpYacApi {
  import opened Wrappers
  import opened Json
  import opened JsArrays
  import opened FsUtils
  import opened Models
  import opened JsonEnvProviders

  /**
   * What the pipeline calls but does not own: the file provider, the
   * registered default variable providers (each answering for the active
   * environment, the file and the configuration), `initHttpClient`, and the
   * outcomes of `executeGlobalScripts` and `processHttpRegionActions`.
   */
  datatype Host = Host(
    fs: FileProvider,
    defaultVariableProviders: seq<(Option<seq<string>>, HttpFile, EnvironmentConfig) -> Variables>,
    initHttpClient: (HttpFile, EnvironmentConfig) -> HttpClient,
    executeGlobalScripts: ProcessorContext -> bool,
    processHttpRegionActions: (ProcessorContext, Option<bool>) -> bool)

  /** A call the pipeline makes into the host, with the context it passes. */
  datatype Call =
    | GlobalScripts(context: ProcessorContext)
    | ProcessActions(context: ProcessorContext, strict: Option<bool>)

  /** The level the configuration's default gives; `LogLevel.warn` of the source. */
  const LogLevelWarn: Json := JString("warn")

  /** The built-in defaults every configuration starts from. */
  const DefaultConfig: EnvironmentConfig := map[
    "log" := JObject(map["level" := LogLevelWarn, "supportAnsiColors" := JBool(true)]),
    "cookieJarEnabled" := JBool(true),
    "envDirName" := JString("env")]

  /** `config.key` on a configuration object. */
  function Get(config: EnvironmentConfig, key: string): Option<Json>
  {
    if key in config then Some(config[key]) else None
  }

  /**
   * The configuration `getEnviromentConfig` assembles: the defaults, then the
   * project file's configuration when the file has a truthy root directory
   * and that configuration is truthy, then the caller's configuration, each
   * overriding the top-level keys of the ones before.
   */
  function MergedConfig(fs: FileProvider, httpFile: HttpFile, callerConfig: Option<EnvironmentConfig>): EnvironmentConfig
  {
    ObjectAssign(DefaultConfig, ConfigSources(fs, httpFile, callerConfig))
  }

  /** The configuration `getHttpacJsonConfig` finds for the file, when its root directory is truthy. */
  function FileConfig(fs: FileProvider, httpFile: HttpFile): Option<Json>
  {
    if IsTruthyPath(httpFile.rootDir) then HttpyacJsonConfig(fs, httpFile.rootDir.value) else None
  }

  /** The `environmentConfigs` array: the project file's configuration, then the caller's. */
  function ConfigSources(fs: FileProvider, httpFile: HttpFile, callerConfig: Option<EnvironmentConfig>): seq<EnvironmentConfig>
  {
    var fileConfig := FileConfig(fs, httpFile);
    (if IsTruthy(fileConfig) then [OwnProperties(fileConfig.value)] else [])
    + (if callerConfig.Some? then [callerConfig.value] else [])
  }

  /**
   * Precedence of the merge, key by key: the caller's configuration wins,
   * then the project file's, then the defaults; a key none of them has is
   * absent. The merge is shallow: an object value such as `log` is taken
   * whole from the source that wins.
   */
  lemma ConfigPrecedence(fs: FileProvider, httpFile: HttpFile, callerConfig: Option<EnvironmentConfig>, key: string)
    ensures var config := MergedConfig(fs, httpFile, callerConfig);
            var fileConfig := FileConfig(fs, httpFile);
            var fromFile := if IsTruthy(fileConfig) then OwnProperties(fileConfig.value) else map[];
            && (callerConfig.Some? && key in callerConfig.value ==> Get(config, key) == Some(callerConfig.value[key]))
            && (!(callerConfig.Some? && key in callerConfig.value) && key in fromFile ==> Get(config, key) == Some(fromFile[key]))
            && (!(callerConfig.Some? && key in callerConfig.value) && key !in fromFile ==> Get(config, key) == Get(DefaultConfig, key))
  {
    var fileConfig := FileConfig(fs, httpFile);
    var fileSources := if IsTruthy(fileConfig) then [OwnProperties(fileConfig.value)] else [];
    assert ConfigSources(fs, httpFile, callerConfig) == fileSources + (if callerConfig.Some? then [callerConfig.value] else []);
    MergePrecedence(DefaultConfig, fileSources, callerConfig, key);
  }

  /** The precedence of a merge of at most one file source and an optional caller source over a target. */
  lemma MergePrecedence(target: EnvironmentConfig, fileSources: seq<EnvironmentConfig>, callerConfig: Option<EnvironmentConfig>, key: string)
    requires |fileSources| <= 1
    ensures var config := ObjectAssign(target, fileSources + (if callerConfig.Some? then [callerConfig.value] else []));
            var fromFile := if |fileSources| == 1 then fileSources[0] else map[];
            && (callerConfig.Some? && key in callerConfig.value ==> Get(config, key) == Some(callerConfig.value[key]))
            && (!(callerConfig.Some? && key in callerConfig.value) && key in fromFile ==> Get(config, key) == Some(fromFile[key]))
            && (!(callerConfig.Some? && key in callerConfig.value) && key !in fromFile ==> Get(config, key) == Get(target, key))
  {
    var sources := fileSources + (if callerConfig.Some? then [callerConfig.value] else []);
    var fromFile := if |fileSources| == 1 then fileSources[0] else map[];
    if callerConfig.Some? && key in callerConfig.value {
      AssignLastWins(target, sources, key, |sources| - 1);
    } else if key in fromFile {
      assert sources[0] == fromFile;
      AssignLastWins(target, sources, key, 0);
    } else {
      assert forall i | 0 <= i < |sources| :: key !in sources[i];
      AssignDomain(target, sources, key);
      if key in target {
        AssignKeepsUntouched(target, sources, key);
      }
    }
  }

  /** Without a project file or a caller configuration the defaults are the configuration. */
  lemma DefaultsAlone(fs: FileProvider, httpFile: HttpFile)
    requires !IsTruthy(FileConfig(fs, httpFile))
    ensures MergedConfig(fs, httpFile, None) == DefaultConfig
  {
  }

  const DotenvWarning: string := "setting dotenv is deprecated. Please use envDirName instead, if needed"
  const IntellijWarning: string := "setting intellij is deprecated. Please use envDirName instead, if needed"
  const HttpRegionScriptWarning: string := "setting httpRegionScript is deprecated. Please use hooks.beforeRequest instead."

  /**
   * `showDeprectationWarning`: one warning for each of `dotenv`, `intellij`
   * and `httpRegionScript` whose value is truthy, in that order; the
   * configuration itself is only read.
   */
  function DeprecationWarnings(config: EnvironmentConfig): (warnings: seq<string>)
    ensures |warnings| <= 3
    ensures DotenvWarning in warnings <==> IsTruthy(Get(config, "dotenv"))
    ensures IntellijWarning in warnings <==> IsTruthy(Get(config, "intellij"))
    ensures HttpRegionScriptWarning in warnings <==> IsTruthy(Get(config, "httpRegionScript"))
    ensures forall w | w in warnings :: w in {DotenvWarning, IntellijWarning, HttpRegionScriptWarning}
    ensures Distinct(warnings)
  {
    assert DotenvWarning != IntellijWarning && DotenvWarning != HttpRegionScriptWarning
        && IntellijWarning != HttpRegionScriptWarning by {
      assert |DotenvWarning| == 70 && |IntellijWarning| == 72 && |HttpRegionScriptWarning| == 79;
    }
    (if IsTruthy(Get(config, "dotenv")) then [DotenvWarning] else [])
    + (if IsTruthy(Get(config, "intellij")) then [IntellijWarning] else [])
    + (if IsTruthy(Get(config, "httpRegionScript")) then [HttpRegionScriptWarning] else [])
  }

  /** `config.log?.level || LogLevel.warn`: the configured level when truthy, the warn level otherwise. */
  function LogLevelFor(config: EnvironmentConfig): (level: Json)
    ensures Truthy(level)
    ensures "log" in config && IsTruthy(Property(config["log"], "level")) ==> level == Property(config["log"], "level").value
    ensures !("log" in config && IsTruthy(Property(config["log"], "level"))) ==> level == LogLevelWarn
  {
    var configured := if "log" in config then Property(config["log"], "level") else None;
    if IsTruthy(configured) then configured.value else LogLevelWarn
  }

  /** `config.log?.supportAnsiColors === false`. */
  predicate AnsiColorsOff(config: EnvironmentConfig)
  {
    "log" in config && Property(config["log"], "supportAnsiColors") == Some(JBool(false))
  }

  /**
   * The merge is shallow: a caller `log` object without `supportAnsiColors`
   * leaves colours on, whatever the project file says.
   */
  lemma CallerLogReplacesFileLog(fs: FileProvider, httpFile: HttpFile, callerConfig: EnvironmentConfig)
    requires "log" in callerConfig && Property(callerConfig["log"], "supportAnsiColors").None?
    ensures !AnsiColorsOff(MergedConfig(fs, httpFile, Some(callerConfig)))
  {
    ConfigPrecedence(fs, httpFile, Some(callerConfig), "log");
  }

  /**
   * Process-wide logger state: `log.options.level`, `chalk.level` and the
   * warnings issued through `log.warn`.
   */
  class Logger {
    var level: Json
    var chalkLevel: int
    var warnings: seq<string>

    constructor(level: Json, chalkLevel: int)
      ensures this.level == level && this.chalkLevel == chalkLevel && warnings == []
    {
      this.level := level;
      this.chalkLevel := chalkLevel;
      warnings := [];
    }

    /**
     * The logger after context assembly with `config`: the deprecation
     * warnings issued, the level set, colours off when the configuration
     * says `supportAnsiColors: false` and otherwise as before.
     */
    twostate predicate ConfiguredBy(config: EnvironmentConfig)
      reads this
    {
      && warnings == old(warnings) + DeprecationWarnings(config)
      && level == LogLevelFor(config)
      && chalkLevel == if AnsiColorsOff(config) then 0 else old(chalkLevel)
    }
  }

  /**
   * `getEnviromentConfig`: collects the project file's configuration and the
   * caller's, merges them over the defaults and warns about deprecated keys.
   */
  method GetEnvironmentConfig(fs: FileProvider, httpFile: HttpFile, callerConfig: Option<EnvironmentConfig>, logger: Logger)
    returns (config: EnvironmentConfig)
    modifies logger
    ensures config == MergedConfig(fs, httpFile, callerConfig)
    ensures logger.warnings == old(logger.warnings) + DeprecationWarnings(config)
    ensures logger.level == old(logger.level) && logger.chalkLevel == old(logger.chalkLevel)
  {
    var environmentConfigs: seq<EnvironmentConfig> := [];
    if IsTruthyPath(httpFile.rootDir) {
      var fileConfig := GetHttpacJsonConfig(fs, httpFile.rootDir.value);
      if IsTruthy(fileConfig) {
        environmentConfigs := environmentConfigs + [OwnProperties(fileConfig.value)];
      }
    }
    assert environmentConfigs == if IsTruthy(FileConfig(fs, httpFile)) then [OwnProperties(FileConfig(fs, httpFile).value)] else [];
    if callerConfig.Some? {
      environmentConfigs := environmentConfigs + [callerConfig.value];
    }
    assert environmentConfigs == ConfigSources(fs, httpFile, callerConfig);
    config := ObjectAssign(DefaultConfig, environmentConfigs);
    logger.warnings := logger.warnings + DeprecationWarnings(config);
  }

  /** The variables of every default provider for the file's active environment. */
  function ProviderResults(host: Host, httpFile: HttpFile, config: EnvironmentConfig): (results: seq<Variables>)
    ensures |results| == |host.defaultVariableProviders|
    ensures forall i | 0 <= i < |results| ::
              results[i] == host.defaultVariableProviders[i](httpFile.activeEnvironment, httpFile, config)
  {
    seq(|host.defaultVariableProviders|, i requires 0 <= i < |host.defaultVariableProviders| =>
      host.defaultVariableProviders[i](httpFile.activeEnvironment, httpFile, config))
  }

  /**
   * `getVariables`: the default providers' variables folded into an empty
   * record in provider order. Every name comes from some provider, and its
   * value is the one the last provider defining it gives; no providers give
   * no variables.
   */
  function GetVariables(host: Host, httpFile: HttpFile, config: EnvironmentConfig): (variables: Variables)
    ensures var results := ProviderResults(host, httpFile, config);
            forall k :: k in variables <==> exists i | 0 <= i < |results| :: k in results[i]
    ensures var results := ProviderResults(host, httpFile, config);
            forall k, i | 0 <= i < |results| && LastWith(results, k, i) :: variables[k] == results[i][k]
    ensures |host.defaultVariableProviders| == 0 ==> variables == map[]
  {
    var results := ProviderResults(host, httpFile, config);
    forall k ensures k in ObjectAssign(map[], results) <==> exists i | 0 <= i < |results| :: k in results[i] {
      AssignDomain(map[], results, k);
    }
    forall k, i | 0 <= i < |results| && LastWith(results, k, i) ensures ObjectAssign(map[], results)[k] == results[i][k] {
      AssignLastWins(map[], results, k, i);
    }
    ObjectAssign(map[], results)
  }

  /** The processor context context assembly produces from the caller's send context. */
  function AssembledContext(host: Host, input: SendInput): (context: ProcessorContext)
    ensures context.config == MergedConfig(host.fs, input.httpFile, input.config)
    ensures context.variables == GetVariables(host, input.httpFile, context.config)
    ensures context.httpClient == host.initHttpClient(input.httpFile, context.config)
    ensures && context.httpFile == input.httpFile && context.httpRegion == input.httpRegion
            && context.httpRegions == input.httpRegions && context.httpRegionPredicate == input.httpRegionPredicate
  {
    var config := MergedConfig(host.fs, input.httpFile, input.config);
    ProcessorContext(input.httpFile, input.httpRegion, input.httpRegions, input.httpRegionPredicate,
                     config, GetVariables(host, input.httpFile, config), host.initHttpClient(input.httpFile, config))
  }

  /**
   * `createEmptyProcessorContext`: writes the merged configuration, the
   * variables and a new client into the caller's context, sets the log
   * level and colour support, and hands back that same context.
   */
  method CreateEmptyProcessorContext(host: Host, context: SendContext, logger: Logger)
    returns (processorContext: ProcessorContext)
    modifies context, logger
    ensures processorContext == AssembledContext(host, old(context.Input()))
    ensures context.Assembled() && context.AsProcessorContext() == processorContext
    ensures logger.ConfiguredBy(processorContext.config)
  {
    var config := GetEnvironmentConfig(host.fs, context.httpFile, context.config, logger);
    context.config := Some(config);
    logger.level := LogLevelFor(config);
    if AnsiColorsOff(config) {
      logger.chalkLevel := 0;
    }
    var variables := GetVariables(host, context.httpFile, config);
    var httpClient := host.initHttpClient(context.httpFile, config);
    context.variables := Some(variables);
    context.httpClient := Some(httpClient);
    processorContext := context.AsProcessorContext();
  }

  /** `{ ...processorContext, httpRegion }`. */
  function RegionContext(context: ProcessorContext, httpRegion: HttpRegion): (regionContext: ProcessorContext)
    ensures regionContext.httpRegion == Some(httpRegion)
    ensures regionContext.(httpRegion := context.httpRegion) == context
  {
    context.(httpRegion := Some(httpRegion))
  }

  /** Single-region mode: a disabled region fails at once; otherwise the global scripts gate one strict run. */
  function SingleRegionOutcome(host: Host, input: SendInput): (outcome: (bool, seq<Call>))
    requires input.httpRegion.Some?
  {
    if input.httpRegion.value.disabled then (false, [])
    else
      var context := AssembledContext(host, input);
      if host.executeGlobalScripts(context) then
        (host.processHttpRegionActions(context, Some(true)), [GlobalScripts(context), ProcessActions(context, Some(true))])
      else (false, [GlobalScripts(context)])
  }

  /**
   * The loop of region-list mode after the global scripts: skips disabled
   * regions and stops at the first enabled region whose processing fails.
   */
  function FailFast(host: Host, context: ProcessorContext, regions: seq<HttpRegion>): (bool, seq<Call>)
    decreases |regions|
  {
    if |regions| == 0 then (true, [])
    else if regions[0].disabled then FailFast(host, context, regions[1..])
    else
      var regionContext := RegionContext(context, regions[0]);
      if !host.processHttpRegionActions(regionContext, Some(false)) then (false, [ProcessActions(regionContext, Some(false))])
      else
        var rest := FailFast(host, context, regions[1..]);
        (rest.0, [ProcessActions(regionContext, Some(false))] + rest.1)
  }

  /**
   * The fail-fast loop succeeds exactly when every enabled region succeeds;
   * it processes only enabled regions of the list, strictly off, each with
   * the context narrowed to it; every call but the last succeeded, and on
   * failure the last one is the region that failed.
   */
  lemma {:induction false} FailFastMeaning(host: Host, context: ProcessorContext, regions: seq<HttpRegion>)
    ensures var (ok, calls) := FailFast(host, context, regions);
            ok <==> forall i | 0 <= i < |regions| && !regions[i].disabled ::
                      host.processHttpRegionActions(RegionContext(context, regions[i]), Some(false))
    ensures var (ok, calls) := FailFast(host, context, regions);
            forall c | c in calls ::
              && c.ProcessActions? && c.strict == Some(false) && c.context.httpRegion.Some?
              && c.context.httpRegion.value in regions && !c.context.httpRegion.value.disabled
              && c.context == RegionContext(context, c.context.httpRegion.value)
    ensures var (ok, calls) := FailFast(host, context, regions);
            forall j | 0 <= j < |calls| - 1 :: host.processHttpRegionActions(calls[j].context, Some(false))
    ensures var (ok, calls) := FailFast(host, context, regions);
            !ok ==> |calls| > 0 && !host.processHttpRegionActions(calls[|calls| - 1].context, Some(false))
    ensures var (ok, calls) := FailFast(host, context, regions);
            ok ==> forall c | c in calls :: host.processHttpRegionActions(c.context, Some(false))
    decreases |regions|
  {
    if |regions| > 0 {
      FailFastMeaning(host, context, regions[1..]);
      assert forall i | 0 < i < |regions| :: regions[i] == regions[1..][i - 1];
      assert forall r | r in regions[1..] :: r in regions;
    }
  }

  /** `idx` lists positions below `bound` in strictly increasing order, so each at most once. */
  predicate StrictlyIncreasing(idx: seq<int>, bound: int)
  {
    && (forall k | 0 <= k < |idx| :: 0 <= idx[k] < bound)
    && (forall k, l | 0 <= k < l < |idx| :: idx[k] < idx[l])
  }

  /** Every position of `idx` one further on. */
  function Shifted(idx: seq<int>): (r: seq<int>)
    ensures |r| == |idx| && forall k | 0 <= k < |idx| :: r[k] == idx[k] + 1
  {
    seq(|idx|, k requires 0 <= k < |idx| => idx[k] + 1)
  }

  /** Shifting increasing positions one further on keeps them increasing, with or without a new first position 0. */
  lemma ShiftedIndices(rest: seq<int>, n: int)
    requires n >= 0 && StrictlyIncreasing(rest, n)
    ensures StrictlyIncreasing(Shifted(rest), n + 1) && StrictlyIncreasing([0] + Shifted(rest), n + 1)
  {
    var shifted := Shifted(rest);
    var idx := [0] + shifted;
    forall k, l | 0 <= k < l < |idx| ensures idx[k] < idx[l] {
      if k > 0 {
        assert idx[k] == shifted[k - 1] && idx[l] == shifted[l - 1];
      }
    }
  }

  /** A position is among the shifted ones iff the one before it is among the originals. */
  lemma ShiftedMembers(rest: seq<int>)
    ensures forall i :: i in Shifted(rest) <==> i - 1 in rest
    ensures forall i :: i in [0] + Shifted(rest) <==> i == 0 || i - 1 in rest
  {
    var shifted := Shifted(rest);
    forall i ensures i in shifted <==> i - 1 in rest {
      if i - 1 in rest {
        var k :| 0 <= k < |rest| && rest[k] == i - 1;
        assert shifted[k] == i;
      }
    }
  }

  /** The last shifted position is one past the last position. */
  lemma LastShifted(rest: seq<int>, first: bool)
    requires |rest| > 0
    ensures var idx := if first then [0] + Shifted(rest) else Shifted(rest);
            |idx| > 0 && idx[|idx| - 1] == rest[|rest| - 1] + 1
  {
    var shifted := Shifted(rest);
    if first {
      assert ([0] + shifted)[|shifted|] == shifted[|shifted| - 1];
    }
  }

  /** The `k`-th call processes the region at position `idx[k]`, with the given strict flag. */
  ghost predicate CallsAt(context: ProcessorContext, regions: seq<HttpRegion>, calls: seq<Call>, idx: seq<int>, strict: Option<bool>)
  {
    && |calls| == |idx|
    && forall k | 0 <= k < |idx| ::
         0 <= idx[k] < |regions| && calls[k] == ProcessActions(RegionContext(context, regions[idx[k]]), strict)
  }

  /** The calls for the tail of a list are the calls at the shifted positions of the whole list. */
  lemma CallsAtShifted(context: ProcessorContext, regions: seq<HttpRegion>, calls: seq<Call>, rest: seq<int>, strict: Option<bool>)
    requires |regions| > 0 && CallsAt(context, regions[1..], calls, rest, strict)
    ensures CallsAt(context, regions, calls, Shifted(rest), strict)
    ensures CallsAt(context, regions, [ProcessActions(RegionContext(context, regions[0]), strict)] + calls, [0] + Shifted(rest), strict)
  {
    var shifted := Shifted(rest);
    forall k | 0 <= k < |rest| ensures regions[shifted[k]] == regions[1..][rest[k]] {
    }
    var call := ProcessActions(RegionContext(context, regions[0]), strict);
    forall k | 0 < k < |rest| + 1 ensures ([call] + calls)[k] == calls[k - 1] && ([0] + shifted)[k] == shifted[k - 1] {
    }
  }

  /**
   * The fail-fast trace by position: the `k`-th call processes, strictly off,
   * the region at `idx[k]`, with `idx` increasing; the positions visited are
   * exactly the enabled ones, all of them on success and on failure those up
   * to the last call's.
   */
  ghost predicate FailFastVisits(context: ProcessorContext, regions: seq<HttpRegion>, ok: bool, calls: seq<Call>, idx: seq<int>)
  {
    && StrictlyIncreasing(idx, |regions|)
    && CallsAt(context, regions, calls, idx, Some(false))
    && FailFastPositions(regions, ok, idx)
  }

  /**
   * The positions of the fail-fast trace are the enabled ones: all of them on
   * success, and on failure (when at least one call was made) those up to the
   * last call's.
   */
  predicate FailFastPositions(regions: seq<HttpRegion>, ok: bool, idx: seq<int>)
  {
    && (!ok ==> |idx| > 0)
    && var bound := if ok || |idx| == 0 then |regions| else idx[|idx| - 1] + 1;
       forall i | 0 <= i < |regions| :: i in idx <==> !regions[i].disabled && i < bound
  }

  /**
   * Region-list mode processes the enabled regions in list order, each once:
   * all of them when none fails, and otherwise exactly those up to and
   * including the first enabled region whose processing fails.
   */
  lemma {:induction false} FailFastInOrder(host: Host, context: ProcessorContext, regions: seq<HttpRegion>)
    ensures exists idx :: FailFastVisits(context, regions, FailFast(host, context, regions).0, FailFast(host, context, regions).1, idx)
    decreases |regions|
  {
    var outcome := FailFast(host, context, regions);
    if |regions| == 0 {
      assert FailFastVisits(context, regions, outcome.0, outcome.1, []);
    } else if !regions[0].disabled && !host.processHttpRegionActions(RegionContext(context, regions[0]), Some(false)) {
      assert outcome == (false, [ProcessActions(RegionContext(context, regions[0]), Some(false))]);
      FirstRegionFails(context, regions);
      assert FailFastVisits(context, regions, outcome.0, outcome.1, [0]);
    } else {
      FailFastInOrder(host, context, regions[1..]);
      var rest :| FailFastVisits(context, regions[1..], FailFast(host, context, regions[1..]).0, FailFast(host, context, regions[1..]).1, rest);
      var idx := FailFastPassedFirst(host, context, regions, rest);
    }
  }

  /** When the first region is skipped or succeeds, the visits of the rest carry over, shifted by one. */
  lemma FailFastPassedFirst(host: Host, context: ProcessorContext, regions: seq<HttpRegion>, rest: seq<int>) returns (idx: seq<int>)
    requires |regions| > 0
    requires regions[0].disabled || host.processHttpRegionActions(RegionContext(context, regions[0]), Some(false))
    requires FailFastVisits(context, regions[1..], FailFast(host, context, regions[1..]).0, FailFast(host, context, regions[1..]).1, rest)
    ensures FailFastVisits(context, regions, FailFast(host, context, regions).0, FailFast(host, context, regions).1, idx)
  {
    var restOutcome := FailFast(host, context, regions[1..]);
    var calls := (if !regions[0].disabled then [ProcessActions(RegionContext(context, regions[0]), Some(false))] else []) + restOutcome.1;
    assert FailFast(host, context, regions) == (restOutcome.0, calls) by {
      assert [] + restOutcome.1 == restOutcome.1;
    }
    idx := FailFastStepVisits(context, regions, restOutcome.0, restOutcome.1, rest);
  }

  /** When the first region is enabled and fails, its call is the whole trace. */
  lemma FirstRegionFails(context: ProcessorContext, regions: seq<HttpRegion>)
    requires |regions| > 0 && !regions[0].disabled
    ensures FailFastVisits(context, regions, false, [ProcessActions(RegionContext(context, regions[0]), Some(false))], [0])
  {
    forall i | 0 <= i < |regions| ensures i in [0] <==> !regions[i].disabled && i < 1 {
    }
  }

  /**
   * The step of `FailFastInOrder` past a first region that is disabled or
   * passes: the tail's positions one further on, behind position 0 when the
   * first region ran.
   */
  lemma FailFastStepVisits(context: ProcessorContext, regions: seq<HttpRegion>, ok: bool, restCalls: seq<Call>,
                           rest: seq<int>)
    returns (idx: seq<int>)
    requires |regions| > 0
    requires FailFastVisits(context, regions[1..], ok, restCalls, rest)
    ensures FailFastVisits(context, regions, ok,
                           (if !regions[0].disabled then [ProcessActions(RegionContext(context, regions[0]), Some(false))] else []) + restCalls,
                           idx)
  {
    var tail := regions[1..];
    var first := !regions[0].disabled;
    var calls := (if first then [ProcessActions(RegionContext(context, regions[0]), Some(false))] else []) + restCalls;
    idx := if first then [0] + Shifted(rest) else Shifted(rest);
    assert StrictlyIncreasing(idx, |regions|) by {
      ShiftedIndices(rest, |tail|);
    }
    assert CallsAt(context, regions, calls, idx, Some(false)) by {
      assert [] + restCalls == restCalls;
      CallsAtShifted(context, regions, restCalls, rest, Some(false));
    }
    assert FailFastPositions(regions, ok, idx) by {
      FailFastPositionsShifted(regions, ok, rest, first);
    }
  }

  /**
   * The positions the fail-fast loop visits, shifted past a first region that
   * is skipped (disabled) or visited (enabled and passing).
   */
  lemma FailFastPositionsShifted(regions: seq<HttpRegion>, ok: bool, rest: seq<int>, first: bool)
    requires |regions| > 0 && first == !regions[0].disabled
    requires StrictlyIncreasing(rest, |regions[1..]|) && FailFastPositions(regions[1..], ok, rest)
    ensures FailFastPositions(regions, ok, if first then [0] + Shifted(rest) else Shifted(rest))
  {
    var tail := regions[1..];
    var idx := if first then [0] + Shifted(rest) else Shifted(rest);
    var tailBound := if ok || |rest| == 0 then |tail| else rest[|rest| - 1] + 1;
    var bound := if ok || |idx| == 0 then |regions| else idx[|idx| - 1] + 1;
    assert bound == tailBound + 1 by {
      if !ok {
        LastShifted(rest, first);
      }
    }
    ShiftedMembers(rest);
    forall i | 0 <= i < |regions| ensures i in idx <==> !regions[i].disabled && i < bound {
      if i == 0 {
        assert -1 !in rest;
      } else {
        assert regions[i] == tail[i - 1];
        assert i - 1 in rest <==> !tail[i - 1].disabled && i - 1 < tailBound;
      }
    }
  }

  /** Region-list mode: global scripts once, then the fail-fast loop. */
  function RegionsOutcome(host: Host, input: SendInput): (outcome: (bool, seq<Call>))
    requires input.httpRegions.Some?
  {
    var context := AssembledContext(host, input);
    if host.executeGlobalScripts(context) then
      var run := FailFast(host, context, input.httpRegions.value);
      (run.0, [GlobalScripts(context)] + run.1)
    else (false, [GlobalScripts(context)])
  }

  /**
   * Whole-file mode processes a region unless it is disabled, or it carries a
   * request and a predicate is given that rejects it.
   */
  predicate Selected(regionPredicate: Option<HttpRegion -> bool>, httpRegion: HttpRegion)
  {
    && !httpRegion.disabled
    && !(httpRegion.hasRequest && regionPredicate.Some? && !regionPredicate.value(httpRegion))
  }

  /** The calls of the whole-file loop: every selected region, in order, with no strict flag. */
  function FileModeCalls(context: ProcessorContext, regions: seq<HttpRegion>): (calls: seq<Call>)
    decreases |regions|
  {
    if |regions| == 0 then []
    else
      (if Selected(context.httpRegionPredicate, regions[0]) then [ProcessActions(RegionContext(context, regions[0]), None)] else [])
      + FileModeCalls(context, regions[1..])
  }

  /**
   * Whole-file mode processes, without the strict flag, exactly the selected
   * regions of the file, each with the context narrowed to it.
   */
  lemma {:induction false} FileModeCallsMeaning(context: ProcessorContext, regions: seq<HttpRegion>)
    ensures forall c | c in FileModeCalls(context, regions) ::
              && c.ProcessActions? && c.strict.None? && c.context.httpRegion.Some?
              && c.context.httpRegion.value in regions && Selected(context.httpRegionPredicate, c.context.httpRegion.value)
              && c.context == RegionContext(context, c.context.httpRegion.value)
    ensures forall r | r in regions && Selected(context.httpRegionPredicate, r) ::
              ProcessActions(RegionContext(context, r), None) in FileModeCalls(context, regions)
    decreases |regions|
  {
    if |regions| > 0 {
      FileModeCallsMeaning(context, regions[1..]);
      assert forall r | r in regions :: r == regions[0] || r in regions[1..];
    }
  }

  /**
   * The whole-file trace by position: the `k`-th call processes, without the
   * strict flag, the region at `idx[k]`, with `idx` increasing; the positions
   * visited are exactly those of the selected regions.
   */
  ghost predicate FileModeVisits(context: ProcessorContext, regions: seq<HttpRegion>, calls: seq<Call>, idx: seq<int>)
  {
    && StrictlyIncreasing(idx, |regions|)
    && CallsAt(context, regions, calls, idx, None)
    && (forall i | 0 <= i < |regions| :: i in idx <==> Selected(context.httpRegionPredicate, regions[i]))
  }

  /** Whole-file mode processes the selected regions in file order, each exactly once. */
  lemma {:induction false} FileModeInOrder(context: ProcessorContext, regions: seq<HttpRegion>)
    ensures exists idx :: FileModeVisits(context, regions, FileModeCalls(context, regions), idx)
    decreases |regions|
  {
    if |regions| == 0 {
      assert FileModeVisits(context, regions, FileModeCalls(context, regions), []);
    } else {
      var tail := regions[1..];
      FileModeInOrder(context, tail);
      var rest :| FileModeVisits(context, tail, FileModeCalls(context, tail), rest);
      var idx := FileModeStep(context, regions, rest);
      assert FileModeVisits(context, regions, FileModeCalls(context, regions), idx);
    }
  }

  /** The step of `FileModeInOrder`: the positions of the tail's trace, one further on, behind position 0 when the first region is selected. */
  lemma FileModeStep(context: ProcessorContext, regions: seq<HttpRegion>, rest: seq<int>) returns (idx: seq<int>)
    requires |regions| > 0 && FileModeVisits(context, regions[1..], FileModeCalls(context, regions[1..]), rest)
    ensures FileModeVisits(context, regions, FileModeCalls(context, regions), idx)
  {
    var tail := regions[1..];
    var restCalls := FileModeCalls(context, tail);
    var first := Selected(context.httpRegionPredicate, regions[0]);
    var calls := FileModeCalls(context, regions);
    idx := if first then [0] + Shifted(rest) else Shifted(rest);
    assert StrictlyIncreasing(idx, |regions|) by {
      ShiftedIndices(rest, |tail|);
    }
    assert CallsAt(context, regions, calls, idx, None) by {
      assert calls == (if first then [ProcessActions(RegionContext(context, regions[0]), None)] else []) + restCalls;
      assert [] + restCalls == restCalls;
      CallsAtShifted(context, regions, restCalls, rest, None);
    }
    assert forall i | 0 <= i < |regions| :: i in idx <==> Selected(context.httpRegionPredicate, regions[i]) by {
      ShiftedMembers(rest);
      forall i | 0 < i < |regions| ensures i in idx <==> Selected(context.httpRegionPredicate, regions[i]) {
        assert regions[i] == tail[i - 1];
      }
    }
  }

  /** Whole-file mode: no global scripts, every selected region processed, success whatever the outcomes. */
  function FileOutcome(host: Host, input: SendInput): (outcome: (bool, seq<Call>))
  {
    var context := AssembledContext(host, input);
    (true, FileModeCalls(context, input.httpFile.httpRegions))
  }

  /** `send`: single-region mode first, then region-list mode, else whole-file mode. */
  function Outcome(host: Host, input: SendInput): (bool, seq<Call>)
  {
    if input.httpRegion.Some? then SingleRegionOutcome(host, input)
    else if input.httpRegions.Some? then RegionsOutcome(host, input)
    else FileOutcome(host, input)
  }

  /** In every mode a disabled region is never processed. */
  lemma DisabledRegionsAreNeverProcessed(host: Host, input: SendInput)
    ensures forall c | c in Outcome(host, input).1 && c.ProcessActions? ::
              c.context.httpRegion.Some? && !c.context.httpRegion.value.disabled
  {
    if input.httpRegion.None? && input.httpRegions.Some? {
      var context := AssembledContext(host, input);
      if host.executeGlobalScripts(context) {
        var run := FailFast(host, context, input.httpRegions.value);
        FailFastMeaning(host, context, input.httpRegions.value);
        assert forall c | c in Outcome(host, input).1 && c.ProcessActions? :: c in run.1;
      }
    } else if input.httpRegion.None? {
      FileModeCallsMeaning(AssembledContext(host, input), input.httpFile.httpRegions);
    }
  }

  /**
   * Region actions run in the region modes only after the global scripts
   * succeeded on the assembled context, while whole-file mode never runs the
   * global scripts.
   */
  lemma GlobalScriptsGateRegionModes(host: Host, input: SendInput)
    ensures var (_, calls) := Outcome(host, input);
            var context := AssembledContext(host, input);
            input.httpRegion.Some? || input.httpRegions.Some? ==>
              (exists c | c in calls :: c.ProcessActions?) ==>
                calls[0] == GlobalScripts(context) && host.executeGlobalScripts(context)
    ensures input.httpRegion.None? && input.httpRegions.None? ==>
              forall c | c in Outcome(host, input).1 :: !c.GlobalScripts?
  {
    if input.httpRegion.None? && input.httpRegions.None? {
      FileModeCallsMeaning(AssembledContext(host, input), input.httpFile.httpRegions);
    }
  }

  /** A disabled single region fails without assembling a context or calling the host. */
  lemma DisabledSingleRegionShortCircuits(host: Host, input: SendInput)
    requires input.httpRegion.Some? && input.httpRegion.value.disabled
    ensures Outcome(host, input) == (false, [])
  {
  }

  /**
   * Whole-file mode reports success whatever the regions' outcomes, and its
   * calls do not depend on them.
   */
  lemma FileModeIgnoresOutcomes(host: Host, input: SendInput, process: (ProcessorContext, Option<bool>) -> bool)
    requires input.httpRegion.None? && input.httpRegions.None?
    ensures Outcome(host, input).0
    ensures Outcome(host, input) == Outcome(host.(processHttpRegionActions := process), input)
  {
  }

  /** Region-list mode succeeds exactly when the scripts succeed and every enabled region succeeds. */
  lemma RegionsSucceedOnlyIfAllDo(host: Host, input: SendInput)
    requires input.httpRegion.None? && input.httpRegions.Some?
    ensures var context := AssembledContext(host, input);
            var regions := input.httpRegions.value;
            Outcome(host, input).0 <==>
              && host.executeGlobalScripts(context)
              && forall i | 0 <= i < |regions| && !regions[i].disabled ::
                   host.processHttpRegionActions(RegionContext(context, regions[i]), Some(false))
  {
    FailFastMeaning(host, AssembledContext(host, input), input.httpRegions.value);
  }

  /** `sendHttpRegion`. */
  method SendHttpRegion(host: Host, context: SendContext, logger: Logger) returns (result: bool, calls: seq<Call>)
    requires context.httpRegion.Some?
    modifies context, logger
    ensures (result, calls) == SingleRegionOutcome(host, old(context.Input()))
    ensures context.httpRegion.value.disabled ==> unchanged(context) && unchanged(logger)
    ensures !context.httpRegion.value.disabled ==>
              && context.Assembled() && context.AsProcessorContext() == AssembledContext(host, old(context.Input()))
              && logger.ConfiguredBy(context.AsProcessorContext().config)
  {
    if !context.httpRegion.value.disabled {
      var processorContext := CreateEmptyProcessorContext(host, context, logger);
      calls := [GlobalScripts(processorContext)];
      if host.executeGlobalScripts(processorContext) {
        calls := [GlobalScripts(processorContext), ProcessActions(processorContext, Some(true))];
        return host.processHttpRegionActions(processorContext, Some(true)), calls;
      }
      return false, calls;
    }
    return false, [];
  }

  /**
   * The loop of `sendHttpRegions` over the regions, each processed with the
   * assembled context narrowed to it, returning at the first failure.
   */
  method ProcessRegionsFailFast(host: Host, processorContext: ProcessorContext, regions: seq<HttpRegion>)
    returns (result: bool, processed: seq<Call>)
    ensures (result, processed) == FailFast(host, processorContext, regions)
  {
    ghost var whole := FailFast(host, processorContext, regions);
    processed := [];
    var i := 0;
    assert regions[0..] == regions;
    while i < |regions|
      invariant 0 <= i <= |regions|
      invariant whole.0 == FailFast(host, processorContext, regions[i..]).0
      invariant whole.1 == processed + FailFast(host, processorContext, regions[i..]).1
    {
      var httpRegion := regions[i];
      ghost var here := FailFast(host, processorContext, regions[i..]);
      ghost var rest := FailFast(host, processorContext, regions[i + 1..]);
      FailFastStep(host, processorContext, regions, i);
      if !httpRegion.disabled {
        var regionProcessorContext := RegionContext(processorContext, httpRegion);
        var call := ProcessActions(regionProcessorContext, Some(false));
        if !host.processHttpRegionActions(regionProcessorContext, Some(false)) {
          processed := processed + [call];
          return false, processed;
        }
        assert processed + here.1 == (processed + [call]) + rest.1;
        processed := processed + [call];
      }
      i := i + 1;
    }
    assert regions[i..] == [] && processed + [] == processed;
    return true, processed;
  }

  /** One step of the fail-fast loop at index `i`. */
  lemma FailFastStep(host: Host, context: ProcessorContext, regions: seq<HttpRegion>, i: nat)
    requires i < |regions|
    ensures var here := FailFast(host, context, regions[i..]);
            var rest := FailFast(host, context, regions[i + 1..]);
            var call := ProcessActions(RegionContext(context, regions[i]), Some(false));
            if regions[i].disabled then here == rest
            else if !host.processHttpRegionActions(RegionContext(context, regions[i]), Some(false)) then here == (false, [call])
            else here == (rest.0, [call] + rest.1)
  {
    assert regions[i..][1..] == regions[i + 1..];
  }

  /** `sendHttpRegions`. */
  method SendHttpRegions(host: Host, context: SendContext, logger: Logger) returns (result: bool, calls: seq<Call>)
    requires context.httpRegions.Some?
    modifies context, logger
    ensures (result, calls) == RegionsOutcome(host, old(context.Input()))
    ensures context.Assembled() && context.AsProcessorContext() == AssembledContext(host, old(context.Input()))
    ensures logger.ConfiguredBy(context.AsProcessorContext().config)
  {
    var processorContext := CreateEmptyProcessorContext(host, context, logger);
    calls := [GlobalScripts(processorContext)];
    if host.executeGlobalScripts(processorContext) {
      var processed;
      result, processed := ProcessRegionsFailFast(host, processorContext, context.httpRegions.value);
      calls := calls + processed;
    } else {
      result := false;
    }
  }

  /**
   * The loop of `sendHttpFile`: skips disabled regions and request regions
   * the predicate rejects, processes the others and ignores their outcomes.
   */
  method ProcessFileRegions(processorContext: ProcessorContext, regions: seq<HttpRegion>) returns (calls: seq<Call>)
    ensures calls == FileModeCalls(processorContext, regions)
  {
    ghost var whole := FileModeCalls(processorContext, regions);
    calls := [];
    var i := 0;
    assert regions[0..] == regions;
    while i < |regions|
      invariant 0 <= i <= |regions|
      invariant whole == calls + FileModeCalls(processorContext, regions[i..])
    {
      var httpRegion := regions[i];
      ghost var rest := FileModeCalls(processorContext, regions[i + 1..]);
      FileModeCallsStep(processorContext, regions, i);
      if httpRegion.disabled {
        i := i + 1;
        continue;
      }
      var regionPredicate := processorContext.httpRegionPredicate;
      if httpRegion.hasRequest && regionPredicate.Some? && !regionPredicate.value(httpRegion) {
        i := i + 1;
        continue;
      }
      var call := ProcessActions(RegionContext(processorContext, httpRegion), None);
      assert calls + FileModeCalls(processorContext, regions[i..]) == (calls + [call]) + rest;
      calls := calls + [call];
      i := i + 1;
    }
    assert regions[i..] == [] && calls + [] == calls;
  }

  /** One step of the whole-file loop at index `i`. */
  lemma FileModeCallsStep(context: ProcessorContext, regions: seq<HttpRegion>, i: nat)
    requires i < |regions|
    ensures var here := FileModeCalls(context, regions[i..]);
            var rest := FileModeCalls(context, regions[i + 1..]);
            var p := context.httpRegionPredicate;
            if regions[i].disabled then here == rest
            else if regions[i].hasRequest && p.Some? && !p.value(regions[i]) then here == rest
            else here == [ProcessActions(RegionContext(context, regions[i]), None)] + rest
  {
    assert regions[i..][1..] == regions[i + 1..];
  }

  /** `sendHttpFile`. */
  method SendHttpFile(host: Host, context: SendContext, logger: Logger) returns (result: bool, calls: seq<Call>)
    modifies context, logger
    ensures (result, calls) == FileOutcome(host, old(context.Input()))
    ensures context.Assembled() && context.AsProcessorContext() == AssembledContext(host, old(context.Input()))
    ensures logger.ConfiguredBy(context.AsProcessorContext().config)
  {
    var processorContext := CreateEmptyProcessorContext(host, context, logger);
    calls := ProcessFileRegions(processorContext, context.httpFile.httpRegions);
    result := true;
  }

  /** `send`: dispatches on the shape of the context. */
  method Send(host: Host, context: SendContext, logger: Logger) returns (result: bool, calls: seq<Call>)
    modifies context, logger
    ensures (result, calls) == Outcome(host, old(context.Input()))
    ensures context.httpRegion.Some? && context.httpRegion.value.disabled ==> unchanged(context) && unchanged(logger)
    ensures !(context.httpRegion.Some? && context.httpRegion.value.disabled) ==>
              && context.Assembled() && context.AsProcessorContext() == AssembledContext(host, old(context.Input()))
              && logger.ConfiguredBy(context.AsProcessorContext().config)
  {
    if context.httpRegion.Some? {
      result, calls := SendHttpRegion(host, context, logger);
    } else if context.httpRegions.Some? {
      result, calls := SendHttpRegions(host, context, logger);
    } else {
      result, calls := SendHttpFile(host, context, logger);
    }
  }

  /** Every environment the providers with `getEnvironments` list, concatenated in chain order. */
  function AllEnvironments(providers: seq<VariableProvider>): (all: seq<string>)
    ensures forall x :: x in all <==>
              exists i | 0 <= i < |providers| :: providers[i].environments.Some? && x in providers[i].environments.value
    decreases |providers|
  {
    if |providers| == 0 then []
    else
      var n := |providers| - 1;
      assert forall i | 0 <= i < n :: providers[..n][i] == providers[i];
      AllEnvironments(providers[..n]) + (if providers[n].environments.Some? then providers[n].environments.value else [])
  }

  /**
   * A file whose only environment provider is a `JsonEnvProvider` lists
   * exactly the names of its table, in table order: precisely the names
   * `getVariables` answers for, each once when the table is well formed.
   */
  lemma JsonEnvProviderInChain(provider: JsonEnvProvider)
    ensures AllEnvironments([provider.AsVariableProvider()]) == provider.GetEnvironments()
    ensures forall x :: x in AllEnvironments([provider.AsVariableProvider()]) <==> provider.GetVariables(x).Some?
    ensures provider.Valid() ==> Distinct(AllEnvironments([provider.AsVariableProvider()]))
  {
    var chain := [provider.AsVariableProvider()];
    assert chain[..0] == [];
    assert AllEnvironments(chain) == [] + provider.GetEnvironments();
    forall x ensures x in AllEnvironments(chain) <==> provider.GetVariables(x).Some? {
      ListedExactlyWhenDefined(provider, x);
    }
    if provider.Valid() {
      TableRoundTrip(provider);
    }
  }

  /**
   * `getEnvironments`: the names every capable provider of the file lists,
   * without duplicates and sorted; empty exactly when no provider lists any.
   */
  method GetEnvironments(httpFile: HttpFile) returns (result: seq<string>)
    ensures Sorted(result) && Distinct(result)
    ensures forall x :: x in result <==>
              exists i | 0 <= i < |httpFile.variableProviders| ::
                httpFile.variableProviders[i].environments.Some? && x in httpFile.variableProviders[i].environments.value
    ensures |result| == 0 <==> |AllEnvironments(httpFile.variableProviders)| == 0
  {
    var providers := httpFile.variableProviders;
    result := [];
    var i := 0;
    while i < |providers|
      invariant 0 <= i <= |providers|
      invariant result == AllEnvironments(providers[..i])
    {
      assert providers[..i + 1][..i] == providers[..i];
      if providers[i].environments.Some? {
        result := result + providers[i].environments.value;
      }
      i := i + 1;
    }
    assert providers[..|providers|] == providers;
    if |result| > 0 {
      SortedNames(result);
      result := Sort(Dedupe(result));
    }
  }

  /** Deduplicating and then sorting keeps exactly the names, each once, in order. */
  lemma SortedNames(names: seq<string>)
    requires |names| > 0
    ensures var r := Sort(Dedupe(names));
            Sorted(r) && Distinct(r) && |r| > 0 && forall x :: x in r <==> x in names
  {
    var deduped := Dedupe(names);
    SortKeepsDistinct(deduped);
    assert names[0] in deduped;
    var r := Sort(deduped);
    assert forall x :: x in r <==> x in multiset(deduped);
  }
}
