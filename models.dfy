/**
 * The entities the send pipeline reads and builds: regions, files, the
 * variable providers a file registers, the caller's send context (which
 * context assembly decorates in place) and the processor context a region
 * is processed with (src/models/processorContext.ts).
 */
module Models {
  import opened Wrappers
  import opened Json
  import opened FsUtils

  /** A variable name mapped to its value. */
  type Variables = map<string, Json>

  /** The own top-level keys of an `EnvironmentConfig` object. */
  type EnvironmentConfig = map<string, Json>

  /** A region as the pipeline sees it: `metaData.disabled` and whether it carries a request; `id` tells regions apart. */
  datatype HttpRegion = HttpRegion(id: nat, disabled: bool, hasRequest: bool)

  /**
   * A provider on a file's chain, reduced to what its optional
   * `getEnvironments` answers: `None` when it lacks that capability.
   */
  datatype VariableProvider = VariableProvider(environments: Option<seq<string>>)

  /** The parsed file: its root directory, active environment, regions in order and provider chain. */
  datatype HttpFile = HttpFile(
    rootDir: Option<Path>,
    activeEnvironment: Option<seq<string>>,
    httpRegions: seq<HttpRegion>,
    variableProviders: seq<VariableProvider>)

  /** The transport handle `initHttpClient` creates; opaque to the core. */
  datatype HttpClient = HttpClient(handle: nat)

  /** The fields of a send context the pipeline reads before it assembles anything. */
  datatype SendInput = SendInput(
    httpFile: HttpFile,
    httpRegion: Option<HttpRegion>,
    httpRegions: Option<seq<HttpRegion>>,
    httpRegionPredicate: Option<HttpRegion -> bool>,
    config: Option<EnvironmentConfig>)

  /** A processor context: an assembled send context, possibly narrowed to one region. */
  datatype ProcessorContext = ProcessorContext(
    httpFile: HttpFile,
    httpRegion: Option<HttpRegion>,
    httpRegions: Option<seq<HttpRegion>>,
    httpRegionPredicate: Option<HttpRegion -> bool>,
    config: EnvironmentConfig,
    variables: Variables,
    httpClient: HttpClient)

  /**
   * The caller's send context (`HttpRegionSendContext`,
   * `HttpRegionsSendContext` or `HttpFileSendContext` by which of
   * `httpRegion` and `httpRegions` are present). Context assembly writes
   * `config`, `variables` and `httpClient` into this very object.
   */
  class SendContext {
    const httpFile: HttpFile
    const httpRegion: Option<HttpRegion>
    const httpRegions: Option<seq<HttpRegion>>
    const httpRegionPredicate: Option<HttpRegion -> bool>
    var config: Option<EnvironmentConfig>
    var variables: Option<Variables>
    var httpClient: Option<HttpClient>

    constructor(httpFile: HttpFile, httpRegion: Option<HttpRegion>, httpRegions: Option<seq<HttpRegion>>,
                httpRegionPredicate: Option<HttpRegion -> bool>, config: Option<EnvironmentConfig>,
                variables: Option<Variables>)
      ensures this.httpFile == httpFile && this.httpRegion == httpRegion && this.httpRegions == httpRegions
      ensures this.httpRegionPredicate == httpRegionPredicate && this.config == config
      ensures this.variables == variables && this.httpClient == None
    {
      this.httpFile := httpFile;
      this.httpRegion := httpRegion;
      this.httpRegions := httpRegions;
      this.httpRegionPredicate := httpRegionPredicate;
      this.config := config;
      this.variables := variables;
      this.httpClient := None;
    }

    /** What the pipeline reads of this context before assembly. */
    function Input(): SendInput
      reads this
    {
      SendInput(httpFile, httpRegion, httpRegions, httpRegionPredicate, config)
    }

    /** Context assembly has run: configuration, variables and client are set. */
    predicate Assembled()
      reads this
    {
      config.Some? && variables.Some? && httpClient.Some?
    }

    /** This object, once assembled, as the processor context it is passed as. */
    function AsProcessorContext(): ProcessorContext
      reads this
      requires Assembled()
    {
      ProcessorContext(httpFile, httpRegion, httpRegions, httpRegionPredicate, config.value, variables.value, httpClient.value)
    }
  }
}
