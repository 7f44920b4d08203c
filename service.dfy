/**
 * The RPC messages the provider exchanges with the analyzer (the generated
 * `analyzer_service` types), reduced to the fields the provider reads or writes.
 */
module Service {
  import opened Wrappers
  import opened Results

  /** The tonic status codes the provider produces. */
  datatype Code = Unknown | InvalidArgument | Internal

  /** A call-level failure (`tonic::Status`). */
  datatype Status = Status(code: Code, message: string)

  /** `Config`, as far as `init` reads it. */
  datatype Config = Config(location: string, analysisMode: string, providerSpecificConfig: map<string, string>)

  datatype InitResponse = InitResponse(error: string, successful: bool, id: int)

  datatype Capability = Capability(name: string)

  datatype CapabilitiesResponse = CapabilitiesResponse(capabilities: seq<Capability>)

  /** `IncidentContext`: what the caller sees for one match. */
  datatype IncidentContext = IncidentContext(
    fileUri: string,
    lineNumber: Option<int>,
    variables: map<string, string>,
    codeLocation: Option<Location>)

  datatype ProviderEvaluateResponse = ProviderEvaluateResponse(matched: bool, incidentContexts: seq<IncidentContext>)

  datatype EvaluateResponse = EvaluateResponse(error: string, successful: bool, response: Option<ProviderEvaluateResponse>)
}
