/**
 * The C# provider service: its two pieces of shared state (the saved
 * configuration and the current project), `init`'s update sequence with its
 * fatal and non-fatal failures, `evaluate`'s checks in front of the query,
 * and `capabilities`. The collaborators `init` and `evaluate` call (tool
 * discovery, target-framework detection, the SDK steps, project loading, the
 * query engine) are not modelled; their outcomes are inputs.
 */
module Provider {
  import opened Wrappers
  import opened Results
  import opened Service
  import opened Query
  import opened TargetFramework
  import Evaluation

  /** The external tools a project is configured with. */
  datatype Tools = Tools(dotnetInstallCmd: Option<string>)

  /** Awaiting a spawned task: its own result, or the panic it ended with. */
  datatype Joined<T> = Completed(result: T) | Panicked(message: string)

  /** What became of the background SDK task by the time `init` returned. */
  datatype SdkTask = NotSpawned | Detached | Awaited(outcome: Joined<Result<nat, string>>)

  /** The outcomes of everything `init` calls out to, in call order. */
  datatype InitEnvironment = InitEnvironment(
    tools: Result<Tools, string>,
    targetFramework: Result<string, string>,
    sdk: SdkSteps,
    sdkPanic: Option<string>,
    validation: Result<(), string>,
    graph: Result<(), string>,
    resolve: Joined<Result<(), string>>,
    loadToDatabase: Result<(), string>)

  /** What awaiting the SDK task yields. */
  function SdkJoin(env: InitEnvironment): Joined<Result<nat, string>> {
    if env.sdkPanic.Some? then Panicked(env.sdkPanic.value) else Completed(SdkTaskResult(env.sdk))
  }

  /**
   * The answer `init` gives: the tools lookup, language-configuration
   * validation, graph loading and joining the dependency resolution are fatal,
   * in that order; nothing else is.
   */
  function InitResult(env: InitEnvironment): (r: Result<InitResponse, Status>)
    ensures r.Success? <==>
      env.tools.Success? && env.validation.Success? && env.graph.Success? && env.resolve.Completed?
    ensures r.Success? ==> r.value == InitResponse("", true, 4)
    ensures r.Failure? ==> (r.error.code == InvalidArgument <==> env.tools.Failure?)
    ensures r.Failure? ==> r.error.code != Unknown
  {
    if env.tools.Failure? then
      Failure(Status(InvalidArgument, "unalble to find tools: " + env.tools.error))
    else if env.validation.Failure? then
      Failure(Status(Internal, "unable to create language configuration for project"))
    else if env.graph.Failure? then
      Failure(Status(Internal, "failed"))
    else if env.resolve.Panicked? then
      Failure(Status(Internal, "unable to resolve dependencies"))
    else
      Success(InitResponse("", true, 4))
  }

  /**
   * Target-framework detection, the SDK task, the dependency resolution's own
   * result and loading into the database never change `init`'s answer.
   */
  lemma InitIgnoresNonFatalSteps(env: InitEnvironment, env': InitEnvironment)
    requires env.tools == env'.tools && env.validation.Success? == env'.validation.Success?
    requires env.graph.Success? == env'.graph.Success? && env.resolve.Completed? == env'.resolve.Completed?
    ensures InitResult(env) == InitResult(env')
  {
  }

  /** A C# project under analysis. */
  class Project {
    const location: string
    const dbPath: string
    const analysisMode: string
    const tools: Tools
    const graph: Graph
    var targetFramework: Option<string>

    constructor (location: string, dbPath: string, analysisMode: string, tools: Tools)
      ensures this.location == location && this.dbPath == dbPath
      ensures this.analysisMode == analysisMode && this.tools == tools
      ensures targetFramework == None
    {
      this.location := location;
      this.dbPath := dbPath;
      this.analysisMode := analysisMode;
      this.tools := tools;
      graph := new Graph();
      targetFramework := None;
    }

    method SetTargetFramework(tfm: string)
      modifies this
      ensures targetFramework == Some(tfm)
    {
      targetFramework := Some(tfm);
    }
  }

  class CSharpProvider {
    const dbPath: string
    const contextLines: nat
    var config: Option<Config>
    var project: Option<Project>

    constructor (dbPath: string, contextLines: nat)
      ensures this.dbPath == dbPath && this.contextLines == contextLines
      ensures config == None && project == None
    {
      this.dbPath := dbPath;
      this.contextLines := contextLines;
      config := None;
      project := None;
    }

    /** The service offers exactly one capability, `referenced`, unless the schema cannot be rendered. */
    function Capabilities(schema: Result<string, string>): (r: Result<CapabilitiesResponse, Status>)
      ensures r.Success? <==> schema.Success?
      ensures r.Success? ==> r.value.capabilities == [Capability("referenced")]
      ensures r.Failure? ==> r.error == Status(Unknown, schema.error)
    {
      if schema.Failure? then Failure(Status(Unknown, schema.error))
      else Success(CapabilitiesResponse([Capability("referenced")]))
    }

    /**
     * `init`: saves the configuration, then (once tools are found) installs a
     * new project before any fatal step can fail, records a detected target
     * framework, and spawns the SDK task for a modern framework when an
     * install command is configured. The task is awaited only on success;
     * an early error return leaves it running detached.
     */
    method Init(c: Config, env: InitEnvironment) returns (r: Result<InitResponse, Status>, sdkTask: SdkTask)
      modifies this
      ensures config == Some(c)
      ensures r == InitResult(env)
      ensures env.tools.Failure? ==> project == old(project) && sdkTask.NotSpawned?
      ensures env.tools.Success? ==>
        && project.Some? && fresh(project.value)
        && project.value.location == c.location && project.value.dbPath == dbPath
        && project.value.analysisMode == c.analysisMode && project.value.tools == env.tools.value
        && project.value.targetFramework ==
             (if env.targetFramework.Success? then Some(env.targetFramework.value) else None)
      ensures sdkTask.NotSpawned? <==>
        !(env.tools.Success? && SpawnsSdkTask(env.targetFramework, env.tools.value.dotnetInstallCmd))
      ensures sdkTask.Detached? <==> !sdkTask.NotSpawned? && r.Failure?
      ensures sdkTask.Awaited? ==> sdkTask.outcome == SdkJoin(env)
    {
      config := Some(c);
      if env.tools.Failure? {
        r := Failure(Status(InvalidArgument, "unalble to find tools: " + env.tools.error));
        sdkTask := NotSpawned;
        return;
      }
      var p := new Project(c.location, dbPath, c.analysisMode, env.tools.value);
      project := Some(p);

      var spawned := false;
      if env.targetFramework.Success? {
        var tfm := env.targetFramework.value;
        p.SetTargetFramework(tfm);
        if IsModernDotnet(tfm) && p.tools.dotnetInstallCmd.Some? {
          spawned := true;
        }
      }
      sdkTask := if spawned then Detached else NotSpawned;

      if env.validation.Failure? {
        r := Failure(Status(Internal, "unable to create language configuration for project"));
        return;
      }
      if env.graph.Failure? {
        r := Failure(Status(Internal, "failed"));
        return;
      }
      if env.resolve.Panicked? {
        r := Failure(Status(Internal, "unable to resolve dependencies"));
        return;
      }
      if spawned {
        sdkTask := Awaited(SdkJoin(env));
      }
      r := Success(InitResponse("", true, 4));
    }

    /**
     * `evaluate`: only the `referenced` capability is served; a condition that
     * does not parse is a call failure; without a project or a source type the
     * answer is "project may not be initialized"; otherwise the location
     * selects the query mode and the query outcome becomes the response.
     */
    method Evaluate(
      cap: string,
      condition: Option<CSharpCondition>,
      sourceType: Option<SourceType>,
      query: (QueryType, string) -> QueryOutcome,
      convert: ResultNode -> IncidentContext)
      returns (r: Result<EvaluateResponse, Status>)
      ensures cap != "referenced" ==>
        r == Success(EvaluateResponse("unable to find referenced capability", false, None))
      ensures cap == "referenced" && condition.None? ==> r == Failure(Status(Internal, "failed"))
      ensures cap == "referenced" && condition.Some? && (project.None? || sourceType.None?) ==>
        r == Success(EvaluateResponse("project may not be initialized", false, None))
      ensures cap == "referenced" && condition.Some? && project.Some? && sourceType.Some? ==>
        var cond := condition.value.referenced;
        var q := QueryFor(LocationOrDefault(cond.location), project.value.graph, sourceType.value);
        r.Success? && Evaluation.IsResponseTo(query(q, cond.pattern), convert, r.value)
    {
      if cap != "referenced" {
        return Success(EvaluateResponse("unable to find referenced capability", false, None));
      }
      if condition.None? {
        return Failure(Status(Internal, "failed"));
      }
      var cond := condition.value.referenced;
      if project.None? || sourceType.None? {
        return Success(EvaluateResponse("project may not be initialized", false, None));
      }
      var q := QueryFor(LocationOrDefault(cond.location), project.value.graph, sourceType.value);
      var resp := Evaluation.Respond(query(q, cond.pattern), convert);
      r := Success(resp);
    }
  }
}
