/** The settings resolution that `main` in src/main.cpp performs before it
    constructs the agent: session counts, socket path, endpoint list, and
    the "otagent" section it writes back to the settings file. */
module Startup {
  import opened Types
  import opened Options
  import opened Endpoints

  /** What main learns from outside the option values: the user id and
      whether the two candidate default socket directories are writable by
      their owner. */
  datatype Environment = Environment(uid: string, runUserWritable: bool, tmpUserWritable: bool)

  /** The default socket path probe of src/main.cpp:274-290; empty when
      neither directory is writable. */
  function DefaultSocketPath(env: Environment): (r: string)
    ensures env.runUserWritable ==> r == "/run/user/" + env.uid + "/otagent.sock"
    ensures !env.runUserWritable && env.tmpUserWritable ==> r == "/tmp/user/" + env.uid + "/otagent.sock"
    ensures r == "" <==> !env.runUserWritable && !env.tmpUserWritable
  {
    if env.runUserWritable then "/run/user/" + env.uid + "/otagent.sock"
    else if env.tmpUserWritable then "/tmp/user/" + env.uid + "/otagent.sock"
    else ""
  }

  /** The socket path main uses: the command-line value when given (even
      an empty one, which discards the config-file value), else the
      config-file value (`configPath` is "" when the file has none), and
      the default probe when that is empty. */
  function ChosenSocketPath(configPath: string, commandLinePath: Option<string>, env: Environment): (r: string)
    ensures commandLinePath.Some? && commandLinePath.value != "" ==> r == commandLinePath.value
    ensures commandLinePath.Some? && commandLinePath.value == "" ==> r == DefaultSocketPath(env)
    ensures commandLinePath.None? && configPath != "" ==> r == configPath
    ensures commandLinePath.None? && configPath == "" ==> r == DefaultSocketPath(env)
    ensures r == "" ==> !env.runUserWritable && !env.tmpUserWritable
  {
    var path := if commandLinePath.Some? then commandLinePath.value else configPath;
    if path != "" then path else DefaultSocketPath(env)
  }

  /** The socket path written back (src/main.cpp:402-404): the config-file
      path when there was one, otherwise the path chosen for this run. */
  function SavedSocketPath(configPath: string, chosen: string): (r: string)
    ensures configPath != "" ==> r == configPath
    ensures configPath == "" ==> r == chosen
  {
    if configPath == "" then chosen else configPath
  }

  /** Once a non-empty socket path has been saved, later runs keep saving
      it, and a later run without a command-line path uses it. */
  lemma SavedSocketPathIsSticky(configPath: string, commandLinePath: Option<string>, env: Environment,
                                laterPath: Option<string>, laterEnv: Environment)
    ensures var saved := SavedSocketPath(configPath, ChosenSocketPath(configPath, commandLinePath, env));
      saved != "" ==>
        && SavedSocketPath(saved, ChosenSocketPath(saved, laterPath, laterEnv)) == saved
        && (laterPath.None? ==> ChosenSocketPath(saved, laterPath, laterEnv) == saved)
  {
  }

  /** The "otagent" section main writes to the settings file. */
  datatype SavedSection = SavedSection(clients: int64, servers: int64, socketPath: string, endpoint: Option<string>)

  /** Everything main resolves before starting the agent. */
  datatype Settings = Settings(
    clients: int64,
    servers: int64,
    socketPath: string,
    endpoints: seq<string>,
    saved: SavedSection)

  /** Every option present carries the type its declaration gives it
      (src/main.cpp:66-123); boost::program_options guarantees this. */
  predicate WellTyped(vars: Variables) {
    && IntOrAbsent(vars, CLIENTS) && IntOrAbsent(vars, ConfigOptionName(CLIENTS))
    && IntOrAbsent(vars, SERVERS) && IntOrAbsent(vars, ConfigOptionName(SERVERS))
    && TextOrAbsent(vars, SOCKET_PATH) && TextOrAbsent(vars, ConfigOptionName(SOCKET_PATH))
    && ListOrAbsent(vars, ENDPOINT) && TextOrAbsent(vars, ConfigOptionName(ENDPOINT))
  }

  function ConfigSocketPath(vars: Variables): string
    requires TextOrAbsent(vars, ConfigOptionName(SOCKET_PATH))
  {
    if ConfigOptionName(SOCKET_PATH) in vars then vars[ConfigOptionName(SOCKET_PATH)].s else ""
  }

  function CommandLineSocketPath(vars: Variables): Option<string>
    requires TextOrAbsent(vars, SOCKET_PATH)
  {
    if SOCKET_PATH in vars then Some(vars[SOCKET_PATH].s) else None
  }

  /** The config-file endpoints as string_to_vector reads them. */
  function ConfigEndpoints(vars: Variables): seq<string>
    requires TextOrAbsent(vars, ConfigOptionName(ENDPOINT))
  {
    if ConfigOptionName(ENDPOINT) in vars then SplitAsWritten(vars[ConfigOptionName(ENDPOINT)].s) else []
  }

  function CommandLineEndpoints(vars: Variables): seq<string>
    requires ListOrAbsent(vars, ENDPOINT)
  {
    if ENDPOINT in vars then vars[ENDPOINT].items else []
  }

  /** The settings main resolves from the variables map and the environment. */
  function Resolve(vars: Variables, env: Environment): (s: Settings)
    requires WellTyped(vars)
    ensures s.saved.clients == s.clients && s.saved.servers == s.servers
    ensures ConfigSocketPath(vars) != "" ==> s.saved.socketPath == ConfigSocketPath(vars)
    ensures s.socketPath != "" ==> s.saved.socketPath != ""
    ensures s.saved.endpoint.None? <==> s.endpoints == []
  {
    var clients := MaxOptionValue(vars, CLIENTS);
    var servers := MaxOptionValue(vars, SERVERS);
    var socketPath := ChosenSocketPath(ConfigSocketPath(vars), CommandLineSocketPath(vars), env);
    var endpoints := Merge(Merge([], ConfigEndpoints(vars)), CommandLineEndpoints(vars));
    var entry := if endpoints == [] then None else Some(Join(endpoints));
    Settings(clients, servers, socketPath, endpoints,
             SavedSection(clients, servers, SavedSocketPath(ConfigSocketPath(vars), socketPath), entry))
  }

  /** The resolved endpoints are those of the config file and the command
      line, each once. */
  lemma ResolvedEndpoints(vars: Variables, env: Environment)
    requires WellTyped(vars)
    ensures var s := Resolve(vars, env);
      && NoDuplicates(s.endpoints)
      && forall x :: x in s.endpoints <==> x in ConfigEndpoints(vars) || x in CommandLineEndpoints(vars)
  {
    MergeShape([], ConfigEndpoints(vars));
    MergeShape(Merge([], ConfigEndpoints(vars)), CommandLineEndpoints(vars));
  }

  /** main, src/main.cpp:255-316 and 396-414: the two counts, the socket
      path, the endpoint merge loops and the endpoint entry written back. */
  method Startup(vars: Variables, env: Environment) returns (s: Settings)
    requires WellTyped(vars)
    ensures s == Resolve(vars, env)
  {
    var clients := MaxOptionValue(vars, CLIENTS);
    var servers := MaxOptionValue(vars, SERVERS);
    var configSocketPath := "";
    if ConfigOptionName(SOCKET_PATH) in vars {
      configSocketPath := vars[ConfigOptionName(SOCKET_PATH)].s;
    }
    assert configSocketPath == ConfigSocketPath(vars);
    var socketPath := configSocketPath;
    if SOCKET_PATH in vars {
      socketPath := vars[SOCKET_PATH].s;
    }
    if socketPath == "" {
      socketPath := DefaultSocketPath(env);
    }
    var configEndpoints := [];
    if ConfigOptionName(ENDPOINT) in vars {
      configEndpoints := StringToVector(vars[ConfigOptionName(ENDPOINT)].s);
    }
    var commandLineEndpoints := [];
    if ENDPOINT in vars {
      commandLineEndpoints := vars[ENDPOINT].items;
    }
    assert configEndpoints == ConfigEndpoints(vars);
    assert commandLineEndpoints == CommandLineEndpoints(vars);
    assert socketPath == ChosenSocketPath(ConfigSocketPath(vars), CommandLineSocketPath(vars), env);
    var endpoints := MergeEndpoints(configEndpoints, commandLineEndpoints);
    var entry := JoinEndpoints(endpoints);
    var savedPath := if configSocketPath == "" then socketPath else configSocketPath;
    assert savedPath == SavedSocketPath(ConfigSocketPath(vars), socketPath);
    s := Settings(clients, servers, socketPath, endpoints, SavedSection(clients, servers, savedPath, entry));
  }

  /** The variables the next run reads back from the section this run saved
      (no command-line options given). */
  function ReloadVariables(saved: SavedSection): (r: Variables)
    ensures r.Keys == {ConfigOptionName(CLIENTS), ConfigOptionName(SERVERS), ConfigOptionName(SOCKET_PATH)}
                      + (if saved.endpoint.Some? then {ConfigOptionName(ENDPOINT)} else {})
  {
    var base := map[
      ConfigOptionName(CLIENTS) := IntValue(saved.clients),
      ConfigOptionName(SERVERS) := IntValue(saved.servers),
      ConfigOptionName(SOCKET_PATH) := TextValue(saved.socketPath)];
    if saved.endpoint.Some? then base[ConfigOptionName(ENDPOINT) := TextValue(saved.endpoint.value)] else base
  }

  /** What the next run reads from the reloaded variables. */
  lemma ReloadedValues(saved: SavedSection)
    ensures var vars := ReloadVariables(saved);
      && WellTyped(vars)
      && MaxOptionValue(vars, CLIENTS) == (if saved.clients < 0 then 0 else saved.clients)
      && MaxOptionValue(vars, SERVERS) == (if saved.servers < 0 then 0 else saved.servers)
      && ConfigSocketPath(vars) == saved.socketPath
      && CommandLineSocketPath(vars) == None
      && ConfigEndpoints(vars) == (if saved.endpoint.Some? then SplitAsWritten(saved.endpoint.value) else [])
      && CommandLineEndpoints(vars) == []
  {
  }

  /** Restarting from the saved settings file alone: the counts come back
      (raised to 0 if negative), the saved socket path is kept, and the
      endpoint list comes back unchanged unless it held exactly one
      endpoint, which is lost. */
  lemma RestartFromSavedSettings(vars: Variables, env: Environment, laterEnv: Environment)
    requires WellTyped(vars)
    requires forall i :: 0 <= i < |Resolve(vars, env).endpoints| ==> IsEndpoint(Resolve(vars, env).endpoints[i])
    ensures var s := Resolve(vars, env);
      && WellTyped(ReloadVariables(s.saved))
      && var later := Resolve(ReloadVariables(s.saved), laterEnv);
      && later.clients == (if s.clients < 0 then 0 else s.clients)
      && later.servers == (if s.servers < 0 then 0 else s.servers)
      && (s.saved.socketPath != "" ==> later.socketPath == s.saved.socketPath)
      && (s.saved.socketPath != "" ==> later.saved.socketPath == s.saved.socketPath)
      && later.endpoints == (if |s.endpoints| == 1 then [] else s.endpoints)
  {
    var s := Resolve(vars, env);
    ReloadedValues(s.saved);
    MergedEndpoints(ConfigEndpoints(vars), CommandLineEndpoints(vars));
    if s.endpoints != [] {
      JoinSplitAsWritten(s.endpoints);
      if |s.endpoints| >= 2 {
        MergeDistinct([], s.endpoints);
        assert [] + s.endpoints == s.endpoints;
      }
    }
  }
}
