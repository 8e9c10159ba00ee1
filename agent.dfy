/** The agent of src/Agent.cpp: binding its router socket, starting the
    server and client sessions, and keeping the session counters of the
    settings file up to date when an RPC adds a session. The settings file
    is modelled as a tree from section name to entry name to int64 value;
    `None` stands for a file that cannot be read or parsed. */
module Agent {
  import opened Types
  import Startup

  type Tree = map<string, map<string, int64>>

  // src/Agent.cpp:12-14
  const CONFIG_SECTION: string := "otagent"
  const CONFIG_CLIENTS: string := "clients"
  const CONFIG_SERVERS: string := "servers"

  /** read_ini into an empty tree: a read error is logged and leaves the
      tree empty. */
  function ReadIni(file: Option<Tree>): (tree: Tree)
    ensures file.Some? ==> tree == file.value
    ensures file.None? ==> tree == map[]
  {
    file.GetOr(map[])
  }

  /** The tree with entry `key` of section "otagent" raised by one, or None
      when get_child fails because the section or the entry is missing. */
  function Incremented(tree: Tree, key: string): (r: Option<Tree>)
    ensures r.Some? <==> CONFIG_SECTION in tree && key in tree[CONFIG_SECTION]
    ensures r.Some? ==> r.value.Keys == tree.Keys && r.value[CONFIG_SECTION].Keys == tree[CONFIG_SECTION].Keys
    ensures r.Some? ==> r.value[CONFIG_SECTION][key] == Inc64(tree[CONFIG_SECTION][key])
    ensures r.Some? ==> forall s :: s in tree && s != CONFIG_SECTION ==> r.value[s] == tree[s]
    ensures r.Some? ==> forall k :: k in tree[CONFIG_SECTION] && k != key ==>
      r.value[CONFIG_SECTION][k] == tree[CONFIG_SECTION][k]
  {
    if CONFIG_SECTION in tree && key in tree[CONFIG_SECTION] then
      var section: map<string, int64> := tree[CONFIG_SECTION];
      var bumped: int64 := Inc64(section[key]);
      Some(tree[CONFIG_SECTION := section[key := bumped]])
    else
      None
  }

  /** The response types reply_handler distinguishes; every listed type
      other than the two session-adding ones, ERROR and any unlisted value
      share one branch, represented by Error and OtherCommand. */
  datatype CommandType = AddClientSession | AddServerSession | Error | OtherCommand(code: int)

  /** The counter a response of type `t` raises, if any. */
  function CounterFor(t: CommandType): (key: Option<string>)
    ensures key == Some(CONFIG_CLIENTS) <==> t == AddClientSession
    ensures key == Some(CONFIG_SERVERS) <==> t == AddServerSession
    ensures key.None? <==> !t.AddClientSession? && !t.AddServerSession?
  {
    match t
    case AddClientSession => Some(CONFIG_CLIENTS)
    case AddServerSession => Some(CONFIG_SERVERS)
    case _ => None
  }

  /** The settings file after the agent has handled a response of type `t`. */
  function AfterResponse(file: Option<Tree>, t: CommandType): (r: Option<Tree>)
    ensures r.None? <==> file.None?
    ensures CounterFor(t).None? ==> r == file
    ensures r.Some? ==> r.value.Keys == file.value.Keys
  {
    match CounterFor(t)
    case None => file
    case Some(key) =>
      match Incremented(ReadIni(file), key)
      case Some(tree) => Some(tree)
      case None => file
  }

  /** The settings file after the responses `ts`, in order. */
  function Replay(file: Option<Tree>, ts: seq<CommandType>): Option<Tree>
    decreases |ts|
  {
    if ts == [] then file else Replay(AfterResponse(file, ts[0]), ts[1..])
  }

  function Occurrences(ts: seq<CommandType>, t: CommandType): nat {
    if ts == [] then 0 else (if ts[0] == t then 1 else 0) + Occurrences(ts[1..], t)
  }

  /** Both counters present in the settings file. */
  predicate HasCounters(file: Option<Tree>) {
    file.Some? && CONFIG_SECTION in file.value
    && CONFIG_CLIENTS in file.value[CONFIG_SECTION] && CONFIG_SERVERS in file.value[CONFIG_SECTION]
  }

  /** The dispatch of reply_handler: ADDCLIENTSESSION raises only the client
      counter, ADDSERVERSESSION only the server counter, every other type
      leaves the file as it was. */
  lemma ResponseDispatch(file: Option<Tree>, t: CommandType)
    requires HasCounters(file)
    ensures var after := AfterResponse(file, t);
      && HasCounters(after)
      && after.value.Keys == file.value.Keys
      && after.value[CONFIG_SECTION].Keys == file.value[CONFIG_SECTION].Keys
      && after.value[CONFIG_SECTION][CONFIG_CLIENTS] ==
           (if t == AddClientSession then Inc64(file.value[CONFIG_SECTION][CONFIG_CLIENTS])
            else file.value[CONFIG_SECTION][CONFIG_CLIENTS])
      && after.value[CONFIG_SECTION][CONFIG_SERVERS] ==
           (if t == AddServerSession then Inc64(file.value[CONFIG_SECTION][CONFIG_SERVERS])
            else file.value[CONFIG_SECTION][CONFIG_SERVERS])
      && (t != AddClientSession && t != AddServerSession ==> after == file)
  {
  }

  /** Without a readable file holding the counter, nothing is written. */
  lemma MissingCounterWritesNothing(file: Option<Tree>, t: CommandType)
    requires file.None? || CONFIG_SECTION !in file.value
      || (t == AddClientSession && CONFIG_CLIENTS !in file.value[CONFIG_SECTION])
      || (t == AddServerSession && CONFIG_SERVERS !in file.value[CONFIG_SECTION])
    ensures AfterResponse(file, t) == file
  {
  }

  /** After the responses `ts` the stored client count has grown by the
      number of ADDCLIENTSESSION responses and the server count by the
      number of ADDSERVERSESSION ones, with no update lost, while every
      other section is untouched. */
  lemma {:induction false} ReplayCounts(file: Option<Tree>, ts: seq<CommandType>)
    requires HasCounters(file)
    requires file.value[CONFIG_SECTION][CONFIG_CLIENTS] + Occurrences(ts, AddClientSession) <= INT64_MAX
    requires file.value[CONFIG_SECTION][CONFIG_SERVERS] + Occurrences(ts, AddServerSession) <= INT64_MAX
    ensures var after := Replay(file, ts);
      && HasCounters(after)
      && after.value[CONFIG_SECTION][CONFIG_CLIENTS] ==
           file.value[CONFIG_SECTION][CONFIG_CLIENTS] + Occurrences(ts, AddClientSession)
      && after.value[CONFIG_SECTION][CONFIG_SERVERS] ==
           file.value[CONFIG_SECTION][CONFIG_SERVERS] + Occurrences(ts, AddServerSession)
      && after.value.Keys == file.value.Keys
      && (forall s :: s in file.value && s != CONFIG_SECTION ==> after.value[s] == file.value[s])
    decreases |ts|
  {
    if ts != [] {
      var next := AfterResponse(file, ts[0]);
      ResponseDispatch(file, ts[0]);
      ReplayCounts(next, ts[1..]);
    }
  }

  /** The section main writes (src/main.cpp:396-404), seen as counters. */
  function SavedTree(saved: Startup.SavedSection): Tree {
    var counters: map<string, int64> := map[CONFIG_CLIENTS := saved.clients, CONFIG_SERVERS := saved.servers];
    map[CONFIG_SECTION := counters]
  }

  /** A settings file written by main always holds both counters, so the
      agent's updates on it succeed. */
  lemma SavedTreeHasCounters(saved: Startup.SavedSection)
    ensures HasCounters(Some(SavedTree(saved)))
    ensures Incremented(SavedTree(saved), CONFIG_CLIENTS).Some?
    ensures Incremented(SavedTree(saved), CONFIG_SERVERS).Some?
  {
  }

  /** A session instance the constructor starts. */
  datatype Instance = Server(index: int) | Client(index: int)

  /** How many instances `for (auto i = 0; i < n; ++i)` starts, with the
      loop counter taken as unbounded. */
  function Count(n: int64): (r: nat)
    ensures n <= 0 ==> r == 0
    ensures 0 < n ==> r == n
  {
    if n < 0 then 0 else n
  }

  type Frame = seq<bv8>

  /** How handling one request ends. */
  datatype Outcome =
    | AssertionFailed     // OT_ASSERT aborts
    | FrameOutOfRange     // Body().at(0) fails (throws or aborts)
    | UpdateFailed        // get_child throws while updating a counter
    | Replied(response: CommandType)

  class Agent {
    const clients: int64
    const servers: int64
    const socketPath: string
    const endpoints: seq<string>
    /** The settings file at settings_path_. */
    var settingsFile: Option<Tree>
    /** The addresses the router socket was bound to, in order. */
    var bound: seq<string>
    /** The sessions started, in order. */
    var started: seq<Instance>
    /** An OT_ASSERT on a failed bind stopped construction. */
    var aborted: bool

    /** The router addresses: the ipc socket first, then each endpoint. */
    function Addresses(): (r: seq<string>)
      ensures |r| == 1 + |endpoints| && r[0] == "ipc://" + socketPath && r[1..] == endpoints
    {
      ["ipc://" + socketPath] + endpoints
    }

    /** Agent::Agent (src/Agent.cpp:23-59). `bindable` holds the addresses
        the transport accepts; the first one it refuses aborts the
        construction before any session is started. */
    constructor (clients: int64, servers: int64, socketPath: string, endpoints: seq<string>,
                 settingsFile: Option<Tree>, bindable: set<string>)
      requires socketPath != ""
      ensures this.clients == clients && this.servers == servers
      ensures this.socketPath == socketPath && this.endpoints == endpoints
      ensures this.settingsFile == settingsFile
      ensures |bound| <= |Addresses()| && bound == Addresses()[..|bound|]
      ensures forall i :: 0 <= i < |bound| ==> bound[i] in bindable
      ensures aborted <==> |bound| < |Addresses()|
      ensures aborted ==> Addresses()[|bound|] !in bindable && started == []
      ensures !aborted ==> |started| == Count(servers) + Count(clients)
      ensures !aborted ==> forall i :: 0 <= i < Count(servers) ==> started[i] == Server(i)
      ensures !aborted ==> forall i :: 0 <= i < Count(clients) ==> started[Count(servers) + i] == Client(i)
    {
      var addresses := ["ipc://" + socketPath] + endpoints;
      var b: seq<string> := [];
      var failed := false;
      while |b| < |addresses| && !failed
        invariant |b| <= |addresses| && b == addresses[..|b|]
        invariant forall i :: 0 <= i < |b| ==> b[i] in bindable
        invariant failed ==> |b| < |addresses| && addresses[|b|] !in bindable
        decreases |addresses| - |b|, if failed then 0 else 1
      {
        if addresses[|b|] in bindable {
          b := b + [addresses[|b|]];
        } else {
          failed := true;
        }
      }
      var s: seq<Instance> := [];
      if !failed {
        var i := 0;
        while i < servers
          invariant 0 <= i <= Count(servers) && |s| == i
          invariant forall k :: 0 <= k < i ==> s[k] == Server(k)
        {
          s := s + [Server(i)];
          i := i + 1;
        }
        i := 0;
        while i < clients
          invariant 0 <= i <= Count(clients) && |s| == Count(servers) + i
          invariant forall k :: 0 <= k < Count(servers) ==> s[k] == Server(k)
          invariant forall k :: 0 <= k < i ==> s[Count(servers) + k] == Client(k)
        {
          s := s + [Client(i)];
          i := i + 1;
        }
      }
      this.clients := clients;
      this.servers := servers;
      this.socketPath := socketPath;
      this.endpoints := endpoints;
      this.settingsFile := settingsFile;
      this.bound := b;
      this.started := s;
      this.aborted := failed;
    }

    /** Reads the settings file, raises entry `key` of section "otagent" by
        one and rewrites the whole tree; writes nothing when the section or
        the entry is missing. */
    method UpdateCounter(key: string) returns (written: bool)
      modifies this`settingsFile
      ensures written <==> Incremented(ReadIni(old(settingsFile)), key).Some?
      ensures settingsFile == if written then Some(Incremented(ReadIni(old(settingsFile)), key).value)
                              else old(settingsFile)
    {
      var tree := ReadIni(settingsFile);
      if CONFIG_SECTION !in tree {
        return false;
      }
      var section: map<string, int64> := tree[CONFIG_SECTION];
      if key !in section {
        return false;
      }
      var value: int64 := section[key];
      value := Inc64(value);
      tree := tree[CONFIG_SECTION := section[key := value]];
      settingsFile := Some(tree);
      written := true;
    }

    /** Agent::update_clients (src/Agent.cpp:126-140). */
    method UpdateClients() returns (written: bool)
      modifies this`settingsFile
      ensures written <==> Incremented(ReadIni(old(settingsFile)), CONFIG_CLIENTS).Some?
      ensures settingsFile == AfterResponse(old(settingsFile), AddClientSession)
    {
      written := UpdateCounter(CONFIG_CLIENTS);
    }

    /** Agent::update_servers (src/Agent.cpp:142-156). */
    method UpdateServers() returns (written: bool)
      modifies this`settingsFile
      ensures written <==> Incremented(ReadIni(old(settingsFile)), CONFIG_SERVERS).Some?
      ensures settingsFile == AfterResponse(old(settingsFile), AddServerSession)
    {
      written := UpdateCounter(CONFIG_SERVERS);
    }

    /** Agent::reply_handler as written (src/Agent.cpp:63-66): the assertion
        admits only a request without frames, and reading frame 0 of such a
        request fails (throws or aborts), so no request reaches the RPC
        executor. */
    method ReplyHandler(body: seq<Frame>) returns (outcome: Outcome)
      ensures 0 < |body| ==> outcome == AssertionFailed
      ensures |body| == 0 ==> outcome == FrameOutOfRange
      ensures !outcome.Replied?
    {
      if !(1 > |body|) {
        return AssertionFailed;
      }
      // Body().at(0) on a body without frames fails, by exception or abort.
      outcome := FrameOutOfRange;
    }

    /** reply_handler with the assertion it evidently intends (at least one
        frame): the RPC answer for frame 0 decides which counter, if any, is
        raised (src/Agent.cpp:73-114), and a failed update propagates instead
        of a reply. */
    method HandleRequest(body: seq<Frame>, rpc: Frame -> CommandType) returns (outcome: Outcome)
      modifies this`settingsFile
      ensures |body| == 0 ==> outcome == AssertionFailed && settingsFile == old(settingsFile)
      ensures 0 < |body| ==> settingsFile == AfterResponse(old(settingsFile), rpc(body[0]))
      ensures 0 < |body| ==>
        var t := rpc(body[0]);
        outcome == if CounterFor(t).Some? && Incremented(ReadIni(old(settingsFile)), CounterFor(t).value).None?
                   then UpdateFailed else Replied(t)
    {
      if !(0 < |body|) {
        return AssertionFailed;
      }
      var response := rpc(body[0]);
      var ok := true;
      match response {
        case AddClientSession =>
          ok := UpdateClients();
        case AddServerSession =>
          ok := UpdateServers();
        case _ =>
      }
      outcome := if ok then Replied(response) else UpdateFailed;
    }
  }
}
