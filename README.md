# otagent settings and session bookkeeping, modelled in Dafny

otagent is a local RPC gateway for Open-Transactions. Before it starts, `main` (src/main.cpp) reads options from the command line and from the `otagent` section of the settings file `~/.otagent`. It settles the number of client and server sessions, the ipc socket path and the list of TCP endpoints, and then writes that section back. The agent (src/Agent.cpp) binds its router socket to `ipc://<socket path>` and to each endpoint, and starts the sessions. It is meant to serve RPC requests, and whenever an RPC adds a client or server session, to raise the matching counter in the settings file.

This project models that logic:

- `types.dfy`: `int64`, an `Option` type, and `Inc64`, which is `++` on an int64.
- `options.dfy`: the section-prefixed option names (`config_option_name`) and the "larger of command line and config file, absent counts as 0" rule (`max_option_value`). The variables map filled by boost::program_options is a map from option name to a typed value.
- `endpoints.dfy`: `string_to_vector` is an imperative method with the source's two nested loops. It is proved against `Fields`, a reference definition meaning "the pieces between maximal runs of spaces". The file also holds the endpoint merge loops and the endpoint join loop of `main`. Lemmas cover piece contents and order, leading and trailing spaces, collapsing of space runs, de-duplication, ordering and the join/split round trip.
- `startup.dfy`: the socket-path precedence and the default-path probe. It also holds `Startup`, which composes lines 255-316 and 396-414 of `main`, and a lemma about restarting from the settings file that `main` wrote.
- `agent.dfy`: class `Agent`. Its fields are the settings file (a tree from section to key to int64), the bound addresses, the started sessions and an abort flag. The file models the constructor's bind and start sequence, `update_clients`/`update_servers`, and the response-type dispatch of `reply_handler`, both as written and as evidently intended.

The settings file is modelled as `Option<Tree>`. `None` is a file that cannot be read. `read_ini` into a fresh tree then leaves the tree empty, as the source's catch block does.

Counter updates in the code read and rewrite the settings file on every call. No in-memory counter is held under a lock.

## Model

| member | source | states |
|---|---|---|
| Types.Inc64 | src/Agent.cpp:137-138 | `++` on an int64 gives x + 1 below INT64_MAX and wraps to INT64_MIN at it |
| Options.ConfigOptionName | src/main.cpp:43-48 | the result is "otagent", a dot, then exactly `name` |
| Options.ConfigOptionNameInjective | src/main.cpp:45-48 | distinct option names get distinct config keys |
| Options.ConfigOptionNameIsNotCommandLineName | src/main.cpp:174-181 | a config key never equals a dot-free command-line option name, so both values coexist in one variables map |
| Options.MaxOptionValue | src/main.cpp:168-184 | the result is at least the command-line value and at least the config value (absent counts as 0), and equals one of them |
| Options.MaxOptionValueWithAbsent | src/main.cpp:171-183 | if either value is absent the result is at least 0; if both are absent it is 0 |
| Endpoints.FindSpace | src/main.cpp:196-197 | `s.find(' ', start)`: the first space at or after `start`, or none when the rest holds no space |
| Endpoints.Fields | src/main.cpp:196-204 | the reference splitting at maximal runs of spaces yields at least one piece |
| Endpoints.FieldsSpaceFree | src/main.cpp:196-202 | no piece contains a space |
| Endpoints.FieldsSplitAt | src/main.cpp:196-202 | one outer-loop step: the piece before the first space, then the pieces after the whole run of spaces |
| Endpoints.FieldsSkipRun | src/main.cpp:199-201 | a run of spaces at the front yields one empty piece and is skipped entirely |
| Endpoints.FieldsOfSpaceFree | src/main.cpp:204 | a space-free string is a single piece |
| Endpoints.FieldsOfSpaceFreeTail | src/main.cpp:204 | after the last space, the rest of the string is the final piece |
| Endpoints.SplitAsWritten | src/main.cpp:188-207 | what string_to_vector returns: nothing iff the string holds no space, and never exactly one item |
| Endpoints.FieldsWithSpace | src/main.cpp:196-204 | a string holding a space splits into at least two pieces |
| Endpoints.SplitIntended | src/main.cpp:188-207 | the corrected splitter: nothing iff the string is empty, and the same result as string_to_vector whenever the string holds a space |
| Endpoints.StringToVector | src/main.cpp:186-207 | the loop returns the space-run pieces when the string holds a space, and the empty vector when it holds none |
| Endpoints.FieldsConcat | src/main.cpp:196-204 | concatenating the pieces in order gives the input with its spaces removed, so pieces keep input order and content |
| Endpoints.FieldsCollapseRun | src/main.cpp:199-200 | removing one space from a run of two or more does not change the pieces |
| Endpoints.FieldsLeadingSpace | src/main.cpp:196-201 | a leading space yields an empty first piece |
| Endpoints.FieldsTrailingSpace | src/main.cpp:199-204 | a trailing space yields at least two pieces and an empty last piece |
| Endpoints.SplitAsWrittenWithoutSpace | src/main.cpp:192-204 | `string_to_vector` of a space-free string is empty; the intended splitter gives the string itself |
| Endpoints.SplitAsWrittenEdges | src/main.cpp:196-204 | what `string_to_vector` returns for a leading space (empty first piece) and for a trailing space (empty last piece) |
| Endpoints.JoinSnoc | src/main.cpp:410-412 | appending `' ' + ep` to the joined non-empty prefix joins the longer prefix |
| Endpoints.JoinEndpoints | src/main.cpp:406-414 | no entry for an empty list; otherwise the first endpoint followed by `' ' + ep` for each later one |
| Endpoints.JoinShape | src/main.cpp:408-412 | for non-empty, space-free endpoints, the joined entry is non-empty, starts with a non-space, and holds a space iff there are two or more endpoints |
| Endpoints.FieldsOfJoin | src/main.cpp:408-412 | splitting the joined entry at space runs gives back the list of non-empty, space-free endpoints |
| Endpoints.JoinSplitAsWritten | src/main.cpp:192-204 | for non-empty, space-free endpoints, writing then reading with `string_to_vector` gives back two or more endpoints unchanged, but turns a single endpoint into none |
| Endpoints.EndpointWithSpaceIsSplit | src/main.cpp:192-204 | an endpoint holding a space comes back split: `["a b", "c"]` is written as "a b c" and read back as `["a", "b", "c"]` |
| Endpoints.SingleEndpointIsLost | src/main.cpp:204 | the one-endpoint entry "tcp://127.0.0.1:8080" reads back as no endpoints |
| Endpoints.JoinSplitIntended | src/main.cpp:186-207 | with the intended splitter, writing then reading gives back every non-empty list of non-empty, space-free endpoints |
| Endpoints.MergeEndpoints | src/main.cpp:292-316 | the two loops produce the config endpoints, then the command-line endpoints, each appended only when not yet present |
| Endpoints.MergeAppend | src/main.cpp:293-316 | the second loop continues the first: merging config then command line is merging their concatenation |
| Endpoints.MergePrefix | src/main.cpp:299-304 | `emplace_back` only appends: the list built so far is a prefix of the result |
| Endpoints.MergeNoDuplicates | src/main.cpp:300-303 | the `std::find` guard keeps a duplicate-free list free of duplicates |
| Endpoints.MergeElements | src/main.cpp:299-315 | the result holds exactly the endpoints of both inputs |
| Endpoints.MergeShape | src/main.cpp:293-316 | starting from a duplicate-free list: prefix, no duplicates, and exactly the input endpoints, together |
| Endpoints.FirstIndex | src/main.cpp:300-301 | `std::find`: the first position holding the value |
| Endpoints.FirstIndexSkip | src/main.cpp:310-315 | skipping a command-line endpoint that is already present shifts later first occurrences by one and keeps their order |
| Endpoints.MergeOrder | src/main.cpp:293-316 | starting from a duplicate-free list, the merged list orders its endpoints by first occurrence in the concatenated input |
| Endpoints.MergedEndpoints | src/main.cpp:293-316 | config endpoints come first, there are no duplicates, every input endpoint appears, and order follows first occurrence in config then command line |
| Endpoints.MergeDistinct | src/main.cpp:299-304 | merging endpoints that are already distinct keeps them unchanged and in order |
| Startup.DefaultSocketPath | src/main.cpp:274-290 | /run/user/<uid>/otagent.sock if that directory is owner-writable, else /tmp/user/<uid>/otagent.sock if that one is, else empty |
| Startup.ChosenSocketPath | src/main.cpp:258-290 | a non-empty command-line path wins; a present but empty one discards the config path and the default probe is used; without a command-line path a non-empty config path is used, and an empty one gives the default probe; the result is empty only if no default directory is writable |
| Startup.SavedSocketPath | src/main.cpp:400-404 | the path written back is the config path if it was non-empty, otherwise the path chosen for this run |
| Startup.SavedSocketPathIsSticky | src/main.cpp:258-259 | once a non-empty path is saved, later runs save it again and, without a command-line path, use it |
| Startup.Resolve | src/main.cpp:255-414 | the saved section repeats the resolved counts, keeps a non-empty config socket path, is non-empty whenever the chosen path is, and has an endpoint entry iff the merged list is non-empty |
| Startup.ResolvedEndpoints | src/main.cpp:292-316 | the resolved endpoints have no duplicates and are exactly those of the config file and the command line |
| Startup.Startup | src/main.cpp:255-414 | main's settings resolution (lines 255-316) and the section it writes back (lines 396-414) equal `Resolve`; the key-pair steps in between are not modelled |
| Startup.ReloadVariables | src/main.cpp:242 | the next run's variables, read from the section written at src/main.cpp:396-419, hold exactly the three config keys plus the endpoint key when an entry was written |
| Startup.ReloadedValues | src/main.cpp:396-416 | reading the written section back yields well-typed config values equal to the saved ones, with no command-line values |
| Startup.RestartFromSavedSettings | src/main.cpp:396-419 | a restart from the written file keeps the counts (raised to 0 if negative) and the saved socket path; for non-empty, space-free endpoints it keeps them unless there was exactly one, which is lost |
| Agent.ReadIni | src/Agent.cpp:127-133 | a readable file gives its tree; a read error leaves the tree empty |
| Agent.Incremented | src/Agent.cpp:135-139 | fails iff the section or entry is missing; otherwise that entry is raised by one and every other entry and section is unchanged |
| Agent.CounterFor | src/Agent.cpp:73-114 | ADDCLIENTSESSION selects the client counter, ADDSERVERSESSION the server counter, every other type none |
| Agent.AfterResponse | src/Agent.cpp:73-79 | handling a response never creates or loses the file, leaves it as it was for a type without a counter, and keeps its set of sections |
| Agent.ResponseDispatch | src/Agent.cpp:73-114 | when the otagent section holds both counters, a client-session response raises only the client counter; a server-session response raises only the server counter; anything else leaves the file as it was |
| Agent.MissingCounterWritesNothing | src/Agent.cpp:129-136 | an unreadable file, a missing section or a missing entry means nothing is written |
| Agent.ReplayCounts | src/Agent.cpp:126-156 | when the otagent section holds both counters and no counter passes INT64_MAX, after a sequence of responses each counter has grown by the number of matching session-adding responses, with no update lost, and other sections are untouched |
| Agent.SavedTreeHasCounters | src/main.cpp:396-399 | the section main writes holds both counters, so the agent's updates on it succeed |
| Agent.Count | src/Agent.cpp:52-58 | a non-positive count starts no instance; a positive count starts that many |
| Agent.Agent.Addresses | src/Agent.cpp:42-50 | the bind order: `"ipc://" + socket_path` first, then each endpoint |
| Agent.Agent.constructor | src/Agent.cpp:23-59 | needs a non-empty socket path; binds the addresses in order up to the first refused one; if all bind, starts servers 0..servers-1 then clients 0..clients-1, and none for a non-positive count |
| Agent.Agent.UpdateCounter | src/Agent.cpp:126-140 | reads the file, raises `otagent.<key>` by one and rewrites the tree it read; writes nothing on a missing section or entry |
| Agent.Agent.UpdateClients | src/Agent.cpp:126-140 | the settings file becomes the client-incremented tree, or stays as it was when get_child fails |
| Agent.Agent.UpdateServers | src/Agent.cpp:142-156 | the settings file becomes the server-incremented tree, or stays as it was when get_child fails |
| Agent.Agent.ReplyHandler | src/Agent.cpp:63-66 | as written, no request is ever answered: with a frame the assertion fails; with none, reading frame 0 fails (throws or aborts) |
| Agent.Agent.HandleRequest | src/Agent.cpp:63-122 | with the intended assertion, the RPC answer for frame 0 updates the file as the dispatch says and is replied, unless the counter update fails |

## Findings

| source | as written | input that shows it | evidently intended | confidence | as-written member | corrected member |
|---|---|---|---|---|---|---|
| src/main.cpp:204 | the last piece is added only when `0 < start`, so a string with no space yields no items | the entry main writes for a single endpoint (lines 408-413), e.g. "tcp://127.0.0.1:8080", reads back as zero endpoints | a non-empty string without a space is one item (`SplitIntended`) | high; not executed | Endpoints.SingleEndpointIsLost | Endpoints.JoinSplitIntended |
| src/Agent.cpp:64 | `OT_ASSERT(1 > message.Body().size())` admits only a body without frames, and line 66 then reads frame 0 | any request: one or more frames fail the assertion; zero frames make `at(0)` fail (throw or abort) | assert at least one frame (`0 < size`) | high; not executed | Agent.Agent.ReplyHandler | Agent.Agent.HandleRequest |

`Startup.Startup` and `Startup.RestartFromSavedSettings` deliberately keep the as-written splitter. That way the model of `main` stays faithful and shows the lost endpoint end to end. The corrected splitter `Endpoints.SplitIntended` and its round trip stand beside it.

## Left out

- Process-wide option singletons (src/main.cpp:55-141) are replaced by the `Variables` map passed in. `config_options()` tests `options_` instead of `config_options_` at src/main.cpp:93. In `main`'s order, `read_config_options` (line 242) runs before `read_options` (line 243) creates `options_`. Each `config_options()` call made while `options_` is still null therefore allocates a fresh `config_options_` and leaks the previous one; the call in the error path at line 164 is one such call. This is not modelled.
- Option parsing (`read_options`, `read_config_options`) and all file I/O are abstract. Parsed options arrive as a well-typed `Variables` map, and the section `main` writes is a `SavedSection` value. The agent's settings file is the field `settingsFile`. Write failures are not modelled.
- `find_home` is not modelled: it reads the environment and the password database. `OT::Start` and the log-endpoint argument are left out too.
- The `fs::status` permission probes are input booleans in `Environment`, and the user id is an input string.
- Key-pair generation, decoding and the key JSON file (src/main.cpp:318-394) are crypto and I/O.
- ZeroMQ sockets, `dealer_handler`, `router_handler`, protobuf encoding and decoding, and building the reply message are foreign calls. `app_.RPC` is the parameter `rpc`, which maps the request frame to the response type. A reply is represented only by `Replied(type)`.
- src/Agent.hpp declares a task map, a nym map, a ZAP handler and push/subscriber machinery, but no bodies are available, so they are not part of this model. Its 11-parameter constructor differs from the 6-parameter one in src/Agent.cpp, which is the one modelled. The call in src/main.cpp:420-432 targets the 11-parameter version and is not modelled.
- Signal handling, `OT::Join` and concurrency between the agent's socket threads are not modelled. Each handler runs as one atomic step.
- Startup.RestartFromSavedSettings: holds only for non-empty, space-free endpoints. A command-line endpoint is a separate token and may hold a space (src/main.cpp:81, 307-309). main joins the list with spaces (src/main.cpp:408-413), so after a restart such an endpoint comes back split into several (`Endpoints.EndpointWithSpaceIsSplit`).
- Startup.ReloadVariables: treats writing the section with `write_ini` and reading it back with `parse_config_file` as lossless. boost's config-file parser trims blanks around a value and starts a comment at `#`, so a socket path or endpoint entry containing `#` or surrounding blanks does not come back unchanged. `Startup.RestartFromSavedSettings` inherits this assumption.
- Types.Inc64: `++` on INT64_MAX is undefined behaviour in C++; the model takes the two's-complement wrap-around.
- Agent.Incremented: the settings tree holds only int64 entries. The string entries (`socket-path`, `endpoint`) are not represented, and neither is the `ptree_bad_data` error of `get_value` on a non-numeric counter.
- Agent.Agent.constructor: whether an address binds is the input set `bindable`. A refused bind ends construction with `aborted` set and no session started; in the source the process stops. `StartServer`/`StartClient` are recorded only as the ordered list `started`. The start loops at src/Agent.cpp:52 and :56 count with `auto i = 0`, an `int`; for a count above 2^31-1, `++i` overflows (undefined behaviour) before reaching the count. The model starts all `Agent.Count(n)` instances, as if the counter were unbounded.
- Agent.Count: takes the loop counter as unbounded, not as the 32-bit `int` of src/Agent.cpp:52 and :56.
- The `RPCCOMMAND_*` types other than the two session-adding ones share one branch. They are represented by `Error` and `OtherCommand(code)`.
