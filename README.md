# Ban and restart command handlers, modelled in Dafny

This project models the two disruptive commands of a Discord bot that manages
Nitrado game servers: `ban` (ban a player) and `restart` (restart servers).
Neither command acts on its own. Each handler parses its arguments, checks the
guild's configuration and the member's authorization, selects the target
servers, and posts a confirmation prompt carrying a reaction. It then caches the
pending action and registers the prompt in the in-memory index
`MessagesAwaitingReaction.Messages`, where a later reaction can confirm it.

Modules, one per concept:

- `Wrappers`: `Option` and `Result`, used for Go's `(value, error)` pairs.
- `GoInt`: int64 bounds, and `+` with two's-complement wrap-around (`AddWrap`).
- `GoStrings`: `strings.Split(s, " ")` and `strings.Join(parts, " ")`,
  and where the first space of a text falls.
- `GoStrconv`: `strconv.ParseInt(s, 10, 64)`, with the value Go returns on
  error, and `strconv.FormatInt` (what `%d` prints).
- `Commands`: what both handlers share. This covers the configuration,
  servers, errors, cached records, the awaiting-reaction index (a class with a
  `map` field), the server-selection loop and the server-ID loop. Both Go
  files contain these two loops, identically.
- `RestartServer` and `BanPlayer`: one module per source file. Each holds the
  parser, `ConvertToEmbedField`, and the handler.

Every collaborator whose code is not shown is an oracle answer in an `Env`
value: the guild-config service, the Discord transport, `IsApproved`, `IsAdmin`
and the cache. The handler's method reports the calls it makes to them, in
order. `time.Now().Unix()` is the parameter `now`.

Each handler is an imperative method (`RestartServer.RestartServer`,
`BanPlayer.BanPlayer`) with the source's early returns. The method calls the
selection loop and the server-ID loop. On success it writes the index map field
in place. It is proved equal to a pure step-by-step specification
(`RestartRun` / `BanRun`). The properties are lemmas about that
specification: the step order, the authorization gate, when the index is
written, and what the entry holds.

Behaviours of the code worth knowing, all modelled as written:

- **Splitting is on single spaces.** Runs of spaces give empty arguments, and
  a text ending in a space has an empty last argument. Tabs and newlines are
  not separators, so they stay inside an argument. So `ban ` parses to an
  empty account name on all servers instead of an error
  (`BanTrailingSpaceIsEmptyName`).
- **A bad ban server ID is kept.** When the first ban argument is not an int64,
  the server ID is still whatever `ParseInt` returned. That is 0 for ordinary
  text. For a number too large for int64 it is the int64 bound, so the ban can
  only target a server with that Nitrado ID (`BanOverlongNumberKeepsBound`).
  The restart parser resets the ID to 0 in that case. The bound is kept even
  when the long number is followed by other characters, as in
  `ban 99999999999999999999x`, because ParseInt reports the overflow before it
  reaches the letter (`BanOverflowingPrefixKeepsBound`).
- **The restart cache uses the ban TTL.** The restart handler writes its cache
  entry under the restart base but with the ban reaction's TTL. Its index
  entry expires after the restart reaction's TTL.
- **The cache write is the last collaborator call.** It comes after the
  prompt is posted and its reaction added. The TTL text is parsed again on
  every invocation, after the cache write, so an unparsable TTL leaves a cache
  entry behind but no index entry.

## Model

| member | source | states |
|---|---|---|
| GoStrings.Split | interactions/commands/restart-server.go:213 | the split always has at least one piece, and no piece contains a space |
| GoStrings.SplitCount | interactions/commands/restart-server.go:215 | there is one more piece than spaces, so the argument count is the number of spaces in the text |
| GoStrings.JoinSplit | interactions/commands/restart-server.go:234 | joining the pieces with single spaces gives back exactly the original text |
| GoStrings.SplitJoin | interactions/commands/ban-player.go:226 | splitting a join of space-free pieces gives back the pieces |
| GoStrings.SplitJoinTail | interactions/commands/restart-server.go:230-242 | piece 1 is the word after the first space; joining from piece 1 gives the exact text after the first space, and joining from piece 2 gives the text after the second space; there are exactly two pieces iff that text has no space |
| GoStrconv.ParseInt64Succeeds | interactions/commands/restart-server.go:230 | ParseInt reports no error iff the token is an optional sign followed by only digits within int64 range, and then it returns that value |
| GoStrconv.ParseInt64RejectsNonDigit | interactions/commands/restart-server.go:230-231 | a token with any non-digit after the sign (such as a name starting with digits) is an error |
| GoStrconv.ParseInt64Overflow | interactions/commands/ban-player.go:224 | an all-digit token outside int64 range is a range error whose value is the int64 bound of its sign |
| GoStrconv.ParseInt64OverflowBeforeNonDigit | interactions/commands/ban-player.go:224 | digits beyond 64 bits followed by anything are a range error with the int64 bound of the sign, not a syntax error |
| GoStrconv.FormatParseRoundTrip | interactions/commands/restart-server.go:264 | ParseInt reads back exactly the int64 that `%d` prints |
| GoStrconv.FormatNatInjective | interactions/commands/restart-server.go:264 | different counts print as different digit strings |
| GoInt.AddWrap | interactions/commands/restart-server.go:202 | the expiry `now + ttl` is the int64 sum: the exact sum when in range, otherwise the sum wrapped by 2^64 |
| Commands.SelectServers | interactions/commands/restart-server.go:81-96 | the loop (also ban-player.go:81-96) returns all enabled servers in list order when the server ID is 0; otherwise it returns the first enabled server with that Nitrado ID, or nothing |
| Commands.EnabledMembers | interactions/commands/restart-server.go:83-85 | a server is selected with ID 0 iff it is in the list and enabled |
| Commands.EnabledAppend | interactions/commands/restart-server.go:82-95 | selection with ID 0 keeps list order: selecting from a concatenation gives the concatenated selections |
| Commands.FirstEnabledWithIdIsFirst | interactions/commands/restart-server.go:87-92 | with an ID, at most one server is selected; it is empty iff no enabled server has that Nitrado ID; otherwise it is the first enabled match |
| Commands.CollectServerRefs | interactions/commands/restart-server.go:130-134 | the record's server list has one entry per selected server, holding that server's ID, in order |
| Commands.GateCalls | interactions/commands/restart-server.go:49-79 | the gate (also ban-player.go:49-79) always fetches the feed, validates it and asks for guild approval, in that order; it calls the admin check iff approval fails |
| Commands.RegistrationTouchesOnlyItsKey | interactions/commands/restart-server.go:201 | the index write sets its own message ID and leaves every other key as it was |
| RestartServer.ParseRestartServerCommand | interactions/commands/restart-server.go:212-254 | the only error the restart parser returns is the argument-count error |
| RestartServer.RestartArgumentCount | interactions/commands/restart-server.go:213-220 | parsing fails iff the number of spaces is outside the bounds [MinArgs, MaxArgs], and the error carries that count and the bounds |
| RestartServer.RestartNoArguments | interactions/commands/restart-server.go:222-228 | no arguments give server ID 0 and "A restart has been requested by <username> on Discord" |
| RestartServer.RestartMessageOnly | interactions/commands/restart-server.go:230-237 | a first argument that is not an int64 gives server ID 0 and exactly the text after the first space as the message |
| RestartServer.RestartServerAndMessage | interactions/commands/restart-server.go:239-246 | an int64 first argument followed by more text gives that server ID and exactly the text after the second space |
| RestartServer.RestartServerOnly | interactions/commands/restart-server.go:248-253 | an int64 as the only argument gives that server ID and the default "requested by" message |
| RestartServer.ConvertToEmbedField | interactions/commands/restart-server.go:257-276 | the name names the one server, or else the server count; the value is never the placeholder; it is the fixed prefix, then exactly the restart message, then a blank line (`\n\n`) |
| RestartServer.EmbedNameCountsServers | interactions/commands/restart-server.go:261-265 | two prompts for other than one server have the same name only if they target the same number of servers |
| RestartServer.RestartRegistersOnlyOnSuccess | interactions/commands/restart-server.go:157-206 | the run succeeds iff every step succeeds, and registers an entry iff it succeeds; the entry is keyed by the first posted message ID, expires at now + restart TTL, and holds the single restart reaction ID, the command name and the author |
| RestartServer.RestartAuthorizationGate | interactions/commands/restart-server.go:66-79 | the admin check is made iff the earlier steps passed and guild approval failed; an admin-check error or a false answer ends the run right at the gate, with that error or "Unauthorized" |
| RestartServer.RestartNoTargets | interactions/commands/restart-server.go:98-104 | an empty selection ends the run after the gate with "Unable to find servers to restart" and writes nothing |
| RestartServer.RestartMissingReaction | interactions/commands/restart-server.go:106-112 | a missing "restart" reaction config ends the run before any output, cache write or index write |
| RestartServer.RestartPromptOrder | interactions/commands/restart-server.go:106-164 | the prompt is posted only if every earlier step passed, as the first call after the gate, showing the selected servers and the message |
| RestartServer.RestartCacheOrder | interactions/commands/restart-server.go:173-190 | the cache is written only after the reaction is added to the first posted message; it uses the restart base and the ban TTL, and holds the reaction, the author, the message and the selected server IDs |
| RestartServer.RestartServer | interactions/commands/restart-server.go:40-209 | the handler reports the run's error, makes the run's calls in order, and changes the index only by the run's one registration |
| BanPlayer.ParseBanPlayerCommand | interactions/commands/ban-player.go:213-242 | the ban parser fails only with the argument-count error or "Missing player account name"; it needs the first argument to exist after the count check, because it reads that argument without looking |
| BanPlayer.BanArgumentCount | interactions/commands/ban-player.go:214-221 | the argument-count error occurs iff the number of spaces is outside the bounds [MinArgs, MaxArgs], and it carries that count and the bounds |
| BanPlayer.BanNameOnly | interactions/commands/ban-player.go:224-226 | a first argument that is not an int64 gives exactly the text after the first space as the name, and ParseInt's value as the server ID, which is 0 for non-numeric text |
| BanPlayer.BanServerAndName | interactions/commands/ban-player.go:227-228 | an int64 first argument followed by more text gives that server ID and exactly the text after the second space as the name |
| BanPlayer.BanMissingName | interactions/commands/ban-player.go:229-234 | an int64 as the only argument fails with "Missing player account name" |
| BanPlayer.BanOverlongNumberKeepsBound | interactions/commands/ban-player.go:224-226 | an all-digit first argument beyond int64 becomes the name, while the server ID is int64's maximum |
| BanPlayer.BanOverflowingPrefixKeepsBound | interactions/commands/ban-player.go:224-226 | a first argument whose digits overflow int64 before any other character becomes the name, while the server ID is int64's maximum |
| BanPlayer.BanTrailingSpaceIsEmptyName | interactions/commands/ban-player.go:214-241 | a command word followed by a single trailing space (such as `ban `) parses to the empty name on all servers, whenever one argument is accepted |
| BanPlayer.ConvertToEmbedField | interactions/commands/ban-player.go:245-264 | the value is always the zero-width space; the name is "<player> will be banned on " followed by the one server's name, or else "<n> servers" |
| BanPlayer.EmbedNameCountsServers | interactions/commands/ban-player.go:249-253 | for one player, two prompts for other than one server have the same name only if they target the same number of servers |
| BanPlayer.BanRegistersOnlyOnSuccess | interactions/commands/ban-player.go:157-207 | the run succeeds iff every step succeeds, and registers an entry iff it succeeds; the entry is keyed by the first posted message ID, expires at now + ban TTL, and holds the single ban reaction ID, the command name and the author |
| BanPlayer.BanAuthorizationGate | interactions/commands/ban-player.go:66-79 | the admin check is made iff the earlier steps passed and guild approval failed; its error or a false answer ends the run at the gate |
| BanPlayer.BanNoTargets | interactions/commands/ban-player.go:98-104 | an empty selection ends the run with "Unable to find servers to ban on" and writes no entry |
| BanPlayer.BanMissingReaction | interactions/commands/ban-player.go:106-112 | a missing "ban" reaction config ends the run before any output, cache write or index write |
| BanPlayer.BanPromptOrder | interactions/commands/ban-player.go:106-165 | the prompt is posted only if every earlier step passed, as the first call after the gate |
| BanPlayer.BanCacheOrder | interactions/commands/ban-player.go:174-191 | the cache is written only after the reaction is added to the first posted message; it uses the ban base and ban TTL, and holds the name, the reaction, the author and the selected server IDs |
| BanPlayer.BanPlayer | interactions/commands/ban-player.go:40-210 | the handler reports the run's error, makes the run's calls in order, and changes the index only by the run's one registration |

## Left out

- Discord transport: `c.Output`, `discordapi.AddReaction`, `c.ErrorOutput` and the session are oracles or results. An error is the handler's `failure` value, which `ErrorOutput` shows as the last action.
- Error texts: the messages `ErrorOutput` shows for each error are display text. Examples are the argument-count sentence, "Unauthorized to use this command", "Unable to find reactions for command" and "Failed to get output messages". The model keeps each error as an `Error` value and not as its text. The exceptions are messages that differ between the two handlers, such as "Unable to find servers to restart" and the TTL error, which are kept as the value's text.
- Embed strings: the embed title, description, footer, documentation URL and thumbnail choice are display text sent through the transport. So are the `Inline: false` flag and the wrapped Go `error` values behind each message.
- Guild-config service: `GetGuildFeed` and `ValidateGuildFeed` are oracle answers. The feed is reduced to its server list.
- `IsApproved` and `IsAdmin` are oracle answers, because their bodies are not part of this model.
- `CacheKey` and `Cache.SetStruct` are not modelled; their bodies are not part of this model. The cache call records its base, message ID, TTL text and record instead of a computed key.
- Reaction matching, the expiry sweep and executing a confirmed ban or restart are not in these files. Only the registration side is modelled.
- `time.Now()` is the parameter `now`. Logging, `zap` fields and `ctx` plumbing have no behaviour to model.
- Concurrency: nothing is locked around the shared index, and concurrent runs are not modelled. Each handler is one sequential method.
- `c.Output` renders each embeddable field through `ConvertToEmbedField`. The model records the rendered field in the `Output` call, since `c.Output`'s own code is not part of this model.
- `strconv.ParseInt` and `FormatInt` are Go standard-library code, not part of this repository. The model follows Go's implementation of them, not the wording of their documentation. The two differ on a token whose digits overflow 64 bits before a non-digit, such as `99999999999999999999x`. The implementation stops at the overflow and reports a range error with the int64 bound (`ParseInt64OverflowBeforeNonDigit`). The documentation's "invalid digits" rule would give a syntax error with 0.
- Go strings are bytes and the model's are characters. Splitting on the ASCII space is the same either way.
- Servers arrive as pointers in the feed. A nil entry, which would crash the loop, is not modelled.
- BanPlayer.ParseBanPlayerCommand: requires `FirstArgumentExists`, meaning the text has a space or zero arguments are refused. Otherwise the Go code indexes past the split result and panics (a command configured with MinArgs 0, given no arguments). The model does not represent that crash.
