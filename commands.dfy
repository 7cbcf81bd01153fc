/**
 * What the `ban` and `restart` handlers of package `commands` share: the
 * configuration they read, the guild's server list, the errors they report,
 * the confirmation records they store, the server-selection loop (identical
 * in both handlers), and the in-memory index of messages awaiting a reaction.
 *
 * Every collaborator whose code is not part of this model (the guild-config
 * service, the chat transport, the role checks, the cache) is represented by
 * the answer it gives, gathered in `Env`; the handlers report the calls they
 * make to them, in order, as a sequence of `Call` values.
 */
module Commands {
  import opened Wrappers
  import opened GoInt
  import opened GoStrconv

  /** A command's configuration: its name and the accepted number of arguments. */
  datatype Command = Command(name: string, minArgs: int, maxArgs: int)

  /** The parts of an incoming chat message the handlers read. */
  datatype MessageCreate = MessageCreate(content: string, authorId: string, authorName: string)

  /** A game server of the guild, as the guild-config service lists it. */
  datatype Server = Server(id: int, nitradoId: Int64, name: string, enabled: bool)

  /** The emoji that confirms a command. */
  datatype ReactionConfig = ReactionConfig(name: string, id: string, fullEmoji: string)

  /** A cache namespace and its time-to-live, both configured as text. */
  datatype CacheSetting = CacheSetting(base: string, ttl: string)

  datatype Config = Config(
    reactions: map<string, ReactionConfig>,
    banReaction: CacheSetting,
    restartReaction: CacheSetting)

  /** The errors a handler reports to the channel; `External` carries a collaborator's own message. */
  datatype Error =
    | InvalidArgumentCount(given: int, min: int, max: int)
    | MissingPlayerName
    | Unauthorized
    | NoServers(message: string)
    | MissingReactions(command: string)
    | NoOutputMessages
    | TtlNotInt(message: string)
    | External(message: string)

  datatype Reaction = Reaction(name: string, id: string)
  datatype User = User(id: string, name: string)
  datatype ServerRef = ServerRef(id: int)

  /** The confirmation record written to the cache. */
  datatype PendingReaction =
    | RestartReaction(reactions: seq<Reaction>, user: User, message: string, servers: seq<ServerRef>)
    | BanReaction(playerName: string, reactions: seq<Reaction>, user: User, servers: seq<ServerRef>)

  /** An entry of the in-memory index: when it expires, which reactions confirm it, for which command and user. */
  datatype MessageAwaitingReaction = MessageAwaitingReaction(
    expires: Int64,
    reactions: seq<string>,
    commandName: string,
    user: string)

  /** The index of messages awaiting a confirming reaction, keyed by message ID. */
  class MessagesAwaitingReaction {
    var messages: map<string, MessageAwaitingReaction>
  }

  /** A rendered embed field. */
  datatype EmbedField = EmbedField(name: string, value: string)

  /** The answers the collaborators give during one handler run. */
  datatype Env = Env(
    guildFeed: Result<seq<Server>, string>,  // GetGuildFeed: the guild's servers
    validation: Option<string>,              // ValidateGuildFeed: an error message, if any
    approved: bool,                          // IsApproved for the command and the member's roles
    admin: Result<bool, string>,             // IsAdmin
    output: Result<seq<string>, string>,     // Output: the IDs of the messages posted
    addReaction: Option<string>,             // AddReaction: an error message, if any
    setCache: Option<string>)                // Cache.SetStruct: an error message, if any

  /** A call to a collaborator, with the arguments that matter. */
  datatype Call =
    | GetGuildFeed
    | ValidateGuildFeed
    | IsApproved
    | IsAdmin
    | Output(field: EmbedField)
    | AddReaction(messageId: string, emoji: string)
    | SetCache(base: string, messageId: string, ttl: string, record: PendingReaction)

  /** The number of arguments is within the command's configured bounds. */
  predicate ArgCountAccepted(command: Command, n: int)
  {
    command.minArgs <= n <= command.maxArgs
  }

  /** A write into the awaiting-reaction index. */
  datatype Registration = Registration(messageId: string, entry: MessageAwaitingReaction)

  /**
   * What one handler run does: the error it reports (with `ErrorOutput`, as
   * its last action), if any; the collaborator calls it made before, in order;
   * and its write into the awaiting-reaction index, if any.
   */
  datatype Outcome = Outcome(failure: Option<Error>, calls: seq<Call>, registered: Option<Registration>)

  /** A run that stops after `calls` by reporting `err`; nothing is registered. */
  function Fail(calls: seq<Call>, err: Error): Outcome
  {
    Outcome(Some(err), calls, None)
  }

  /** A run that made the calls `before` and then went on as `rest`. */
  function Then(before: seq<Call>, rest: Outcome): Outcome
  {
    Outcome(rest.failure, before + rest.calls, rest.registered)
  }

  /** The index after a run's write, if it made one. */
  function Apply(messages: map<string, MessageAwaitingReaction>, registered: Option<Registration>)
    : map<string, MessageAwaitingReaction>
  {
    match registered
    case None => messages
    case Some(Registration(id, entry)) => messages[id := entry]
  }

  /** A registration sets its own key and leaves every other key of the index as it was. */
  lemma RegistrationTouchesOnlyItsKey(messages: map<string, MessageAwaitingReaction>, r: Registration)
    ensures r.messageId in Apply(messages, Some(r)) && Apply(messages, Some(r))[r.messageId] == r.entry
    ensures forall k :: k != r.messageId ==>
      (k in Apply(messages, Some(r)) <==> k in messages)
      && (k in messages ==> Apply(messages, Some(r))[k] == messages[k])
  {
  }

  /** The server IDs the cached confirmation record lists. */
  function ServerRefs(servers: seq<Server>): seq<ServerRef>
  {
    seq(|servers|, i requires 0 <= i < |servers| => ServerRef(servers[i].id))
  }

  /**
   * The calls up to and including the authorization gate, the same in both
   * handlers: the admin check is made only when guild approval fails.
   */
  function GateCalls(env: Env): (calls: seq<Call>)
    ensures IsAdmin in calls <==> !env.approved
    ensures 3 <= |calls| && calls[..3] == [GetGuildFeed, ValidateGuildFeed, IsApproved]
  {
    [GetGuildFeed, ValidateGuildFeed, IsApproved] + (if env.approved then [] else [IsAdmin])
  }

  /** The guild approves the command, or else the member is an admin. */
  predicate Authorized(env: Env)
  {
    env.approved || env.admin == Ok(true)
  }

  /** The enabled servers, in list order. */
  function Enabled(servers: seq<Server>): seq<Server>
  {
    if servers == [] then []
    else (if servers[0].enabled then [servers[0]] else []) + Enabled(servers[1..])
  }

  /** The first enabled server whose Nitrado ID is `id`, if there is one. */
  function FirstEnabledWithId(servers: seq<Server>, id: int): seq<Server>
  {
    if servers == [] then []
    else if servers[0].enabled && servers[0].nitradoId == id then [servers[0]]
    else FirstEnabledWithId(servers[1..], id)
  }

  /** The servers a command targets: all enabled ones, or with a server ID the first enabled match. */
  function Selection(servers: seq<Server>, serverId: int): seq<Server>
  {
    if serverId == 0 then Enabled(servers) else FirstEnabledWithId(servers, serverId)
  }

  lemma {:induction false} EnabledAppend(a: seq<Server>, b: seq<Server>)
    ensures Enabled(a + b) == Enabled(a) + Enabled(b)
    decreases |a|
  {
    if a == [] {
      assert a + b == b;
    } else {
      var head := if a[0].enabled then [a[0]] else [];
      assert (a + b)[0] == a[0] && (a + b)[1..] == a[1..] + b;
      assert Enabled(a + b) == head + Enabled(a[1..] + b);
      EnabledAppend(a[1..], b);
      assert Enabled(a) == head + Enabled(a[1..]);
      assert head + (Enabled(a[1..]) + Enabled(b)) == (head + Enabled(a[1..])) + Enabled(b);
    }
  }

  lemma {:induction false} FirstEnabledWithIdAppend(a: seq<Server>, b: seq<Server>, id: int)
    ensures FirstEnabledWithId(a + b, id)
      == if FirstEnabledWithId(a, id) != [] then FirstEnabledWithId(a, id) else FirstEnabledWithId(b, id)
    decreases |a|
  {
    if a == [] {
      assert a + b == b;
    } else {
      assert (a + b)[1..] == a[1..] + b;
      FirstEnabledWithIdAppend(a[1..], b, id);
    }
  }

  /** Selection keeps exactly the enabled servers of the list. */
  lemma {:induction false} EnabledMembers(servers: seq<Server>, s: Server)
    ensures s in Enabled(servers) <==> s in servers && s.enabled
    decreases |servers|
  {
    if servers != [] {
      EnabledMembers(servers[1..], s);
      assert servers == [servers[0]] + servers[1..];
    }
  }

  /** With a server ID, selection is at most one server: the first enabled one with that Nitrado ID. */
  lemma {:induction false} FirstEnabledWithIdIsFirst(servers: seq<Server>, id: int)
    ensures |FirstEnabledWithId(servers, id)| <= 1
    ensures FirstEnabledWithId(servers, id) == []
      <==> forall i :: 0 <= i < |servers| ==> !(servers[i].enabled && servers[i].nitradoId == id)
    ensures FirstEnabledWithId(servers, id) != [] ==>
      exists i :: 0 <= i < |servers| && FirstEnabledWithId(servers, id) == [servers[i]]
        && servers[i].enabled && servers[i].nitradoId == id
        && forall j :: 0 <= j < i ==> !(servers[j].enabled && servers[j].nitradoId == id)
    decreases |servers|
  {
    if servers != [] {
      var tail := servers[1..];
      FirstEnabledWithIdIsFirst(tail, id);
      if !(servers[0].enabled && servers[0].nitradoId == id) {
        if FirstEnabledWithId(tail, id) != [] {
          var i :| 0 <= i < |tail| && FirstEnabledWithId(tail, id) == [tail[i]]
            && tail[i].enabled && tail[i].nitradoId == id
            && forall j :: 0 <= j < i ==> !(tail[j].enabled && tail[j].nitradoId == id);
          assert servers[i + 1] == tail[i];
          assert forall j :: 0 <= j < i + 1 ==> !(servers[j].enabled && servers[j].nitradoId == id) by {
            forall j | 0 <= j < i + 1
              ensures !(servers[j].enabled && servers[j].nitradoId == id)
            {
              if j > 0 { assert servers[j] == tail[j - 1]; }
            }
          }
        } else {
          forall i | 0 <= i < |servers|
            ensures !(servers[i].enabled && servers[i].nitradoId == id)
          {
            if i > 0 { assert servers[i] == tail[i - 1]; }
          }
        }
      }
    }
  }

  /**
   * The selection loop of both handlers: skip disabled servers; with a server
   * ID stop at the first enabled match; otherwise collect every enabled server.
   */
  method SelectServers(guildServers: seq<Server>, serverId: Int64) returns (servers: seq<Server>)
    ensures servers == Selection(guildServers, serverId)
  {
    servers := [];
    var i := 0;
    while i < |guildServers|
      invariant 0 <= i <= |guildServers|
      invariant serverId == 0 ==> servers == Enabled(guildServers[..i])
      invariant serverId != 0 ==> servers == [] && FirstEnabledWithId(guildServers[..i], serverId) == []
    {
      var aServer := guildServers[i];
      EnabledAppend(guildServers[..i], [aServer]);
      FirstEnabledWithIdAppend(guildServers[..i], [aServer], serverId);
      assert guildServers[..i + 1] == guildServers[..i] + [aServer];
      if !aServer.enabled {
        i := i + 1;
        continue;
      }
      if serverId != 0 {
        if serverId == aServer.nitradoId {
          servers := servers + [aServer];
          FirstEnabledWithIdAppend(guildServers[..i + 1], guildServers[i + 1..], serverId);
          assert guildServers[..i + 1] + guildServers[i + 1..] == guildServers;
          break;
        }
        i := i + 1;
        continue;
      }
      servers := servers + [aServer];
      i := i + 1;
    }
    assert guildServers[..|guildServers|] == guildServers;
  }

  /** The loop that lists the selected servers' IDs in the confirmation record. */
  method CollectServerRefs(servers: seq<Server>) returns (refs: seq<ServerRef>)
    ensures |refs| == |servers|
    ensures forall i :: 0 <= i < |servers| ==> refs[i] == ServerRef(servers[i].id)
    ensures refs == ServerRefs(servers)
  {
    refs := [];
    for i := 0 to |servers|
      invariant |refs| == i
      invariant forall k :: 0 <= k < i ==> refs[k] == ServerRef(servers[k].id)
    {
      refs := refs + [ServerRef(servers[i].id)];
    }
  }
}
