/**
 * The `restart` command (interactions/commands/restart-server.go): parse the
 * optional server ID and restart message, check the guild feed and the
 * member's authorization, pick the target servers, post a confirmation
 * prompt with the restart reaction, cache the pending restart, and register
 * the prompt as awaiting that reaction.
 */
module RestartServer {
  import opened Wrappers
  import opened GoInt
  import opened GoStrings
  import opened GoStrconv
  import opened Commands

  datatype RestartServerCommandParams = RestartServerCommandParams(serverId: Int64, message: string)

  datatype RestartServerCommandConfirmationOutput =
    RestartServerCommandConfirmationOutput(servers: seq<Server>, message: string)

  /** The restart message used when the command gives none. */
  function RequestedBy(username: string): string
  {
    "A restart has been requested by " + username + " on Discord"
  }

  /**
   * `parseRestartServerCommand`: split the text on single spaces, check the
   * argument count, then read an optional leading server ID and the message.
   */
  function ParseRestartServerCommand(command: Command, mc: MessageCreate): (r: Result<RestartServerCommandParams, Error>)
    ensures r.Err? ==> r.error.InvalidArgumentCount?
  {
    var splitContent := Split(mc.content);
    var args := |splitContent| - 1;
    if args < command.minArgs || args > command.maxArgs then
      Err(InvalidArgumentCount(args, command.minArgs, command.maxArgs))
    else if |splitContent| == 1 then
      Ok(RestartServerCommandParams(0, RequestedBy(mc.authorName)))
    else
      var serverId := ParseInt64(splitContent[1]);
      if serverId.err.Some? then
        Ok(RestartServerCommandParams(0, Join(splitContent[1..])))
      else if |splitContent| > 2 then
        Ok(RestartServerCommandParams(serverId.value, Join(splitContent[2..])))
      else
        Ok(RestartServerCommandParams(serverId.value, RequestedBy(mc.authorName)))
  }

  /** The argument count is the number of spaces; outside the bounds parsing fails with that count. */
  lemma RestartArgumentCount(command: Command, mc: MessageCreate)
    ensures ParseRestartServerCommand(command, mc).Err? <==> !ArgCountAccepted(command, Spaces(mc.content))
    ensures !ArgCountAccepted(command, Spaces(mc.content)) ==>
      ParseRestartServerCommand(command, mc)
        == Err(InvalidArgumentCount(Spaces(mc.content), command.minArgs, command.maxArgs))
  {
    SplitCount(mc.content);
  }

  /** No arguments: every server, and the default message naming the requester. */
  lemma RestartNoArguments(command: Command, mc: MessageCreate)
    requires Space !in mc.content && ArgCountAccepted(command, 0)
    ensures ParseRestartServerCommand(command, mc)
      == Ok(RestartServerCommandParams(0, RequestedBy(mc.authorName)))
  {
    SplitShape(mc.content);
  }

  /** A first argument that is not an int64: every server, and the message is all the text after the first space. */
  lemma RestartMessageOnly(command: Command, mc: MessageCreate)
    requires Space in mc.content && ArgCountAccepted(command, Spaces(mc.content))
    requires !IsInt64Literal(Before(After(mc.content)))
    ensures ParseRestartServerCommand(command, mc)
      == Ok(RestartServerCommandParams(0, After(mc.content)))
  {
    SplitCount(mc.content);
    SplitJoinTail(mc.content);
    ParseInt64Succeeds(Before(After(mc.content)));
  }

  /** An int64 followed by more text: that server, and the message is all the text after the second space. */
  lemma RestartServerAndMessage(command: Command, mc: MessageCreate)
    requires Space in mc.content && ArgCountAccepted(command, Spaces(mc.content))
    requires IsInt64Literal(Before(After(mc.content))) && Space in After(mc.content)
    ensures ParseRestartServerCommand(command, mc)
      == Ok(RestartServerCommandParams(LiteralValue(Before(After(mc.content))), After(After(mc.content))))
  {
    SplitCount(mc.content);
    SplitJoinTail(mc.content);
    ParseInt64Succeeds(Before(After(mc.content)));
  }

  /** An int64 as the only argument: that server, and the default message. */
  lemma RestartServerOnly(command: Command, mc: MessageCreate)
    requires Space in mc.content && ArgCountAccepted(command, Spaces(mc.content))
    requires IsInt64Literal(After(mc.content)) && Space !in After(mc.content)
    ensures ParseRestartServerCommand(command, mc)
      == Ok(RestartServerCommandParams(LiteralValue(After(mc.content)), RequestedBy(mc.authorName)))
  {
    SplitCount(mc.content);
    SplitJoinTail(mc.content);
    ParseInt64Succeeds(After(mc.content));
  }

  const MessagePrefix: string := "**Restart Message:** "

  /** `ConvertToEmbedField`: the field naming the target and carrying the restart message. */
  function ConvertToEmbedField(output: RestartServerCommandConfirmationOutput): (field: EmbedField)
    ensures |output.servers| == 1 ==> field.name == "Confirm to restart server: " + output.servers[0].name
    ensures |output.servers| != 1 ==>
      field.name == "Confirm to restart " + FormatNat(|output.servers|) + " server(s)"
    ensures field.value != "​"
    ensures |field.value| == |MessagePrefix| + |output.message| + 2
    ensures field.value[..|MessagePrefix|] == MessagePrefix
    ensures field.value[|MessagePrefix|..|field.value| - 2] == output.message
    ensures field.value[|field.value| - 2..] == "\n\n"
  {
    var name :=
      if |output.servers| == 1 then "Confirm to restart server: " + output.servers[0].name
      else "Confirm to restart " + FormatInt(|output.servers|) + " server(s)";
    var fieldVal := MessagePrefix + output.message + "\n\n";
    EmbedField(name, if fieldVal == "" then "​" else fieldVal)
  }

  /** Confirmations for several servers have the same field name only when they target as many servers. */
  lemma EmbedNameCountsServers(a: RestartServerCommandConfirmationOutput, b: RestartServerCommandConfirmationOutput)
    requires |a.servers| != 1 && |b.servers| != 1
    requires ConvertToEmbedField(a).name == ConvertToEmbedField(b).name
    ensures |a.servers| == |b.servers|
  {
    var prefix := "Confirm to restart ";
    var suffix := " server(s)";
    var na := FormatNat(|a.servers|);
    var nb := FormatNat(|b.servers|);
    var name := ConvertToEmbedField(a).name;
    assert name == prefix + na + suffix;
    assert name == prefix + nb + suffix;
    assert |na| == |nb|;
    assert na == name[|prefix|..|prefix| + |na|];
    assert nb == name[|prefix|..|prefix| + |nb|];
    FormatNatInjective(|a.servers|, |b.servers|);
  }

  /** Parsing, fetching and validating the guild feed succeeded: the handler reaches the authorization gate. */
  predicate Screened(command: Command, mc: MessageCreate, env: Env)
  {
    ParseRestartServerCommand(command, mc).Ok? && env.guildFeed.Ok? && env.validation.None?
  }

  /** The servers the request selects from the guild feed. */
  function Targets(command: Command, mc: MessageCreate, env: Env): seq<Server>
    requires Screened(command, mc, env)
  {
    Selection(env.guildFeed.value, ParseRestartServerCommand(command, mc).value.serverId)
  }

  /** The handler gets as far as posting the confirmation prompt. */
  predicate Prompted(config: Config, command: Command, mc: MessageCreate, env: Env)
  {
    && Screened(command, mc, env)
    && Authorized(env)
    && Targets(command, mc, env) != []
    && "restart" in config.reactions
  }

  /** The prompt was posted, has an ID, and carries the confirming reaction. */
  predicate Reacted(config: Config, command: Command, mc: MessageCreate, env: Env)
  {
    && Prompted(config, command, mc, env)
    && env.output.Ok? && env.output.value != []
    && env.addReaction.None?
  }

  /** Every step succeeds. */
  predicate Completes(config: Config, command: Command, mc: MessageCreate, env: Env)
  {
    && Reacted(config, command, mc, env)
    && env.setCache.None?
    && ParseInt64(config.restartReaction.ttl).err.None?
  }

  /** The prompt field shown for the request. */
  function PromptField(command: Command, mc: MessageCreate, env: Env): EmbedField
    requires Screened(command, mc, env)
  {
    ConvertToEmbedField(RestartServerCommandConfirmationOutput(
      Targets(command, mc, env), ParseRestartServerCommand(command, mc).value.message))
  }

  /** The pending restart written to the cache. */
  function PendingRestart(config: Config, command: Command, mc: MessageCreate, env: Env): PendingReaction
    requires Prompted(config, command, mc, env)
  {
    var reaction := config.reactions["restart"];
    RestartReaction([Reaction(reaction.name, reaction.id)], User(mc.authorId, mc.authorName),
      ParseRestartServerCommand(command, mc).value.message, ServerRefs(Targets(command, mc, env)))
  }

  /**
   * What `RestartServer` does, step by step, up to the authorization gate;
   * a failing step ends the run with its error.
   */
  function RestartRun(config: Config, command: Command, mc: MessageCreate, env: Env, now: Int64): Outcome
  {
    var parsed := ParseRestartServerCommand(command, mc);
    if parsed.Err? then Fail([], parsed.error)
    else if env.guildFeed.Err? then Fail([GetGuildFeed], External(env.guildFeed.error))
    else if env.validation.Some? then Fail([GetGuildFeed, ValidateGuildFeed], External(env.validation.value))
    else if !env.approved && env.admin.Err? then Fail(GateCalls(env), External(env.admin.error))
    else if !env.approved && !env.admin.value then Fail(GateCalls(env), Unauthorized)
    else Then(GateCalls(env), RestartAfterGate(config, command, mc, env, now,
      parsed.value, Selection(env.guildFeed.value, parsed.value.serverId)))
  }

  /**
   * The steps after the gate. The cache entry is written with the restart
   * base but the BAN reaction's TTL, while the index entry expires after the
   * restart reaction's TTL, as in the handler.
   */
  function RestartAfterGate(
    config: Config, command: Command, mc: MessageCreate, env: Env, now: Int64,
    params: RestartServerCommandParams, servers: seq<Server>): Outcome
  {
    if servers == [] then Fail([], NoServers("Unable to find servers to restart"))
    else if "restart" !in config.reactions then Fail([], MissingReactions("restart"))
    else
      var reaction := config.reactions["restart"];
      var prompted := [Output(ConvertToEmbedField(RestartServerCommandConfirmationOutput(servers, params.message)))];
      if env.output.Err? then Fail(prompted, External(env.output.error))
      else if env.output.value == [] then Fail(prompted, NoOutputMessages)
      else
        var messageId := env.output.value[0];
        var reacted := prompted + [AddReaction(messageId, reaction.fullEmoji)];
        if env.addReaction.Some? then Fail(reacted, External(env.addReaction.value))
        else
          var record := RestartReaction([Reaction(reaction.name, reaction.id)],
            User(mc.authorId, mc.authorName), params.message, ServerRefs(servers));
          var cached := reacted + [SetCache(config.restartReaction.base, messageId, config.banReaction.ttl, record)];
          if env.setCache.Some? then Fail(cached, External(env.setCache.value))
          else
            var ttl := ParseInt64(config.restartReaction.ttl);
            if ttl.err.Some? then Fail(cached, TtlNotInt("Failed to convert reaction TTL to int64"))
            else Outcome(None, cached, Some(Registration(messageId,
              MessageAwaitingReaction(AddWrap(now, ttl.value), [reaction.id], command.name, mc.authorId))))
  }

  /**
   * The index is written exactly when every step succeeded, at the first
   * posted message's ID, expiring `now + ttl` (int64), confirmed by the single
   * restart reaction, for the command and its author.
   */
  lemma RestartRegistersOnlyOnSuccess(config: Config, command: Command, mc: MessageCreate, env: Env, now: Int64)
    ensures var o := RestartRun(config, command, mc, env, now);
      && (o.failure.None? <==> Completes(config, command, mc, env))
      && (o.registered.Some? <==> o.failure.None?)
      && (Completes(config, command, mc, env) ==>
            o.registered == Some(Registration(env.output.value[0], MessageAwaitingReaction(
              AddWrap(now, ParseInt64(config.restartReaction.ttl).value),
              [config.reactions["restart"].id], command.name, mc.authorId))))
  {
  }

  /** After the gate the handler only posts, reacts and writes the cache. */
  lemma AfterGateCalls(
    config: Config, command: Command, mc: MessageCreate, env: Env, now: Int64,
    params: RestartServerCommandParams, servers: seq<Server>)
    ensures var calls := RestartAfterGate(config, command, mc, env, now, params, servers).calls;
      forall i :: 0 <= i < |calls| ==> calls[i].Output? || calls[i].AddReaction? || calls[i].SetCache?
  {
  }

  /**
   * Authorization: the admin check is made only when guild approval fails;
   * its error, or a negative answer, ends the run before any server is
   * selected, anything is posted or the index is written.
   */
  lemma RestartAuthorizationGate(config: Config, command: Command, mc: MessageCreate, env: Env, now: Int64)
    ensures var o := RestartRun(config, command, mc, env, now);
      && (IsAdmin in o.calls <==> Screened(command, mc, env) && !env.approved)
      && (Screened(command, mc, env) && !Authorized(env) ==>
            o == Fail(GateCalls(env), if env.admin.Err? then External(env.admin.error) else Unauthorized))
  {
    var o := RestartRun(config, command, mc, env, now);
    if Screened(command, mc, env) && Authorized(env) {
      var parsed := ParseRestartServerCommand(command, mc).value;
      var rest := RestartAfterGate(config, command, mc, env, now, parsed, Targets(command, mc, env));
      AfterGateCalls(config, command, mc, env, now, parsed, Targets(command, mc, env));
      assert o.calls == GateCalls(env) + rest.calls;
      assert IsAdmin !in rest.calls;
    }
  }

  /** No enabled server matches: the run ends with "Unable to find servers to restart". */
  lemma RestartNoTargets(config: Config, command: Command, mc: MessageCreate, env: Env, now: Int64)
    requires Screened(command, mc, env) && Authorized(env) && Targets(command, mc, env) == []
    ensures RestartRun(config, command, mc, env, now)
      == Fail(GateCalls(env), NoServers("Unable to find servers to restart"))
  {
  }

  /** Without a "restart" reaction configured the run ends before anything is posted or written. */
  lemma RestartMissingReaction(config: Config, command: Command, mc: MessageCreate, env: Env, now: Int64)
    requires Screened(command, mc, env) && Authorized(env) && Targets(command, mc, env) != []
    requires "restart" !in config.reactions
    ensures RestartRun(config, command, mc, env, now) == Fail(GateCalls(env), MissingReactions("restart"))
  {
  }

  /** After the gate, the prompt is the first call, made once servers were selected and the reaction is configured. */
  lemma AfterGatePrompt(
    config: Config, command: Command, mc: MessageCreate, env: Env, now: Int64,
    params: RestartServerCommandParams, servers: seq<Server>)
    ensures var rest := RestartAfterGate(config, command, mc, env, now, params, servers);
      && (servers == [] || "restart" !in config.reactions ==> rest.calls == [])
      && (servers != [] && "restart" in config.reactions ==>
            |rest.calls| >= 1 && rest.calls[0] == Output(ConvertToEmbedField(RestartServerCommandConfirmationOutput(servers, params.message))))
  {
  }

  /** Step order: the prompt is posted only once every earlier step succeeded, right after the gate. */
  lemma RestartPromptOrder(config: Config, command: Command, mc: MessageCreate, env: Env, now: Int64)
    ensures var o := RestartRun(config, command, mc, env, now);
      && (!Prompted(config, command, mc, env) ==> forall i :: 0 <= i < |o.calls| ==> o.calls[i] in GateCalls(env))
      && (Prompted(config, command, mc, env) ==>
            |o.calls| > |GateCalls(env)| && o.calls[|GateCalls(env)|] == Output(PromptField(command, mc, env))
            && o.calls[..|GateCalls(env)|] == GateCalls(env))
  {
    var o := RestartRun(config, command, mc, env, now);
    if Screened(command, mc, env) && Authorized(env) {
      var parsed := ParseRestartServerCommand(command, mc).value;
      var rest := RestartAfterGate(config, command, mc, env, now, parsed, Targets(command, mc, env));
      AfterGatePrompt(config, command, mc, env, now, parsed, Targets(command, mc, env));
      assert o.calls == GateCalls(env) + rest.calls;
    }
  }

  /** After the gate: servers were selected, the prompt was posted with an ID and the reaction added. */
  predicate ReactionAdded(config: Config, env: Env, servers: seq<Server>)
  {
    servers != [] && "restart" in config.reactions && env.output.Ok? && env.output.value != [] && env.addReaction.None?
  }

  /** After the gate, the cache is written only once the prompt was posted and reacted to. */
  lemma AfterGateCache(
    config: Config, command: Command, mc: MessageCreate, env: Env, now: Int64,
    params: RestartServerCommandParams, servers: seq<Server>)
    ensures var rest := RestartAfterGate(config, command, mc, env, now, params, servers);
      && (!ReactionAdded(config, env, servers) ==> forall i :: 0 <= i < |rest.calls| ==> !rest.calls[i].SetCache?)
      && (ReactionAdded(config, env, servers) ==>
            var reaction := config.reactions["restart"];
            var id := env.output.value[0];
            rest.calls == [
              Output(ConvertToEmbedField(RestartServerCommandConfirmationOutput(servers, params.message))),
              AddReaction(id, reaction.fullEmoji),
              SetCache(config.restartReaction.base, id, config.banReaction.ttl,
                RestartReaction([Reaction(reaction.name, reaction.id)], User(mc.authorId, mc.authorName),
                  params.message, ServerRefs(servers)))])
  {
  }

  /**
   * Step order: the cache is written only after the reaction was added to
   * the first posted message, under the restart base and the ban TTL; a
   * completed run made exactly these calls.
   */
  lemma RestartCacheOrder(config: Config, command: Command, mc: MessageCreate, env: Env, now: Int64)
    ensures var o := RestartRun(config, command, mc, env, now);
      && (!Reacted(config, command, mc, env) ==> forall i :: 0 <= i < |o.calls| ==> !o.calls[i].SetCache?)
      && (Reacted(config, command, mc, env) ==>
            var id := env.output.value[0];
            o.calls == GateCalls(env) + [
              Output(PromptField(command, mc, env)),
              AddReaction(id, config.reactions["restart"].fullEmoji),
              SetCache(config.restartReaction.base, id, config.banReaction.ttl,
                PendingRestart(config, command, mc, env))])
  {
    var o := RestartRun(config, command, mc, env, now);
    if Screened(command, mc, env) && Authorized(env) {
      var parsed := ParseRestartServerCommand(command, mc).value;
      var rest := RestartAfterGate(config, command, mc, env, now, parsed, Targets(command, mc, env));
      AfterGateCache(config, command, mc, env, now, parsed, Targets(command, mc, env));
      assert o.calls == GateCalls(env) + rest.calls;
    }
  }

  /**
   * `RestartServer`: the fixed chain of steps, each of which ends the command
   * with an error output when it fails. The awaiting-reaction index changes
   * only by the run's one registration.
   */
  method RestartServer(
    registry: MessagesAwaitingReaction, config: Config, command: Command, mc: MessageCreate, env: Env, now: Int64)
    returns (failure: Option<Error>, calls: seq<Call>)
    modifies registry
    ensures failure == RestartRun(config, command, mc, env, now).failure
    ensures calls == RestartRun(config, command, mc, env, now).calls
    ensures registry.messages == Apply(old(registry.messages), RestartRun(config, command, mc, env, now).registered)
  {
    var parsed := ParseRestartServerCommand(command, mc);
    if parsed.Err? {
      failure, calls := Some(parsed.error), [];
      return;
    }
    var params := parsed.value;

    calls := [GetGuildFeed];
    if env.guildFeed.Err? {
      failure := Some(External(env.guildFeed.error));
      return;
    }
    var guildServers := env.guildFeed.value;

    calls := calls + [ValidateGuildFeed];
    if env.validation.Some? {
      failure := Some(External(env.validation.value));
      return;
    }

    calls := calls + [IsApproved];
    if !env.approved {
      calls := calls + [IsAdmin];
      if env.admin.Err? {
        failure := Some(External(env.admin.error));
        return;
      }
      if !env.admin.value {
        failure := Some(Unauthorized);
        return;
      }
    }
    assert calls == GateCalls(env);

    var servers := SelectServers(guildServers, params.serverId);
    if |servers| == 0 {
      failure := Some(NoServers("Unable to find servers to restart"));
      return;
    }

    if "restart" !in config.reactions {
      failure := Some(MissingReactions("restart"));
      return;
    }
    var reaction := config.reactions["restart"];

    var serverRefs := CollectServerRefs(servers);
    var reactionModel := RestartReaction(
      [Reaction(reaction.name, reaction.id)], User(mc.authorId, mc.authorName), params.message, serverRefs);

    var field := ConvertToEmbedField(RestartServerCommandConfirmationOutput(servers, params.message));
    calls := calls + [Output(field)];
    if env.output.Err? {
      failure := Some(External(env.output.error));
      return;
    }
    var successMessages := env.output.value;
    if |successMessages| == 0 {
      failure := Some(NoOutputMessages);
      return;
    }

    calls := calls + [AddReaction(successMessages[0], reaction.fullEmoji)];
    if env.addReaction.Some? {
      failure := Some(External(env.addReaction.value));
      return;
    }

    calls := calls + [SetCache(config.restartReaction.base, successMessages[0], config.banReaction.ttl, reactionModel)];
    if env.setCache.Some? {
      failure := Some(External(env.setCache.value));
      return;
    }

    var ttl := ParseInt64(config.restartReaction.ttl);
    if ttl.err.Some? {
      failure := Some(TtlNotInt("Failed to convert reaction TTL to int64"));
      return;
    }

    registry.messages := registry.messages[successMessages[0] :=
      MessageAwaitingReaction(AddWrap(now, ttl.value), [reaction.id], command.name, mc.authorId)];
    failure := None;
  }
}
