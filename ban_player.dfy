/**
 * The `ban` command (interactions/commands/ban-player.go): parse an optional
 * server ID and the player's account name, check the guild feed and the
 * member's authorization, pick the target servers, post a confirmation
 * prompt with the ban reaction, cache the pending ban, and register the
 * prompt as awaiting that reaction.
 *
 * After the argument-count check the parser reads the first argument without
 * looking, so every member here assumes that argument exists
 * (`FirstArgumentExists`).
 */
module BanPlayer {
  import opened Wrappers
  import opened GoInt
  import opened GoStrings
  import opened GoStrconv
  import opened Commands

  datatype BanPlayerCommandParams = BanPlayerCommandParams(playerName: string, serverId: Int64)

  datatype BanPlayerCommandConfirmationOutput =
    BanPlayerCommandConfirmationOutput(servers: seq<Server>, playerName: string)

  /**
   * The first argument exists whenever the count check lets the text through:
   * the text has a space, or zero arguments are refused. Otherwise the Go
   * code indexes past the split result.
   */
  predicate FirstArgumentExists(command: Command, mc: MessageCreate)
  {
    Space in mc.content || !ArgCountAccepted(command, 0)
  }

  /**
   * `parseBanPlayerCommand`: split the text on single spaces, check the
   * argument count, then read an optional leading server ID and the name.
   * The server ID is whatever ParseInt returned, also when it failed.
   */
  function ParseBanPlayerCommand(command: Command, mc: MessageCreate): (r: Result<BanPlayerCommandParams, Error>)
    requires FirstArgumentExists(command, mc)
    ensures r.Err? ==> r.error.InvalidArgumentCount? || r.error == MissingPlayerName
  {
    SplitCount(mc.content);
    var splitContent := Split(mc.content);
    var args := |splitContent| - 1;
    if args < command.minArgs || args > command.maxArgs then
      Err(InvalidArgumentCount(args, command.minArgs, command.maxArgs))
    else
      var serverId := ParseInt64(splitContent[1]);
      if serverId.err.Some? then
        Ok(BanPlayerCommandParams(Join(splitContent[1..]), serverId.value))
      else if |splitContent| > 2 then
        Ok(BanPlayerCommandParams(Join(splitContent[2..]), serverId.value))
      else
        Err(MissingPlayerName)
  }

  /** The argument count is the number of spaces; outside the bounds parsing fails with that count. */
  lemma BanArgumentCount(command: Command, mc: MessageCreate)
    requires FirstArgumentExists(command, mc)
    ensures ParseBanPlayerCommand(command, mc).Err?
      && ParseBanPlayerCommand(command, mc).error.InvalidArgumentCount?
      <==> !ArgCountAccepted(command, Spaces(mc.content))
    ensures !ArgCountAccepted(command, Spaces(mc.content)) ==>
      ParseBanPlayerCommand(command, mc)
        == Err(InvalidArgumentCount(Spaces(mc.content), command.minArgs, command.maxArgs))
  {
    SplitCount(mc.content);
  }

  /**
   * A first argument that is not an int64: the name is all the text after the
   * first space; the server ID is ParseInt's value on failure (0, or the
   * int64 bound for an over-long number).
   */
  lemma BanNameOnly(command: Command, mc: MessageCreate)
    requires FirstArgumentExists(command, mc) && ArgCountAccepted(command, Spaces(mc.content))
    requires !IsInt64Literal(Before(After(mc.content)))
    ensures ParseBanPlayerCommand(command, mc)
      == Ok(BanPlayerCommandParams(After(mc.content), ParseInt64(Before(After(mc.content))).value))
    ensures ParseInt64(Before(After(mc.content))).err == Some(ErrSyntax) ==>
      ParseBanPlayerCommand(command, mc).value.serverId == 0
  {
    SplitCount(mc.content);
    SplitJoinTail(mc.content);
    ParseInt64Succeeds(Before(After(mc.content)));
  }

  /** An int64 followed by more text: that server, and the name is all the text after the second space. */
  lemma BanServerAndName(command: Command, mc: MessageCreate)
    requires FirstArgumentExists(command, mc) && ArgCountAccepted(command, Spaces(mc.content))
    requires IsInt64Literal(Before(After(mc.content))) && Space in After(mc.content)
    ensures ParseBanPlayerCommand(command, mc)
      == Ok(BanPlayerCommandParams(After(After(mc.content)), LiteralValue(Before(After(mc.content)))))
  {
    SplitCount(mc.content);
    SplitJoinTail(mc.content);
    ParseInt64Succeeds(Before(After(mc.content)));
  }

  /** An int64 as the only argument: there is no account name. */
  lemma BanMissingName(command: Command, mc: MessageCreate)
    requires FirstArgumentExists(command, mc) && ArgCountAccepted(command, Spaces(mc.content))
    requires IsInt64Literal(After(mc.content)) && Space !in After(mc.content)
    ensures ParseBanPlayerCommand(command, mc) == Err(MissingPlayerName)
  {
    SplitCount(mc.content);
    SplitJoinTail(mc.content);
    ParseInt64Succeeds(After(mc.content));
  }

  /**
   * A number too large for int64 is taken as the account name, but the server
   * ID keeps ParseInt's clamped value, so only a server with that Nitrado ID
   * can be targeted.
   */
  lemma BanOverlongNumberKeepsBound(command: Command, mc: MessageCreate)
    requires FirstArgumentExists(command, mc) && ArgCountAccepted(command, Spaces(mc.content))
    requires var token := Before(After(mc.content));
      Unsigned(token) != [] && AllDigits(Unsigned(token)) && !IsNegative(token) && LiteralValue(token) > MaxInt64
    ensures ParseBanPlayerCommand(command, mc) == Ok(BanPlayerCommandParams(After(mc.content), MaxInt64))
  {
    ParseInt64Overflow(Before(After(mc.content)));
    ParseInt64Succeeds(Before(After(mc.content)));
    BanNameOnly(command, mc);
  }

  /**
   * The same holds when the over-long digits are followed by other text, as in
   * `ban 99999999999999999999x`: ParseInt reports the overflow before it
   * reaches the non-digit, so the server ID is still the int64 bound and not 0.
   */
  lemma BanOverflowingPrefixKeepsBound(command: Command, mc: MessageCreate, d: string, rest: string)
    requires FirstArgumentExists(command, mc) && ArgCountAccepted(command, Spaces(mc.content))
    requires var token := Before(After(mc.content));
      Unsigned(token) == d + rest && AllDigits(d) && DecimalValue(d) > MaxUint64 && !IsNegative(token)
    ensures ParseBanPlayerCommand(command, mc) == Ok(BanPlayerCommandParams(After(mc.content), MaxInt64))
  {
    var token := Before(After(mc.content));
    ParseInt64OverflowBeforeNonDigit(token, d, rest);
    ParseInt64Succeeds(token);
    BanNameOnly(command, mc);
  }

  /**
   * A trailing space after the command word, and nothing more, is one empty
   * argument: an empty account name, with server ID 0.
   */
  lemma BanTrailingSpaceIsEmptyName(command: Command, mc: MessageCreate, word: string)
    requires ArgCountAccepted(command, 1)
    requires Space !in word && mc.content == word + [Space]
    ensures ParseBanPlayerCommand(command, mc) == Ok(BanPlayerCommandParams("", 0))
  {
    FirstSpaceOfWord(word, "");
    assert mc.content == word + [Space] + "";
    SplitAtFirstSpace(mc.content);
    assert mc.content[..|word|] == word && After(mc.content) == "";
    assert Split(mc.content) == [word, ""];
    assert Join(Split(mc.content)[1..]) == "";
  }

  const BannedOn: string := " will be banned on "

  /** `ConvertToEmbedField`: the field naming the player and the target; its value is the zero-width space. */
  function ConvertToEmbedField(output: BanPlayerCommandConfirmationOutput): (field: EmbedField)
    ensures field.value == "​"
    ensures |field.name| >= |output.playerName| + |BannedOn|
    ensures field.name[..|output.playerName| + |BannedOn|] == output.playerName + BannedOn
    ensures |output.servers| == 1 ==> field.name[|output.playerName| + |BannedOn|..] == output.servers[0].name
    ensures |output.servers| != 1 ==>
      field.name[|output.playerName| + |BannedOn|..] == FormatNat(|output.servers|) + " servers"
  {
    var name :=
      if |output.servers| == 1 then output.playerName + BannedOn + output.servers[0].name
      else output.playerName + BannedOn + FormatInt(|output.servers|) + " servers";
    var fieldVal := "";
    EmbedField(name, if fieldVal == "" then "​" else fieldVal)
  }

  /** For the same player, confirmations for several servers name the same count only when they target as many servers. */
  lemma EmbedNameCountsServers(a: BanPlayerCommandConfirmationOutput, b: BanPlayerCommandConfirmationOutput)
    requires a.playerName == b.playerName && |a.servers| != 1 && |b.servers| != 1
    requires ConvertToEmbedField(a).name == ConvertToEmbedField(b).name
    ensures |a.servers| == |b.servers|
  {
    var k := |a.playerName| + |BannedOn|;
    var rest := ConvertToEmbedField(a).name[k..];
    var na := FormatNat(|a.servers|);
    var nb := FormatNat(|b.servers|);
    assert rest == na + " servers";
    assert rest == nb + " servers";
    assert |na| == |nb|;
    assert na == rest[..|na|];
    assert nb == rest[..|nb|];
    FormatNatInjective(|a.servers|, |b.servers|);
  }

  /** Parsing, fetching and validating the guild feed succeeded: the handler reaches the authorization gate. */
  predicate Screened(command: Command, mc: MessageCreate, env: Env)
    requires FirstArgumentExists(command, mc)
  {
    ParseBanPlayerCommand(command, mc).Ok? && env.guildFeed.Ok? && env.validation.None?
  }

  /** The servers the request selects from the guild feed. */
  function Targets(command: Command, mc: MessageCreate, env: Env): seq<Server>
    requires FirstArgumentExists(command, mc) && Screened(command, mc, env)
  {
    Selection(env.guildFeed.value, ParseBanPlayerCommand(command, mc).value.serverId)
  }

  /** The handler gets as far as posting the confirmation prompt. */
  predicate Prompted(config: Config, command: Command, mc: MessageCreate, env: Env)
    requires FirstArgumentExists(command, mc)
  {
    && Screened(command, mc, env)
    && Authorized(env)
    && Targets(command, mc, env) != []
    && "ban" in config.reactions
  }

  /** The prompt was posted, has an ID, and carries the confirming reaction. */
  predicate Reacted(config: Config, command: Command, mc: MessageCreate, env: Env)
    requires FirstArgumentExists(command, mc)
  {
    && Prompted(config, command, mc, env)
    && env.output.Ok? && env.output.value != []
    && env.addReaction.None?
  }

  /** Every step succeeds. */
  predicate Completes(config: Config, command: Command, mc: MessageCreate, env: Env)
    requires FirstArgumentExists(command, mc)
  {
    && Reacted(config, command, mc, env)
    && env.setCache.None?
    && ParseInt64(config.banReaction.ttl).err.None?
  }

  /** The prompt field shown for the request. */
  function PromptField(command: Command, mc: MessageCreate, env: Env): EmbedField
    requires FirstArgumentExists(command, mc) && Screened(command, mc, env)
  {
    ConvertToEmbedField(BanPlayerCommandConfirmationOutput(
      Targets(command, mc, env), ParseBanPlayerCommand(command, mc).value.playerName))
  }

  /** The pending ban written to the cache. */
  function PendingBan(config: Config, command: Command, mc: MessageCreate, env: Env): PendingReaction
    requires FirstArgumentExists(command, mc) && Prompted(config, command, mc, env)
  {
    var reaction := config.reactions["ban"];
    BanReaction(ParseBanPlayerCommand(command, mc).value.playerName, [Reaction(reaction.name, reaction.id)],
      User(mc.authorId, mc.authorName), ServerRefs(Targets(command, mc, env)))
  }

  /**
   * What `BanPlayer` does, step by step, up to the authorization gate;
   * a failing step ends the run with its error.
   */
  function BanRun(config: Config, command: Command, mc: MessageCreate, env: Env, now: Int64): Outcome
    requires FirstArgumentExists(command, mc)
  {
    var parsed := ParseBanPlayerCommand(command, mc);
    if parsed.Err? then Fail([], parsed.error)
    else if env.guildFeed.Err? then Fail([GetGuildFeed], External(env.guildFeed.error))
    else if env.validation.Some? then Fail([GetGuildFeed, ValidateGuildFeed], External(env.validation.value))
    else if !env.approved && env.admin.Err? then Fail(GateCalls(env), External(env.admin.error))
    else if !env.approved && !env.admin.value then Fail(GateCalls(env), Unauthorized)
    else Then(GateCalls(env), BanAfterGate(config, command, mc, env, now,
      parsed.value, Selection(env.guildFeed.value, parsed.value.serverId)))
  }

  /** The steps after the gate; the cache entry and the index entry both use the ban reaction's settings. */
  function BanAfterGate(
    config: Config, command: Command, mc: MessageCreate, env: Env, now: Int64,
    params: BanPlayerCommandParams, servers: seq<Server>): Outcome
  {
    if servers == [] then Fail([], NoServers("Unable to find servers to ban on"))
    else if "ban" !in config.reactions then Fail([], MissingReactions("ban"))
    else
      var reaction := config.reactions["ban"];
      var prompted := [Output(ConvertToEmbedField(BanPlayerCommandConfirmationOutput(servers, params.playerName)))];
      if env.output.Err? then Fail(prompted, External(env.output.error))
      else if env.output.value == [] then Fail(prompted, NoOutputMessages)
      else
        var messageId := env.output.value[0];
        var reacted := prompted + [AddReaction(messageId, reaction.fullEmoji)];
        if env.addReaction.Some? then Fail(reacted, External(env.addReaction.value))
        else
          var record := BanReaction(params.playerName, [Reaction(reaction.name, reaction.id)],
            User(mc.authorId, mc.authorName), ServerRefs(servers));
          var cached := reacted + [SetCache(config.banReaction.base, messageId, config.banReaction.ttl, record)];
          if env.setCache.Some? then Fail(cached, External(env.setCache.value))
          else
            var ttl := ParseInt64(config.banReaction.ttl);
            if ttl.err.Some? then Fail(cached, TtlNotInt("Failed to convert ban reaction TTL to int64"))
            else Outcome(None, cached, Some(Registration(messageId,
              MessageAwaitingReaction(AddWrap(now, ttl.value), [reaction.id], command.name, mc.authorId))))
  }

  /**
   * The index is written exactly when every step succeeded, at the first
   * posted message's ID, expiring `now + ttl` (int64), confirmed by the single
   * ban reaction, for the command and its author.
   */
  lemma BanRegistersOnlyOnSuccess(config: Config, command: Command, mc: MessageCreate, env: Env, now: Int64)
    requires FirstArgumentExists(command, mc)
    ensures var o := BanRun(config, command, mc, env, now);
      && (o.failure.None? <==> Completes(config, command, mc, env))
      && (o.registered.Some? <==> o.failure.None?)
      && (Completes(config, command, mc, env) ==>
            o.registered == Some(Registration(env.output.value[0], MessageAwaitingReaction(
              AddWrap(now, ParseInt64(config.banReaction.ttl).value),
              [config.reactions["ban"].id], command.name, mc.authorId))))
  {
  }

  /** After the gate the handler only posts, reacts and writes the cache. */
  lemma AfterGateCalls(
    config: Config, command: Command, mc: MessageCreate, env: Env, now: Int64,
    params: BanPlayerCommandParams, servers: seq<Server>)
    ensures var calls := BanAfterGate(config, command, mc, env, now, params, servers).calls;
      forall i :: 0 <= i < |calls| ==> calls[i].Output? || calls[i].AddReaction? || calls[i].SetCache?
  {
  }

  /**
   * Authorization: the admin check is made only when guild approval fails;
   * its error, or a negative answer, ends the run before any server is
   * selected, anything is posted or the index is written.
   */
  lemma BanAuthorizationGate(config: Config, command: Command, mc: MessageCreate, env: Env, now: Int64)
    requires FirstArgumentExists(command, mc)
    ensures var o := BanRun(config, command, mc, env, now);
      && (IsAdmin in o.calls <==> Screened(command, mc, env) && !env.approved)
      && (Screened(command, mc, env) && !Authorized(env) ==>
            o == Fail(GateCalls(env), if env.admin.Err? then External(env.admin.error) else Unauthorized))
  {
    var o := BanRun(config, command, mc, env, now);
    if Screened(command, mc, env) && Authorized(env) {
      var parsed := ParseBanPlayerCommand(command, mc).value;
      var rest := BanAfterGate(config, command, mc, env, now, parsed, Targets(command, mc, env));
      AfterGateCalls(config, command, mc, env, now, parsed, Targets(command, mc, env));
      assert o.calls == GateCalls(env) + rest.calls;
      assert IsAdmin !in rest.calls;
    }
  }

  /** No enabled server matches: the run ends with "Unable to find servers to ban on". */
  lemma BanNoTargets(config: Config, command: Command, mc: MessageCreate, env: Env, now: Int64)
    requires FirstArgumentExists(command, mc)
    requires Screened(command, mc, env) && Authorized(env) && Targets(command, mc, env) == []
    ensures BanRun(config, command, mc, env, now) == Fail(GateCalls(env), NoServers("Unable to find servers to ban on"))
  {
  }

  /** Without a "ban" reaction configured the run ends before anything is posted or written. */
  lemma BanMissingReaction(config: Config, command: Command, mc: MessageCreate, env: Env, now: Int64)
    requires FirstArgumentExists(command, mc)
    requires Screened(command, mc, env) && Authorized(env) && Targets(command, mc, env) != []
    requires "ban" !in config.reactions
    ensures BanRun(config, command, mc, env, now) == Fail(GateCalls(env), MissingReactions("ban"))
  {
  }

  /** After the gate, the prompt is the first call, made once servers were selected and the reaction is configured. */
  lemma AfterGatePrompt(
    config: Config, command: Command, mc: MessageCreate, env: Env, now: Int64,
    params: BanPlayerCommandParams, servers: seq<Server>)
    ensures var rest := BanAfterGate(config, command, mc, env, now, params, servers);
      && (servers == [] || "ban" !in config.reactions ==> rest.calls == [])
      && (servers != [] && "ban" in config.reactions ==>
            |rest.calls| >= 1 && rest.calls[0] == Output(ConvertToEmbedField(BanPlayerCommandConfirmationOutput(servers, params.playerName))))
  {
  }

  /** Step order: the prompt is posted only once every earlier step succeeded, right after the gate. */
  lemma BanPromptOrder(config: Config, command: Command, mc: MessageCreate, env: Env, now: Int64)
    requires FirstArgumentExists(command, mc)
    ensures var o := BanRun(config, command, mc, env, now);
      && (!Prompted(config, command, mc, env) ==> forall i :: 0 <= i < |o.calls| ==> o.calls[i] in GateCalls(env))
      && (Prompted(config, command, mc, env) ==>
            |o.calls| > |GateCalls(env)| && o.calls[|GateCalls(env)|] == Output(PromptField(command, mc, env))
            && o.calls[..|GateCalls(env)|] == GateCalls(env))
  {
    var o := BanRun(config, command, mc, env, now);
    if Screened(command, mc, env) && Authorized(env) {
      var parsed := ParseBanPlayerCommand(command, mc).value;
      var rest := BanAfterGate(config, command, mc, env, now, parsed, Targets(command, mc, env));
      AfterGatePrompt(config, command, mc, env, now, parsed, Targets(command, mc, env));
      assert o.calls == GateCalls(env) + rest.calls;
    }
  }

  /** After the gate: servers were selected, the prompt was posted with an ID and the reaction added. */
  predicate ReactionAdded(config: Config, env: Env, servers: seq<Server>)
  {
    servers != [] && "ban" in config.reactions && env.output.Ok? && env.output.value != [] && env.addReaction.None?
  }

  /** After the gate, the cache is written only once the prompt was posted and reacted to. */
  lemma AfterGateCache(
    config: Config, command: Command, mc: MessageCreate, env: Env, now: Int64,
    params: BanPlayerCommandParams, servers: seq<Server>)
    ensures var rest := BanAfterGate(config, command, mc, env, now, params, servers);
      && (!ReactionAdded(config, env, servers) ==> forall i :: 0 <= i < |rest.calls| ==> !rest.calls[i].SetCache?)
      && (ReactionAdded(config, env, servers) ==>
            var reaction := config.reactions["ban"];
            var id := env.output.value[0];
            rest.calls == [
              Output(ConvertToEmbedField(BanPlayerCommandConfirmationOutput(servers, params.playerName))),
              AddReaction(id, reaction.fullEmoji),
              SetCache(config.banReaction.base, id, config.banReaction.ttl,
                BanReaction(params.playerName, [Reaction(reaction.name, reaction.id)],
                  User(mc.authorId, mc.authorName), ServerRefs(servers)))])
  {
  }

  /**
   * Step order: the cache is written only after the reaction was added to
   * the first posted message, under the ban base and TTL; a completed run
   * made exactly these calls.
   */
  lemma BanCacheOrder(config: Config, command: Command, mc: MessageCreate, env: Env, now: Int64)
    requires FirstArgumentExists(command, mc)
    ensures var o := BanRun(config, command, mc, env, now);
      && (!Reacted(config, command, mc, env) ==> forall i :: 0 <= i < |o.calls| ==> !o.calls[i].SetCache?)
      && (Reacted(config, command, mc, env) ==>
            var id := env.output.value[0];
            o.calls == GateCalls(env) + [
              Output(PromptField(command, mc, env)),
              AddReaction(id, config.reactions["ban"].fullEmoji),
              SetCache(config.banReaction.base, id, config.banReaction.ttl, PendingBan(config, command, mc, env))])
  {
    var o := BanRun(config, command, mc, env, now);
    if Screened(command, mc, env) && Authorized(env) {
      var parsed := ParseBanPlayerCommand(command, mc).value;
      var rest := BanAfterGate(config, command, mc, env, now, parsed, Targets(command, mc, env));
      AfterGateCache(config, command, mc, env, now, parsed, Targets(command, mc, env));
      assert o.calls == GateCalls(env) + rest.calls;
    }
  }

  /**
   * `BanPlayer`: the fixed chain of steps, each of which ends the command
   * with an error output when it fails. The awaiting-reaction index changes
   * only by the run's one registration.
   */
  method BanPlayer(
    registry: MessagesAwaitingReaction, config: Config, command: Command, mc: MessageCreate, env: Env, now: Int64)
    returns (failure: Option<Error>, calls: seq<Call>)
    requires FirstArgumentExists(command, mc)
    modifies registry
    ensures failure == BanRun(config, command, mc, env, now).failure
    ensures calls == BanRun(config, command, mc, env, now).calls
    ensures registry.messages == Apply(old(registry.messages), BanRun(config, command, mc, env, now).registered)
  {
    var parsed := ParseBanPlayerCommand(command, mc);
    if parsed.Err? {
      failure, calls := Some(parsed.error), [];
      return;
    }
    var params := parsed.value;

    calls := [GetGuildFeed];
    if env.guildFeed.Err? {
      failure := Some(External(env.guildFeed.error));
      return;
    }
    var guildServers := env.guildFeed.value;

    calls := calls + [ValidateGuildFeed];
    if env.validation.Some? {
      failure := Some(External(env.validation.value));
      return;
    }

    calls := calls + [IsApproved];
    if !env.approved {
      calls := calls + [IsAdmin];
      if env.admin.Err? {
        failure := Some(External(env.admin.error));
        return;
      }
      if !env.admin.value {
        failure := Some(Unauthorized);
        return;
      }
    }
    assert calls == GateCalls(env);

    var servers := SelectServers(guildServers, params.serverId);
    if |servers| == 0 {
      failure := Some(NoServers("Unable to find servers to ban on"));
      return;
    }

    if "ban" !in config.reactions {
      failure := Some(MissingReactions("ban"));
      return;
    }
    var reaction := config.reactions["ban"];

    var serverRefs := CollectServerRefs(servers);
    var reactionModel := BanReaction(
      params.playerName, [Reaction(reaction.name, reaction.id)], User(mc.authorId, mc.authorName), serverRefs);

    var field := ConvertToEmbedField(BanPlayerCommandConfirmationOutput(servers, params.playerName));
    calls := calls + [Output(field)];
    if env.output.Err? {
      failure := Some(External(env.output.error));
      return;
    }
    var successMessages := env.output.value;
    if |successMessages| == 0 {
      failure := Some(NoOutputMessages);
      return;
    }

    calls := calls + [AddReaction(successMessages[0], reaction.fullEmoji)];
    if env.addReaction.Some? {
      failure := Some(External(env.addReaction.value));
      return;
    }

    calls := calls + [SetCache(config.banReaction.base, successMessages[0], config.banReaction.ttl, reactionModel)];
    if env.setCache.Some? {
      failure := Some(External(env.setCache.value));
      return;
    }

    var ttl := ParseInt64(config.banReaction.ttl);
    if ttl.err.Some? {
      failure := Some(TtlNotInt("Failed to convert ban reaction TTL to int64"));
      return;
    }

    registry.messages := registry.messages[successMessages[0] :=
      MessageAwaitingReaction(AddWrap(now, ttl.value), [reaction.id], command.name, mc.authorId)];
    failure := None;
  }
}
