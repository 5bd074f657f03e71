/** The per-message decision step of the flood-channel bot (main.go).

    The Go program keeps its configuration in package globals and talks to
    Discord through a session. Here the globals are an immutable `Config`
    record, the Discord lookups and the duration parser are the fields of an
    `Env` record, and everything the bot sends or schedules is an `Effect`
    value. One incoming message is one pure transition:
    `MessageCreate(config, message, env) -> Transition(config', effects)`. */
module Bot {
  import opened Wrappers
  import opened Text

  type UserId = string
  type GuildId = string
  type ChannelId = string
  type MessageId = string
  type RoleId = string

  /** Go's `time.Duration`: a signed 64-bit count of nanoseconds. */
  type Duration = d: int | -0x8000_0000_0000_0000 <= d < 0x8000_0000_0000_0000

  const Hour: Duration := 3_600_000_000_000

  /** `defaultDelay = time.Hour * 24` */
  const DefaultDelay: Duration := 24 * Hour

  /** The command prefix the handler tests with `strings.HasPrefix`. */
  const SetDelayPrefix: string := "!setdelay"

  const UsageText: string := "Usage: !setdelay <time>"
  const InvalidFormatText: string := "Invalid time format. Use something like '10m', '1h', etc."
  const NoPermissionText: string := "You do not have permission to set the delay."

  /** The package globals the handlers read: `customMessageDelay` (Go's
      zero value until a `!setdelay` is accepted), `floodChannelID` and
      `adminRoleID` (both loaded once at start-up). */
  datatype Config = Config(
    customMessageDelay: Duration,
    floodChannelId: ChannelId,
    adminRoleId: RoleId)

  /** The configuration right after start-up. */
  function Initial(floodChannelId: ChannelId, adminRoleId: RoleId): Config
  {
    Config(0, floodChannelId, adminRoleId)
  }

  /** The fields of a `discordgo.MessageCreate` event the handlers look at. */
  datatype Message = Message(
    id: MessageId,
    authorId: UserId,
    guildId: GuildId,
    channelId: ChannelId,
    content: string)

  /** A guild member as returned by `GuildMember`: only its roles matter. */
  datatype Member = Member(roles: seq<RoleId>)

  /** The outside world as the handlers see it: the bot's own user id
      (`s.State.User.ID`), `time.ParseDuration` (None on a parse error) and
      `s.GuildMember` (None on a lookup error). */
  datatype Env = Env(
    botUserId: UserId,
    parseDuration: string -> Option<Duration>,
    guildMember: (GuildId, UserId) -> Option<Member>)

  /** What a step asks the outside world to do. `SendMessage` is
      `ChannelMessageSend`; `ConfirmDelay` is the confirmation that
      `setMessageDelay` sends, carrying the duration rather than its `%s`
      rendering; `ScheduleDelete` is the goroutine that sleeps for `delay`
      and then deletes `message` from `channel`. */
  datatype Effect =
    | SendMessage(channel: ChannelId, text: string)
    | ConfirmDelay(channel: ChannelId, delay: Duration)
    | ScheduleDelete(channel: ChannelId, message: MessageId, delay: Duration)

  /** The configuration after a step and the effects it emitted, in order. */
  datatype Transition = Transition(config: Config, effects: seq<Effect>)

  /** `getMessageDelay`: the custom delay when it is positive, otherwise the
      24-hour default. Whatever was stored, the result is a positive delay
      that is one of those two values. */
  function GetMessageDelay(config: Config): (delay: Duration)
    ensures delay > 0
    ensures delay == config.customMessageDelay || delay == DefaultDelay
    ensures config.customMessageDelay > 0 ==> delay == config.customMessageDelay
  {
    if config.customMessageDelay > 0 then config.customMessageDelay else DefaultDelay
  }

  /** The `for _, role := range member.Roles` scan of `isUserAdmin`. */
  function RoleListed(roles: seq<RoleId>, role: RoleId): (found: bool)
    ensures found <==> role in roles
  {
    if |roles| == 0 then false
    else roles[0] == role || RoleListed(roles[1..], role)
  }

  /** `isUserAdmin`: fails closed when the member lookup errors, and
      otherwise holds exactly when the admin role is among the member's
      roles. */
  function IsUserAdmin(lookup: Option<Member>, adminRoleId: RoleId): (admin: bool)
    ensures lookup.None? ==> !admin
    ensures lookup.Some? ==> (admin <==> adminRoleId in lookup.value.roles)
  {
    match lookup
    case None => false
    case Some(member) => RoleListed(member.roles, adminRoleId)
  }

  /** `setMessageDelay`: stores `delay` as the custom delay and confirms it in
      the flood channel. The stored value then governs deletions only if it
      is positive. */
  function SetMessageDelay(config: Config, delay: Duration): (t: Transition)
    ensures t.config.customMessageDelay == delay
    ensures t.config.floodChannelId == config.floodChannelId
    ensures t.config.adminRoleId == config.adminRoleId
    ensures t.effects == [ConfirmDelay(config.floodChannelId, delay)]
    ensures delay > 0 ==> GetMessageDelay(t.config) == delay
    ensures delay <= 0 ==> GetMessageDelay(t.config) == DefaultDelay
  {
    Transition(config.(customMessageDelay := delay), [ConfirmDelay(config.floodChannelId, delay)])
  }

  /** The delay a message sets, if `handleCommand` accepts it as a
      `!setdelay` command: the content starts with `!setdelay`, splitting it
      on single spaces gives exactly two fields, the second field parses as
      a duration, and the author holds the admin role. */
  function AcceptedDelay(config: Config, m: Message, env: Env): (accepted: Option<Duration>)
    ensures accepted.Some? ==>
              && HasPrefix(m.content, SetDelayPrefix)
              && Count(m.content, ' ') == 1
              && env.parseDuration(Split(m.content, ' ')[1]) == accepted
              && IsUserAdmin(env.guildMember(m.guildId, m.authorId), config.adminRoleId)
  {
    if !HasPrefix(m.content, SetDelayPrefix) then None
    else
      var parts := Split(m.content, ' ');
      if |parts| != 2 then None
      else match env.parseDuration(parts[1])
        case None => None
        case Some(d) =>
          if IsUserAdmin(env.guildMember(m.guildId, m.authorId), config.adminRoleId) then Some(d) else None
  }

  /** `handleCommand`. The checks run in the code's order: prefix, field
      count, duration parse, admin rights. Each rejection sends one reply to
      the originating channel and leaves the configuration alone; an
      accepted command stores the parsed delay and confirms it in the flood
      channel. Anything else about the configuration never changes. */
  function HandleCommand(config: Config, m: Message, env: Env): (t: Transition)
    ensures t.config.floodChannelId == config.floodChannelId
    ensures t.config.adminRoleId == config.adminRoleId
    ensures |t.effects| <= 1
    ensures t.config == (match AcceptedDelay(config, m, env)
                         case Some(d) => config.(customMessageDelay := d)
                         case None => config)
    // content that is not the command: nothing at all
    ensures !HasPrefix(m.content, SetDelayPrefix) ==> t == Transition(config, [])
    // wrong number of single-space separated fields: only the usage reply
    ensures HasPrefix(m.content, SetDelayPrefix) && Count(m.content, ' ') != 1 ==>
              t == Transition(config, [SendMessage(m.channelId, UsageText)])
    // one space, but the argument does not parse: the format reply, whoever asks
    ensures HasPrefix(m.content, SetDelayPrefix) && Count(m.content, ' ') == 1 &&
            env.parseDuration(Split(m.content, ' ')[1]).None? ==>
              t == Transition(config, [SendMessage(m.channelId, InvalidFormatText)])
    // a parsed delay from a non-admin: only the permission reply
    ensures HasPrefix(m.content, SetDelayPrefix) && Count(m.content, ' ') == 1 &&
            env.parseDuration(Split(m.content, ' ')[1]).Some? &&
            !IsUserAdmin(env.guildMember(m.guildId, m.authorId), config.adminRoleId) ==>
              t == Transition(config, [SendMessage(m.channelId, NoPermissionText)])
    // accepted: the stored delay is the parsed one, confirmed in the flood channel
    ensures AcceptedDelay(config, m, env).Some? ==>
              t.effects == [ConfirmDelay(config.floodChannelId, AcceptedDelay(config, m, env).value)]
  {
    if !HasPrefix(m.content, SetDelayPrefix) then Transition(config, [])
    else
      var parts := Split(m.content, ' ');
      if |parts| != 2 then Transition(config, [SendMessage(m.channelId, UsageText)])
      else match env.parseDuration(parts[1])
        case None => Transition(config, [SendMessage(m.channelId, InvalidFormatText)])
        case Some(d) =>
          if !IsUserAdmin(env.guildMember(m.guildId, m.authorId), config.adminRoleId) then
            Transition(config, [SendMessage(m.channelId, NoPermissionText)])
          else
            SetMessageDelay(config, d)
  }

  /** The deletions among a list of effects. */
  function Deletions(effects: seq<Effect>): (ds: seq<Effect>)
    ensures |ds| <= |effects|
    ensures forall i :: 0 <= i < |ds| ==> ds[i].ScheduleDelete? && ds[i] in effects
  {
    if |effects| == 0 then []
    else (if effects[0].ScheduleDelete? then [effects[0]] else []) + Deletions(effects[1..])
  }

  /** `messageCreate`: messages written by the bot itself are dropped before
      anything else; every other message goes through `handleCommand`, and
      one posted in the flood channel is then scheduled for deletion after
      the delay in force AFTER that command handling, so a `!setdelay`
      posted in the flood channel governs its own deletion. */
  function MessageCreate(config: Config, m: Message, env: Env): (t: Transition)
    ensures m.authorId == env.botUserId ==> t == Transition(config, [])
    ensures m.authorId != env.botUserId ==> t.config == HandleCommand(config, m, env).config
    ensures t.config.floodChannelId == config.floodChannelId
    ensures t.config.adminRoleId == config.adminRoleId
    // exactly one deletion for a foreign message in the flood channel, none otherwise
    ensures |Deletions(t.effects)| == (if m.authorId != env.botUserId && m.channelId == config.floodChannelId then 1 else 0)
    // the deletion targets this message in the flood channel, with the current positive delay
    ensures forall e :: e in t.effects && e.ScheduleDelete? ==>
              e == ScheduleDelete(config.floodChannelId, m.id, GetMessageDelay(t.config)) && e.delay > 0
    // the deletion, if any, comes after the command's reply or confirmation
    ensures m.authorId != env.botUserId ==>
              |t.effects| == |HandleCommand(config, m, env).effects| + |Deletions(t.effects)|
    ensures m.authorId != env.botUserId ==>
              HandleCommand(config, m, env).effects == t.effects[..|HandleCommand(config, m, env).effects|]
  {
    if m.authorId == env.botUserId then Transition(config, [])
    else
      var handled := HandleCommand(config, m, env);
      NoCommandDeletes(config, m, env);
      if m.channelId == config.floodChannelId then
        var delete := ScheduleDelete(config.floodChannelId, m.id, GetMessageDelay(handled.config));
        assert Deletions([delete]) == [delete];
        DeletionsAppend(handled.effects, [delete]);
        Transition(handled.config, handled.effects + [delete])
      else
        DeletionsAppend(handled.effects, []);
        handled
  }

  /** A command handler's effects are never deletions. */
  lemma NoCommandDeletes(config: Config, m: Message, env: Env)
    ensures Deletions(HandleCommand(config, m, env).effects) == []
  {
  }

  lemma {:induction false} DeletionsAppend(a: seq<Effect>, b: seq<Effect>)
    ensures Deletions(a + b) == Deletions(a) + Deletions(b)
    decreases |a|
  {
    if |a| == 0 {
      assert a + b == b;
    } else {
      assert (a + b)[1..] == a[1..] + b;
      DeletionsAppend(a[1..], b);
    }
  }

  /** An accepted positive `!setdelay` posted in the flood channel is
      confirmed and then deleted after the delay it has just set. */
  lemma SetDelayGovernsOwnDeletion(config: Config, m: Message, env: Env, d: Duration)
    requires m.authorId != env.botUserId && m.channelId == config.floodChannelId
    requires AcceptedDelay(config, m, env) == Some(d) && d > 0
    ensures MessageCreate(config, m, env).effects ==
              [ConfirmDelay(config.floodChannelId, d), ScheduleDelete(config.floodChannelId, m.id, d)]
  {
  }

  /** A zero or negative duration from an admin is stored and confirmed as
      such, yet the delay that governs deletions stays the 24-hour default. */
  lemma NonPositiveDelayConfirmedButIgnored(config: Config, m: Message, env: Env, d: Duration)
    requires m.authorId != env.botUserId
    requires AcceptedDelay(config, m, env) == Some(d) && d <= 0
    ensures MessageCreate(config, m, env).config.customMessageDelay == d
    ensures MessageCreate(config, m, env).effects[0] == ConfirmDelay(config.floodChannelId, d)
    ensures GetMessageDelay(MessageCreate(config, m, env).config) == DefaultDelay
  {
  }

  /** A command whose content is `head + " " + arg`, with no other space,
      is accepted with the parsed `arg` when `head` carries the prefix and
      the author is an admin. */
  lemma AcceptedFromFields(config: Config, m: Message, env: Env, head: string, arg: string, d: Duration)
    requires m.content == head + [' '] + arg && ' ' !in head && ' ' !in arg
    requires HasPrefix(head, SetDelayPrefix)
    requires env.parseDuration(arg) == Some(d)
    requires IsUserAdmin(env.guildMember(m.guildId, m.authorId), config.adminRoleId)
    ensures AcceptedDelay(config, m, env) == Some(d)
  {
    SplitOneSeparator(head, ' ', arg);
    assert m.content[..|SetDelayPrefix|] == head[..|SetDelayPrefix|];
  }

  /** The converse of `AcceptedFromFields`: an accepted command is always a
      prefixed head, one space and a space-free argument that parses to the
      stored delay, sent by an admin. */
  lemma AcceptedDelayFields(config: Config, m: Message, env: Env, d: Duration)
    requires AcceptedDelay(config, m, env) == Some(d)
    ensures exists head, arg ::
              && m.content == head + [' '] + arg
              && ' ' !in head && ' ' !in arg
              && HasPrefix(head, SetDelayPrefix)
              && env.parseDuration(arg) == Some(d)
              && IsUserAdmin(env.guildMember(m.guildId, m.authorId), config.adminRoleId)
  {
    var parts := Split(m.content, ' ');
    assert |parts| == 2;
    var head, arg := parts[0], parts[1];
    assert Join(parts[1..], ' ') == arg;
    assert m.content == head + [' '] + arg;
    PrefixBeforeSpace(m.content, head, arg);
  }

  /** A space-free head before the first space of a content that starts
      with `!setdelay` carries the whole prefix. */
  lemma PrefixBeforeSpace(content: string, head: string, arg: string)
    requires content == head + [' '] + arg && ' ' !in head
    requires HasPrefix(content, SetDelayPrefix)
    ensures HasPrefix(head, SetDelayPrefix)
  {
    assert ' ' !in SetDelayPrefix;
    assert forall i :: 0 <= i < |SetDelayPrefix| ==> content[i] == SetDelayPrefix[i];
    assert content[|head|] == ' ';
    assert |SetDelayPrefix| <= |head|;
    assert head[..|SetDelayPrefix|] == content[..|SetDelayPrefix|];
  }

  /** The prefix test is loose: any text may follow `!setdelay` before the
      space, so `!setdelayx 5m` from an admin is accepted like `!setdelay 5m`. */
  lemma LoosePrefixAccepted(config: Config, m: Message, env: Env, extra: string, arg: string, d: Duration)
    requires m.authorId != env.botUserId
    requires m.content == SetDelayPrefix + extra + [' '] + arg && ' ' !in extra && ' ' !in arg
    requires env.parseDuration(arg) == Some(d)
    requires IsUserAdmin(env.guildMember(m.guildId, m.authorId), config.adminRoleId)
    ensures MessageCreate(config, m, env).config.customMessageDelay == d
  {
    var head := SetDelayPrefix + extra;
    assert m.content == head + [' '] + arg;
    assert head[..|SetDelayPrefix|] == SetDelayPrefix;
    AcceptedFromFields(config, m, env, head, arg, d);
  }

  /** The split is on single spaces: `!setdelay  5m` (two spaces) has
      three fields and gets only the usage reply, whoever sends it, in
      whatever channel and whatever the argument. The configuration never
      changes; in the flood channel the message is still scheduled for
      deletion after the usage reply, and a message of the bot's own does
      nothing at all. */
  lemma DoubleSpaceIsUsageError(config: Config, m: Message, env: Env, arg: string)
    requires m.content == SetDelayPrefix + [' ', ' '] + arg
    ensures HandleCommand(config, m, env) == Transition(config, [SendMessage(m.channelId, UsageText)])
    ensures MessageCreate(config, m, env).config == config
    ensures MessageCreate(config, m, env).effects ==
              if m.authorId == env.botUserId then []
              else [SendMessage(m.channelId, UsageText)] +
                   (if m.channelId == config.floodChannelId
                    then [ScheduleDelete(config.floodChannelId, m.id, GetMessageDelay(config))]
                    else [])
  {
    var blank: string := [];
    assert m.content == SetDelayPrefix + [' '] + (blank + [' '] + arg);
    SplitCons(SetDelayPrefix, ' ', blank + [' '] + arg);
    SplitCons(blank, ' ', arg);
    assert |Split(m.content, ' ')| >= 3;
    assert m.content[..|SetDelayPrefix|] == SetDelayPrefix;
  }
}
