/** Sequences of incoming messages, handled one after another by
    `messageCreate`. Concurrent `messageCreate` calls would race on
    `customMessageDelay` (one writes it in `setMessageDelay` while another
    reads it in `getMessageDelay`); the model treats the calls as
    sequential. Each message comes with the outside world as it was when
    that message was handled: member roles may be granted or revoked, and a
    lookup may fail once and succeed later. The effects of a run are the
    effects of its steps, in order. */
module Runs {
  import opened Wrappers
  import opened Bot

  /** One incoming message and the answers the outside world gives while it
      is handled. */
  datatype Event = Event(message: Message, env: Env)

  /** The state and effects after handling `msgs` in order from `config`.
      The flood channel and the admin role are never changed by a run. */
  function Run(config: Config, events: seq<Event>): (t: Transition)
    ensures t.config.floodChannelId == config.floodChannelId
    ensures t.config.adminRoleId == config.adminRoleId
    decreases |events|
  {
    if |events| == 0 then Transition(config, [])
    else
      var before := Run(config, events[..|events| - 1]);
      var e := events[|events| - 1];
      var step := MessageCreate(before.config, e.message, e.env);
      Transition(step.config, before.effects + step.effects)
  }

  /** The delay set by the last accepted `!setdelay` among `events`, if
      any, each judged with its own outside world. Acceptance depends on the
      configuration only through the admin role, which no run changes, so
      the starting configuration decides it. */
  function LastAccepted(config: Config, events: seq<Event>): Option<Duration>
    decreases |events|
  {
    if |events| == 0 then None
    else
      var e := events[|events| - 1];
      if e.message.authorId != e.env.botUserId && AcceptedDelay(config, e.message, e.env).Some?
      then AcceptedDelay(config, e.message, e.env)
      else LastAccepted(config, events[..|events| - 1])
  }

  /** The ids of the messages a run must schedule for deletion: those not
      written by the bot and posted in the flood channel, in arrival order. */
  function FloodMessageIds(config: Config, events: seq<Event>): seq<MessageId>
    decreases |events|
  {
    if |events| == 0 then []
    else
      var e := events[|events| - 1];
      FloodMessageIds(config, events[..|events| - 1])
        + (if e.message.authorId != e.env.botUserId && e.message.channelId == config.floodChannelId
           then [e.message.id] else [])
  }

  /** The message ids targeted by the deletions among `effects`, in order. */
  function DeletedIds(effects: seq<Effect>): seq<MessageId>
    decreases |effects|
  {
    if |effects| == 0 then []
    else DeletedIds(effects[..|effects| - 1])
           + (if effects[|effects| - 1].ScheduleDelete? then [effects[|effects| - 1].message] else [])
  }

  lemma {:induction false} DeletedIdsAppend(a: seq<Effect>, b: seq<Effect>)
    ensures DeletedIds(a + b) == DeletedIds(a) + DeletedIds(b)
    decreases |b|
  {
    if |b| == 0 {
      assert a + b == a;
    } else {
      assert (a + b)[..|a + b| - 1] == a + b[..|b| - 1];
      DeletedIdsAppend(a, b[..|b| - 1]);
    }
  }

  /** One step deletes exactly the message it handled, when that message is
      a foreign one in the flood channel. */
  lemma StepDeletedIds(config: Config, m: Message, env: Env)
    ensures DeletedIds(MessageCreate(config, m, env).effects) ==
              (if m.authorId != env.botUserId && m.channelId == config.floodChannelId then [m.id] else [])
  {
    if m.authorId != env.botUserId {
      var handled := HandleCommand(config, m, env);
      assert |handled.effects| <= 1;
      assert DeletedIds(handled.effects) == [];
      if m.channelId == config.floodChannelId {
        var delete := ScheduleDelete(config.floodChannelId, m.id, GetMessageDelay(handled.config));
        DeletedIdsAppend(handled.effects, [delete]);
        assert DeletedIds([delete]) == [m.id] by {
          assert [delete][..0] == [];
        }
      }
    }
  }

  /** Every foreign message posted in the flood channel is scheduled for
      deletion exactly once, in arrival order, and nothing else is. */
  lemma {:induction false} RunDeletesFloodMessages(config: Config, events: seq<Event>)
    ensures DeletedIds(Run(config, events).effects) == FloodMessageIds(config, events)
    decreases |events|
  {
    if |events| > 0 {
      var init := events[..|events| - 1];
      var e := events[|events| - 1];
      var before := Run(config, init);
      RunDeletesFloodMessages(config, init);
      DeletedIdsAppend(before.effects, MessageCreate(before.config, e.message, e.env).effects);
      StepDeletedIds(before.config, e.message, e.env);
    }
  }

  /** Every deletion a run schedules is in the flood channel and waits a
      positive delay, whatever delays were stored along the way. */
  lemma {:induction false} RunDeletionsPositive(config: Config, events: seq<Event>)
    ensures forall e :: e in Run(config, events).effects && e.ScheduleDelete? ==>
              e.channel == config.floodChannelId && e.delay > 0
    decreases |events|
  {
    if |events| > 0 {
      RunDeletionsPositive(config, events[..|events| - 1]);
    }
  }

  /** After a run, the stored custom delay is the one set by the last
      accepted `!setdelay`, or the starting one when none was accepted: the
      last accepted write wins, whoever held the admin role at which time. */
  lemma {:induction false} RunStoresLastAccepted(config: Config, events: seq<Event>)
    ensures Run(config, events).config.customMessageDelay ==
              (match LastAccepted(config, events)
               case Some(d) => d
               case None => config.customMessageDelay)
    decreases |events|
  {
    if |events| > 0 {
      var init := events[..|events| - 1];
      var e := events[|events| - 1];
      RunStoresLastAccepted(config, init);
      var before := Run(config, init);
      assert AcceptedDelay(before.config, e.message, e.env) == AcceptedDelay(config, e.message, e.env);
    }
  }

  /** From start-up, the delay that governs deletions is the last accepted
      one if that was positive, and the 24-hour default otherwise, so also
      after an accepted `!setdelay 0s` or `!setdelay -1h`. */
  lemma {:induction false} EffectiveDelayAfterRun(floodChannelId: ChannelId, adminRoleId: RoleId, events: seq<Event>)
    ensures GetMessageDelay(Run(Initial(floodChannelId, adminRoleId), events).config) ==
              (match LastAccepted(Initial(floodChannelId, adminRoleId), events)
               case Some(d) => if d > 0 then d else DefaultDelay
               case None => DefaultDelay)
  {
    RunStoresLastAccepted(Initial(floodChannelId, adminRoleId), events);
  }

  /** Messages whose authors are not admins when they are handled never
      change the configuration, however many `!setdelay` commands they send. */
  lemma {:induction false} NonAdminsKeepConfig(config: Config, events: seq<Event>)
    requires forall i :: 0 <= i < |events| ==>
               !IsUserAdmin(events[i].env.guildMember(events[i].message.guildId, events[i].message.authorId),
                            config.adminRoleId)
    ensures Run(config, events).config == config
    decreases |events|
  {
    if |events| > 0 {
      var init := events[..|events| - 1];
      var e := events[|events| - 1];
      assert forall i :: 0 <= i < |init| ==> init[i] == events[i];
      NonAdminsKeepConfig(config, init);
      assert AcceptedDelay(config, e.message, e.env).None?;
    }
  }
}
