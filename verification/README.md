# Flood-channel bot: per-message decision step

A Dafny model of the Discord bot in `main.go` that deletes every message
posted in one "flood" channel after a delay, and lets holders of an admin
role change that delay with `!setdelay <duration>`.

The Go handlers read and write package globals and call Discord through a
session. The model makes one incoming message one pure transition:

    MessageCreate(config, message, env) -> Transition(config', effects)

- `Config` holds the globals `customMessageDelay`, `floodChannelID` and
  `adminRoleID`. `DefaultDelay` is the constant `time.Hour * 24`. Durations
  are Go's `time.Duration`: signed 64-bit nanosecond counts.
- `Env` holds what the code asks the outside world:
  - the bot's own user id;
  - `time.ParseDuration`, as an oracle returning `None` on a parse error;
  - `GuildMember`, as an oracle returning `None` on a lookup error.
- `Effect` is what the step asks the outside world to do:
  - `SendMessage(channel, text)` is `ChannelMessageSend`;
  - `ConfirmDelay(flood, d)` is the confirmation of a new delay;
  - `ScheduleDelete(flood, id, delay)` is the goroutine that sleeps and then
    deletes the message.

Files:
- `wrappers.dfy` holds `Option`.
- `text.dfy` holds `strings.HasPrefix` and `strings.Split` with Go's
  semantics for a one-character separator. `Split` and `Join` are proved
  mutually inverse on separator-free fields.
- `bot.dfy` holds the handlers of `main.go`.
- `runs.dfy` holds runs over sequences of messages, each handled with the
  outside world as it was at that moment (roles may change between
  messages, a lookup may fail once and succeed later), and what they
  guarantee:
  - every foreign flood-channel message is deleted exactly once;
  - every scheduled delay is positive;
  - the last accepted `!setdelay` wins;
  - non-admins never change the configuration.

Behaviour of `main.go` worth knowing when reading the model:
- `!setdelay` checks the argument count, then the duration parse, then admin
  rights. A non-admin with a bad duration therefore gets the format reply,
  not the permission reply.
- A zero or negative duration from an admin is accepted, stored and
  confirmed. `getMessageDelay` then falls back to the 24-hour default, so the
  delay in force is always positive, but the confirmation names a delay that
  does not apply (`NonPositiveDelayConfirmedButIgnored`).
- The prefix test is `HasPrefix("!setdelay")`, so `!setdelayx 5m` is
  accepted. The split is on single spaces, so a doubled space gives three
  fields and the usage reply.
- The handler recognises only `!setdelay`; any other content gets no reply.

## Model

| member | source | states |
|---|---|---|
| Text.HasPrefixIffAppend | main.go:79 | `HasPrefix` holds exactly when the content is the prefix followed by some text |
| Text.Split | main.go:80 | the fields are separator-free, there is one more field than there are separators, and joining them with the separator gives back the input |
| Text.SplitJoin | main.go:80 | splitting the join of separator-free fields gives back those fields (the other half of the round trip) |
| Text.SplitOneSeparator | main.go:80-82 | a text with exactly one space splits into the text before it and the text after it, the two-field case the handler accepts |
| Bot.GetMessageDelay | main.go:118-123 | the effective delay is always positive; it is the custom delay when that is positive and the 24-hour default otherwise |
| Bot.RoleListed | main.go:132-137 | the role scan finds the role exactly when it occurs in the member's roles |
| Bot.IsUserAdmin | main.go:125-138 | a failed member lookup gives false (fail closed); otherwise true exactly when the admin role is among the member's roles |
| Bot.SetMessageDelay | main.go:102-105 | stores exactly the given delay, confirms it in the flood channel and changes nothing else; the delay in force is then that delay if positive, else the default |
| Bot.HandleCommand | main.go:74-100 | non-command content changes nothing and sends nothing; wrong field count gives only the usage reply; a parse failure gives only the format reply, before any admin check; a parsed delay from a non-admin gives only the permission reply; an accepted command stores the parsed delay and confirms it; at most one effect; flood channel and admin role never change |
| Bot.MessageCreate | main.go:63-72 | a self-authored message changes nothing and emits nothing; a deletion is scheduled if and only if the message is foreign and in the flood channel, exactly once, for this message id, in the flood channel, with the positive delay in force after command handling, and after the command's reply |
| Bot.NoCommandDeletes | main.go:74-100 | command handling itself never schedules a deletion |
| Bot.SetDelayGovernsOwnDeletion | main.go:68-116 | an accepted positive `!setdelay` posted in the flood channel is confirmed and then deleted after the delay it has just set |
| Bot.NonPositiveDelayConfirmedButIgnored | main.go:102-123 | an accepted zero or negative delay is stored and confirmed as given, while the delay in force stays the 24-hour default |
| Bot.AcceptedDelay | main.go:79-98 | a message is accepted only if its content starts with `!setdelay`, has exactly one space, its argument parses to the accepted delay, and its author is an admin |
| Bot.AcceptedDelayFields | main.go:79-98 | an accepted command is always a prefixed space-free head, one space and a space-free argument that parses to the stored delay, from an admin (the converse of `AcceptedFromFields`) |
| Bot.PrefixBeforeSpace | main.go:79-82 | the first field of content that starts with `!setdelay` carries the whole prefix, since the prefix has no space |
| Bot.AcceptedFromFields | main.go:79-98 | content of the form prefixed head, one space, argument is accepted with the parsed argument when the author is an admin |
| Bot.LoosePrefixAccepted | main.go:79-98 | any text may follow `!setdelay` before the single space (`!setdelayx 5m`): from an admin the parsed argument becomes the stored delay, because the code checks only the prefix |
| Bot.DoubleSpaceIsUsageError | main.go:63-85 | `!setdelay` followed by two spaces gets only the usage reply from the command handler, whoever sends it and whatever the argument; the configuration never changes; in the flood channel the message is then scheduled for deletion with the unchanged delay, and the bot's own message does nothing |
| Runs.Run | main.go:63-72 | no sequence of messages, under any changing outside world, changes the flood channel or the admin role |
| Runs.StepDeletedIds | main.go:68-71 | one step schedules deletion of exactly the message it handled when that is a foreign flood-channel message, and of nothing otherwise |
| Runs.RunDeletesFloodMessages | main.go:63-116 | over any sequence of messages, the deleted ids are exactly the foreign flood-channel messages, each once, in arrival order |
| Runs.RunDeletionsPositive | main.go:107-123 | every deletion scheduled over a run targets the flood channel and waits a positive delay, whatever was stored |
| Runs.RunStoresLastAccepted | main.go:98-105 | after a run the stored delay is the one from the last accepted `!setdelay`, each judged by the role lookup at its own time, or the starting one when none was accepted |
| Runs.EffectiveDelayAfterRun | main.go:118-123 | from start-up, the delay in force is the last accepted delay if positive, else the 24-hour default |
| Runs.NonAdminsKeepConfig | main.go:93-96 | messages whose authors are not admins when handled (including failed lookups) never change the configuration, however many `!setdelay` commands they send |

## Left out

- Start-up and shutdown (`init`, `main`): `.env` loading, environment
  variables, session creation, `Open`/`Close` and signal handling are
  process lifecycle and I/O. `Initial` gives the state they leave behind.
- The deletion goroutine's `time.Sleep` and the `ChannelMessageDelete` call
  are timing and concurrency. They are the `ScheduleDelete` effect, which
  carries the delay captured when the message arrived.
- `time.ParseDuration` is a library call. It is an oracle in `Env` returning
  a nanosecond count or `None`.
- `GuildMember`, `ChannelMessageSend` and `State.User.ID` are Discord calls.
  Lookups are `Env` inputs and sends are effects. The errors returned by
  sends and deletes are ignored by the code and absent from the model.
- The confirmation's `%s` rendering of the duration is not modelled.
  `ConfirmDelay` carries the duration value.
- The debug prints in `handleCommand` and `isUserAdmin` are output only.
- Concurrent `messageCreate` calls race on `customMessageDelay`: one writes
  it at main.go:103 while another reads it at main.go:119. The code does
  not prevent this; the model treats handler calls as sequential. Each
  deletion goroutine uses only the delay captured at main.go:108.
