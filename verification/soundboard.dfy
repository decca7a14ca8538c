/** The `!soundboard` command: an administrator switches the soundboard
    on or off. */
module Soundboard {
  import opened Wrappers
  import opened PyStr

  /** The two confirmations (translation keys `SOUNDBOARD_ENABLED` and
      `SOUNDBOARD_DISABLED`). */
  datatype Reply = Enabled | Disabled

  /** The state a subcommand asks for: `enable` and `disable` in any case,
      nothing for any other word or a missing one. */
  function Requested(args: seq<string>): Option<bool> {
    if |args| == 0 then None
    else if Lower(args[0]) == "enable" then Some(true)
    else if Lower(args[0]) == "disable" then Some(false)
    else None
  }

  /** `SoundboardHandler.handle_command` on the flag `enabled`: the new flag
      and the confirmation, or nothing for an unknown subcommand. */
  function Handle(enabled: bool, args: seq<string>): (r: (Option<Reply>, bool))
    ensures r.0.None? <==> Requested(args).None?
    ensures r.1 == Requested(args).GetOr(enabled)
    ensures r.0.Some? ==> (r.0.value.Enabled? <==> r.1)
  {
    if |args| < 1 then (None, enabled)
    else
      var command := Lower(args[0]);
      if command == "enable" then (Some(Enabled), true)
      else if command == "disable" then (Some(Disabled), false)
      else (None, enabled)
  }

  /** Each handled subcommand's flag, in order. */
  function Run(enabled: bool, commands: seq<seq<string>>): bool
    decreases |commands|
  {
    if |commands| == 0 then enabled
    else Run(Handle(enabled, commands[0]).1, commands[1..])
  }

  /** The last subcommand that asks for a state, if any. */
  function LastRequested(commands: seq<seq<string>>): Option<bool>
    decreases |commands|
  {
    if |commands| == 0 then None
    else
      var later := LastRequested(commands[1..]);
      if later.Some? then later else Requested(commands[0])
  }

  /** After a series of `!soundboard` commands the flag is what the last
      `enable` or `disable` asked for, and unchanged when there was none. */
  lemma {:induction false} LastCommandWins(enabled: bool, commands: seq<seq<string>>)
    ensures Run(enabled, commands) == LastRequested(commands).GetOr(enabled)
    decreases |commands|
  {
    if |commands| > 0 {
      LastCommandWins(Handle(enabled, commands[0]).1, commands[1..]);
    }
  }

  /** Repeating a command changes nothing more: each subcommand is
      idempotent. */
  lemma HandleIdempotent(enabled: bool, args: seq<string>)
    ensures var once := Handle(enabled, args);
            Handle(once.1, args) == once
  {
  }
}
