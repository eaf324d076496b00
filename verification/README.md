# Nex droprate calculator — fight tracker model

A Dafny model of the fight-tracking state machine of the RuneLite plugin
"Nex Droprate Calculator". The plugin watches a Nex fight. A hitsplat on a
player who is attacking the boss, or on the boss while it targets the local
player, starts a fight. While the fight runs, every game tick sends
that tick's own and total damage to the side panel and to the overlay, and then
restarts the counters. When the boss disappears, the fight ends. Two chat
messages set the "MVP" and "received a drop" flags. After the fight a cooldown
counts ticks: the results are shown again at tick 2. At tick 50 the overlay is
removed and both displays are cleared.

Files:

- `types.dfy` (module `Types`): Java `int` (`Int32`, `Wrap32`), actors,
  hitsplats, the six-value snapshot and the effects (display updates, overlay
  attach/detach).
- `text.dfy` (module `Text`): `String.contains` and its meaning.
- `detection.dfy` (module `Detection`): `findNex` (first NPC with an id in
  11278..11282) and `wasNexInteraction` (the fight-start rule).
- `plugin.dfy` (module `Plugin`): the plugin's fields as an immutable `State`,
  one pure function per handler and helper, returning the next state and the
  effects in order. It also holds the invariant `Valid`.
- `phases.dfy` (module `Phases`): an independent Idle / Active / Cooldown(k)
  machine, the encoding of the plugin's fields into it, and lemmas that every
  handler moves along that machine.
- `trace.dfy` (module `Trace`): event dispatch and runs, the invariant on
  every reachable state, the cooldown countdown, and worked scenarios.

What the handlers read from the host is a parameter:

- the NPC ids the client lists, in order;
- the player count;
- the local player's id, which is `None` when the client has none;
- the hitsplat's fields;
- the `showOverlay` setting.

## Model

| member | source | states |
|---|---|---|
| Types.Wrap32 | src/main/java/com/nexdropratecalculator/NexDroprateCalculatorPlugin.java:205-208 | the counters' `+=` is Java `int` addition: the result is the 32-bit value congruent to the exact sum, and equals it when the sum fits |
| Text.ContainsIff | src/main/java/com/nexdropratecalculator/NexDroprateCalculatorPlugin.java:172-176 | the message search succeeds exactly when the pattern occurs at some position of the message |
| Text.ContainsEmbedded | src/main/java/com/nexdropratecalculator/NexDroprateCalculatorPlugin.java:172-176 | a message with the pattern anywhere inside it matches |
| Detection.FindNex | src/main/java/com/nexdropratecalculator/NexDroprateCalculatorPlugin.java:249-254 | null exactly when no NPC id lies in 11278..11282; otherwise the id of the first such NPC in the client's order |
| Detection.WasNexInteraction | src/main/java/com/nexdropratecalculator/NexDroprateCalculatorPlugin.java:216-242 | the rule holds iff a player is interacting with an NPC with the boss's id, or the NPC with the boss's id is interacting with the player whose id is the local player's; it throws exactly when that second case needs a local player and there is none |
| Detection.UnrelatedCombatNeverTriggers | src/main/java/com/nexdropratecalculator/NexDroprateCalculatorPlugin.java:216-242 | a player not attacking the boss, or an NPC that is not the boss, never starts a fight |
| Plugin.SetOverlayActive | src/main/java/com/nexdropratecalculator/NexDroprateCalculatorPlugin.java:159-167 | asking for the current value does nothing; activating attaches only when shown; deactivating always detaches; no other field changes |
| Plugin.ShutDown | src/main/java/com/nexdropratecalculator/NexDroprateCalculatorPlugin.java:64-76 | disabling removes the overlay and clears the fight and overlay flags; the cooldown counter, counters and chat flags keep their values |
| Plugin.ShutDownDuringCooldown | src/main/java/com/nexdropratecalculator/NexDroprateCalculatorPlugin.java:64-76 | a shutdown one tick before the end of a cooldown leaves a state outside the invariant, and the next tick clears the displays without removing the overlay |
| Plugin.SetOverlayActiveIdempotent | src/main/java/com/nexdropratecalculator/NexDroprateCalculatorPlugin.java:159-167 | repeating an overlay request performs no second attach or detach |
| Plugin.StartFight | src/main/java/com/nexdropratecalculator/NexDroprateCalculatorPlugin.java:135-147 | a fight start cancels the cooldown, clears both flags and both counters, and wants the overlay, attaching it only if it was not wanted and is shown |
| Plugin.EndFight | src/main/java/com/nexdropratecalculator/NexDroprateCalculatorPlugin.java:149-157 | a fight end starts the cooldown at 0, keeps counters and flags, and sends one ended snapshot (0, 0, players, flags, 0) to each display |
| Plugin.Count | src/main/java/com/nexdropratecalculator/NexDroprateCalculatorPlugin.java:200-212 | only hitsplats on NPCs count; the own counter grows by the amount exactly when the hitsplat is mine, the total exactly when it is not a heal |
| Plugin.OnGameTick | src/main/java/com/nexdropratecalculator/NexDroprateCalculatorPlugin.java:89-133 | keeps the invariant; in a fight with the boss present, one live snapshot per display and only the counters change (to 0); boss gone ends the fight at cooldown 0; a cooldown tick advances by one, dumps exactly at 2, and from 50 detaches, clears and stops without clearing the flags; idle ticks do nothing |
| Plugin.OnHitsplatApplied | src/main/java/com/nexdropratecalculator/NexDroprateCalculatorPlugin.java:183-213 | keeps the invariant; nothing happens without the boss, or outside a fight when the rule fails or throws; a trigger opens a fresh fight and counts the triggering hitsplat; in a fight, hitsplats on any NPC are counted and nothing else changes |
| Plugin.OnChatMessage | src/main/java/com/nexdropratecalculator/NexDroprateCalculatorPlugin.java:169-181 | a game message sets the MVP flag iff it contains the MVP text and the drop flag iff it contains "received a drop"; flags are never cleared and nothing else changes |
| Plugin.OnConfigChanged | src/main/java/com/nexdropratecalculator/NexDroprateCalculatorPlugin.java:78-87 | a change of this plugin's `showOverlay` key attaches iff shown and wanted and detaches otherwise; any other change does nothing; the state never changes |
| Phases.Abstract | src/main/java/com/nexdropratecalculator/NexDroprateCalculatorPlugin.java:35-46 | the fields encode one of Idle, Active or Cooldown(k) with k below 50, and the overlay is wanted exactly when the phase is not Idle |
| Phases.Concrete | src/main/java/com/nexdropratecalculator/NexDroprateCalculatorPlugin.java:35-46 | every phase has an encoding that satisfies the invariant |
| Phases.EncodingRoundTrip | src/main/java/com/nexdropratecalculator/NexDroprateCalculatorPlugin.java:35-46 | the encoding is a bijection between valid field values and phases |
| Phases.Tick | src/main/java/com/nexdropratecalculator/NexDroprateCalculatorPlugin.java:113-131 | a cooldown tick never reaches 50 without returning to Idle |
| Phases.Hit | src/main/java/com/nexdropratecalculator/NexDroprateCalculatorPlugin.java:190-198 | a hitsplat never puts the machine into a cooldown at or beyond 50 |
| Phases.TickRefines | src/main/java/com/nexdropratecalculator/NexDroprateCalculatorPlugin.java:89-133 | the tick handler follows the phase machine: Idle stays; Active stays or goes to Cooldown(0); Cooldown(k) goes to Cooldown(k+1) or, at 50, back to Idle with a detach |
| Phases.HitRefines | src/main/java/com/nexdropratecalculator/NexDroprateCalculatorPlugin.java:183-213 | the hitsplat handler follows the phase machine; a restart during a cooldown performs no attach because the overlay is still wanted |
| Phases.ChatKeepsPhase | src/main/java/com/nexdropratecalculator/NexDroprateCalculatorPlugin.java:169-181 | a chat message never changes the phase or the counters and never clears a flag |
| Phases.ConfigRefines | src/main/java/com/nexdropratecalculator/NexDroprateCalculatorPlugin.java:78-87 | a `showOverlay` change attaches exactly when shown and a fight or cooldown is under way |
| Trace.Dispatch | src/main/java/com/nexdropratecalculator/NexDroprateCalculatorPlugin.java:78-213 | every subscribed handler keeps the invariant |
| Trace.Run | src/main/java/com/nexdropratecalculator/NexDroprateCalculatorPlugin.java:78-213 | any sequence of events keeps the invariant |
| Trace.ReachableStatesValid | src/main/java/com/nexdropratecalculator/NexDroprateCalculatorPlugin.java:44-46 | from the initial fields, after any events: -1 <= ticksSinceFightEnd < 50, fightActive implies ticksSinceFightEnd = -1, and overlayActive holds exactly during a fight or its cooldown |
| Trace.IdleStaysQuiet | src/main/java/com/nexdropratecalculator/NexDroprateCalculatorPlugin.java:112-133 | with no fight and no cooldown, ticks and boss-less hitsplats change nothing and show nothing |
| Trace.CooldownCountsTicks | src/main/java/com/nexdropratecalculator/NexDroprateCalculatorPlugin.java:113-122 | each cooldown tick adds one to the counter whether or not the boss is present, and the dump is shown once, on reaching 2 |
| Trace.CooldownEndsAfterFiftyTicks | src/main/java/com/nexdropratecalculator/NexDroprateCalculatorPlugin.java:113-131 | fifty ticks after a fight ends: one dump, one detach, one cleared snapshot per display, then idle with flags still set |
| Trace.FlagsClearedOnlyByFightStart | src/main/java/com/nexdropratecalculator/NexDroprateCalculatorPlugin.java:135-147 | a flag is cleared only by a step that starts a fight |
| Trace.FlagsStickWithoutHitsplats | src/main/java/com/nexdropratecalculator/NexDroprateCalculatorPlugin.java:169-181 | without hitsplats no fight starts and flags once set stay set |
| Trace.FirstHitStartsFight | src/main/java/com/nexdropratecalculator/NexDroprateCalculatorPlugin.java:183-213 | the local player's hit of 10 on Nex (targeting them) starts the fight, the next tick shows (10, 10, players, false, false, 1), and the counters restart |
| Trace.HitOnNexTargetingOtherPlayerIgnored | src/main/java/com/nexdropratecalculator/NexDroprateCalculatorPlugin.java:216-242 | the same hit while Nex targets another player starts nothing |
| Trace.HitOnAttackingPlayerStartsFightUncounted | src/main/java/com/nexdropratecalculator/NexDroprateCalculatorPlugin.java:190-212 | a hitsplat on the local player while they attack Nex starts the fight and attaches the overlay, but counts nothing because it did not land on an NPC |
| Trace.CountersOutliveFight | src/main/java/com/nexdropratecalculator/NexDroprateCalculatorPlugin.java:149-157 | a fight can end with its last tick's counters still non-zero |

## Notes on behaviour

- Fight-start rule. The rule looks at the actor the hitsplat landed on. A
  player hit while attacking the boss starts a fight. So does the boss being
  hit while it targets the local player. The local player's own hit on the
  boss does not start a fight while the boss targets someone else
  (`Trace.HitOnNexTargetingOtherPlayerIgnored`). Lines 216-242 are the only
  fight-start rule.
- Counting. Once a fight runs, hitsplats on any NPC are counted, not only
  those on the boss (line 201). Hitsplats on players never are.
- Counters after a fight. They are not zeroed when a fight ends. They keep
  the last tick's values until the next fight starts (lines 143-144).
  `Trace.CountersOutliveFight` shows such a state. No snapshot shows
  these values: the ended, dump and cleared snapshots all send 0.
- The removal threshold is compared with `>=` (line 124). Under the invariant,
  the counter reaches exactly 50.

## Left out

- Plugin lifecycle and host wiring (`startUp`, navigation button, icon
  loading, panel set-up and tear-down, injection, `provideConfig`): RuneLite
  plumbing. The initial state is the fields' initialisers. The part of
  `shutDown` that touches tracker fields is modelled as `Plugin.ShutDown`.
- Runs with a disable/enable cycle: `shutDown` clears `fightActive` and
  `overlayActive` but not `ticksSinceFightEnd`, and the same instance is
  reused when the plugin is enabled again. `Plugin.Valid`,
  `Trace.ReachableStatesValid` and the `Phases.*Refines` lemmas cover only
  runs from the field initialisers with no shutdown. After a shutdown during
  a cooldown the state is outside `Valid`, and the end of that cooldown
  clears the displays with no overlay removal (`Plugin.ShutDownDuringCooldown`).
- Logging (`log.debug`): it has no effect on state or outputs.
- Panel and overlay rendering: `updateValues` is modelled only as a recorded
  `Update` effect, and `overlayManager.add/remove` only as `Attach`/`Detach`.
- RuneLite `Client`, `Actor`, `Hitsplat` and `NPC` objects: replaced by plain
  values. An actor is a player or an NPC with an id and an interacting target
  (possibly none). The hitsplat type enters only as "is HEAL".
- The event bus and threading: handlers run one at a time, as the host
  calls them.
- A missing local player: reading its id throws a `NullPointerException`.
  This happens before any field is written. The model treats it as a
  handler that changes nothing and performs no effect. What the host does
  with the exception is not modelled.
- Width of `ticksSinceFightEnd`: it is an unbounded integer, not a
  Java `int`. Its `++` cannot wrap, because the invariant keeps it below 50.
