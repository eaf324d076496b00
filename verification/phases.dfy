/**
 The tracker seen as an explicit three-phase machine: Idle (no fight, no
 cooldown), Active (a fight is running) and Cooldown (a fight has ended and
 its results are still on display). The plugin encodes the phase in two
 fields, `fightActive` and `ticksSinceFightEnd`, and keeps a third,
 `overlayActive`, that the invariant ties to the phase. This module defines
 the phase machine on its own terms and proves that every handler of the
 plugin moves along it.
 */
module Phases {
  import opened Types
  import opened Text
  import opened Detection
  import opened Plugin

  datatype Phase = Idle | Active | Cooldown(elapsed: nat)

  /** The tracker's state with its phase made explicit. Counters and flags
      are kept in every phase. */
  datatype Tracker = Tracker(phase: Phase, own: Int32, total: Int32, isMVP: bool, minContribution: bool)

  /** A cooldown never reaches the removal threshold. */
  ghost predicate WellFormed(t: Tracker)
  {
    t.phase.Cooldown? ==> t.phase.elapsed < OverlayRemoveTicks
  }

  /** The phase encoded by a plugin state. */
  function Abstract(s: State): (t: Tracker)
    requires Valid(s)
    ensures WellFormed(t)
    ensures t.phase == Idle <==> !s.fightActive && s.ticksSinceFightEnd == -1
    ensures s.overlayActive <==> t.phase != Idle
  {
    var phase :=
      if s.fightActive then Active
      else if s.ticksSinceFightEnd >= 0 then Cooldown(s.ticksSinceFightEnd)
      else Idle;
    Tracker(phase, s.ownContribution, s.totalContribution, s.isMVP, s.minContribution)
  }

  /** The plugin state that encodes a tracker. */
  function Concrete(t: Tracker): (s: State)
    requires WellFormed(t)
    ensures Valid(s)
  {
    var ticks := match t.phase
      case Cooldown(k) => k
      case _ => -1;
    State(t.phase == Active, t.phase != Idle, t.isMVP, t.minContribution, t.own, t.total, ticks)
  }

  /** The encoding is a bijection between valid plugin states and
      well-formed trackers. */
  lemma EncodingRoundTrip(s: State, t: Tracker)
    requires Valid(s) && WellFormed(t)
    ensures Concrete(Abstract(s)) == s
    ensures Abstract(Concrete(t)) == t
  {
  }

  /** A phase change together with the effects it performs. */
  datatype Move = Move(tracker: Tracker, effects: seq<Effect>)

  /** A tick, phase by phase. */
  function Tick(t: Tracker, nexPresent: bool, players: nat): (m: Move)
    requires WellFormed(t)
    ensures WellFormed(m.tracker)
  {
    var ended := Snapshot(0, 0, players, t.isMVP, t.minContribution, PhaseEnded);
    match t.phase
    case Idle => Move(t, [])
    case Active =>
      if nexPresent then
        Move(t.(own := 0, total := 0), Publish(Snapshot(t.own, t.total, players, t.isMVP, t.minContribution, PhaseLive)))
      else
        Move(t.(phase := Cooldown(0)), Publish(ended))
    case Cooldown(k) =>
      if k + 1 == OverlayRemoveTicks then
        Move(t.(phase := Idle), [Detach] + Publish(Cleared))
      else
        Move(t.(phase := Cooldown(k + 1)), if k + 1 == ResetDelayTicks then Publish(ended) else [])
  }

  /** A hitsplat while the boss is present. In a fight it is counted; outside
      one, a trigger opens a fresh fight, which adds the overlay only when
      coming from Idle (a cooldown still holds it). */
  function Hit(t: Tracker, trigger: bool, hit: Hitsplat, showOverlay: bool): (m: Move)
    requires WellFormed(t)
    ensures WellFormed(m.tracker)
  {
    var counted := hit.actor.NpcActor?;
    if t.phase == Active then
      Move(t.(own := if counted && hit.isMine then Wrap32(t.own + hit.amount) else t.own,
              total := if counted && !hit.isHeal then Wrap32(t.total + hit.amount) else t.total), [])
    else if trigger then
      Move(Tracker(Active,
                   if counted && hit.isMine then hit.amount else 0,
                   if counted && !hit.isHeal then hit.amount else 0,
                   false, false),
           if t.phase == Idle && showOverlay then [Attach] else [])
    else
      Move(t, [])
  }

  /** A showOverlay change attaches exactly when shown and the phase is not Idle. */
  function ShowOverlayChanged(t: Tracker, showOverlay: bool): (m: Move)
  {
    Move(t, if showOverlay && t.phase != Idle then [Attach] else [Detach])
  }

  /** The game-tick handler moves along the phase machine. */
  lemma TickRefines(s: State, npcs: seq<int>, players: nat, showOverlay: bool)
    requires Valid(s)
    ensures var r := OnGameTick(s, npcs, players, showOverlay);
            var m := Tick(Abstract(s), NexPresent(npcs), players);
            Valid(r.state) && Abstract(r.state) == m.tracker && r.effects == m.effects
  {
  }

  /** The hitsplat handler moves along the phase machine; the trigger is the
      fight-start rule applied to the first Nex form, and a rule that throws
      counts as no trigger. */
  lemma HitRefines(s: State, npcs: seq<int>, localPlayer: Option<int>, hit: Hitsplat, showOverlay: bool)
    requires Valid(s)
    ensures var r := OnHitsplatApplied(s, npcs, localPlayer, hit, showOverlay);
            Valid(r.state)
            && (!NexPresent(npcs) ==> Abstract(r.state) == Abstract(s) && r.effects == [])
            && (NexPresent(npcs) ==>
                  var m := Hit(Abstract(s), WasNexInteraction(hit.actor, FindNex(npcs).value, localPlayer) == Some(true), hit, showOverlay);
                  Abstract(r.state) == m.tracker && r.effects == m.effects)
  {
  }

  /** Chat messages only ever set flags, in any phase. */
  lemma ChatKeepsPhase(s: State, chatType: ChatType, message: string)
    requires Valid(s)
    ensures var t := Abstract(s);
            var t' := Abstract(OnChatMessage(s, chatType, message).state);
            && t'.phase == t.phase && t'.own == t.own && t'.total == t.total
            && (t.isMVP ==> t'.isMVP) && (t.minContribution ==> t'.minContribution)
  {
  }

  /** A showOverlay change attaches the overlay exactly when it is now shown
      and a fight or cooldown is under way. */
  lemma ConfigRefines(s: State, showOverlay: bool)
    requires Valid(s)
    ensures var r := OnConfigChanged(s, ConfigGroup, ShowOverlayKey, showOverlay);
            var m := ShowOverlayChanged(Abstract(s), showOverlay);
            Abstract(r.state) == m.tracker && r.effects == m.effects
  {
  }
}
