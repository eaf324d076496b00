/**
 The fight-tracking state machine of the Nex droprate calculator plugin.

 The plugin's fields become an immutable `State`; each event handler becomes a
 pure function from the current state and the event's inputs to the next state
 plus the effects the handler performs, in order: `updateValues` calls on the
 panel and the overlay, and the overlay being added to or removed from the
 overlay manager. What the handlers read from the client (the NPC list, the
 player count, the local player) and from the configuration (`showOverlay`)
 are parameters.
 */
module Plugin {
  import opened Types
  import opened Text
  import opened Detection

  /** After this many ticks without a fight the panel shows the fight's results. */
  const ResetDelayTicks: int := 2
  /** After this many ticks without a fight the overlay is removed and the displays cleared. */
  const OverlayRemoveTicks: int := 50

  const ConfigGroup: string := "nex-droprate-calculator"
  const ShowOverlayKey: string := "showOverlay"
  const MvpMessage: string := "You were the MVP for this fight"
  const DropMessage: string := "received a drop"

  /** The plugin's fields. The two contributions are Java `int`s; the tick
      counter is -1 while no cooldown is running. */
  datatype State = State(
    fightActive: bool,
    overlayActive: bool,
    isMVP: bool,
    minContribution: bool,
    ownContribution: Int32,
    totalContribution: Int32,
    ticksSinceFightEnd: int)

  /** The fields' initial values. */
  const Initial: State := State(false, false, false, false, 0, 0, -1)

  /** The state after a handler, and what the handler did, in order. */
  datatype Step = Step(state: State, effects: seq<Effect>)

  /** What holds between any two handlers of a run that starts from the
      fields' initial values and has no shutdown in it: the cooldown counter
      stays below the removal threshold, a running fight has no cooldown, and
      the overlay is wanted exactly while a fight or its cooldown lasts. A
      shutdown during a cooldown breaks it (see `ShutDownDuringCooldown`). */
  ghost predicate Valid(s: State)
  {
    && -1 <= s.ticksSinceFightEnd < OverlayRemoveTicks
    && (s.fightActive ==> s.ticksSinceFightEnd == -1)
    && (s.overlayActive <==> s.fightActive || s.ticksSinceFightEnd >= 0)
  }

  /** The snapshot shown when a fight ends and again when its results are
      dumped: live counters zero, the fight's flags, phase code 0. */
  function Ended(s: State, players: nat): Snapshot
  {
    Snapshot(0, 0, players, s.isMVP, s.minContribution, PhaseEnded)
  }

  /** Records whether the overlay is wanted. Asking for the current value does
      nothing; otherwise activation adds the overlay only when the
      configuration shows it, and deactivation always removes it. */
  function SetOverlayActive(s: State, active: bool, showOverlay: bool): (r: Step)
    ensures r.state.overlayActive == active
    ensures r.state.(overlayActive := s.overlayActive) == s
    ensures active == s.overlayActive ==> r.effects == []
    ensures active && !s.overlayActive ==> r.effects == (if showOverlay then [Attach] else [])
    ensures !active && s.overlayActive ==> r.effects == [Detach]
  {
    if active == s.overlayActive then Step(s, [])
    else
      var s' := s.(overlayActive := active);
      if active then
        Step(s', if showOverlay then [Attach] else [])
      else
        Step(s', [Detach])
  }

  /** Opens a fight: cancels any cooldown, clears both flags and both
      counters, and asks for the overlay. */
  function StartFight(s: State, showOverlay: bool): (r: Step)
    ensures r.state.fightActive && r.state.overlayActive
    ensures r.state.ticksSinceFightEnd == -1
    ensures !r.state.isMVP && !r.state.minContribution
    ensures r.state.ownContribution == 0 && r.state.totalContribution == 0
    ensures r.effects == (if !s.overlayActive && showOverlay then [Attach] else [])
  {
    var s' := s.(
      fightActive := true,
      ticksSinceFightEnd := -1,
      isMVP := false,
      minContribution := false,
      ownContribution := 0,
      totalContribution := 0);
    SetOverlayActive(s', true, showOverlay)
  }

  /** Closes a fight: starts the cooldown at 0 and shows the ended snapshot.
      The counters and flags are left as they are. */
  function EndFight(s: State, players: nat): (r: Step)
    ensures !r.state.fightActive && r.state.ticksSinceFightEnd == 0
    ensures r.state.(fightActive := s.fightActive, ticksSinceFightEnd := s.ticksSinceFightEnd) == s
    ensures r.effects == Publish(Snapshot(0, 0, players, s.isMVP, s.minContribution, PhaseEnded))
  {
    Step(s.(fightActive := false, ticksSinceFightEnd := 0), Publish(Ended(s, players)))
  }

  /** Counts one hitsplat of a running fight. Only hitsplats on NPCs count:
      the local player's add to the own contribution, every non-heal adds to
      the total, each with Java `int` wrap-around. */
  function Count(s: State, hit: Hitsplat): (r: State)
    ensures r.ownContribution ==
      if hit.actor.NpcActor? && hit.isMine then Wrap32(s.ownContribution + hit.amount) else s.ownContribution
    ensures r.totalContribution ==
      if hit.actor.NpcActor? && !hit.isHeal then Wrap32(s.totalContribution + hit.amount) else s.totalContribution
    ensures r.(ownContribution := s.ownContribution, totalContribution := s.totalContribution) == s
  {
    match hit.actor
    case PlayerActor(_, _) => s
    case NpcActor(_, _) =>
      var s1 := if hit.isMine then s.(ownContribution := Wrap32(s.ownContribution + hit.amount)) else s;
      if hit.isHeal then s1 else s1.(totalContribution := Wrap32(s1.totalContribution + hit.amount))
  }

  /** The game-tick handler. During a fight with the boss present it shows the
      tick's counters and starts a new counting window; when the boss has gone
      it ends the fight. Outside a fight it advances a running cooldown:
      results are dumped at tick 2, and from tick 50 the overlay is dropped,
      the displays cleared and the cooldown stopped. */
  function OnGameTick(s: State, npcs: seq<int>, players: nat, showOverlay: bool): (r: Step)
    ensures Valid(s) ==> Valid(r.state)
    // A fight continues: one live snapshot per display, counters restart, nothing else changes.
    ensures s.fightActive && NexPresent(npcs) ==>
      && r.effects == Publish(Snapshot(s.ownContribution, s.totalContribution, players, s.isMVP, s.minContribution, PhaseLive))
      && r.state.ownContribution == 0 && r.state.totalContribution == 0
      && r.state.(ownContribution := s.ownContribution, totalContribution := s.totalContribution) == s
    // The boss has gone: the fight ends on this tick with the cooldown at 0, flags kept.
    ensures s.fightActive && !NexPresent(npcs) ==>
      && !r.state.fightActive && r.state.ticksSinceFightEnd == 0
      && r.effects == Publish(Snapshot(0, 0, players, s.isMVP, s.minContribution, PhaseEnded))
      && r.state.(fightActive := true, ticksSinceFightEnd := s.ticksSinceFightEnd) == s
    // No fight and no cooldown: nothing happens.
    ensures !s.fightActive && s.ticksSinceFightEnd < 0 ==> r == Step(s, [])
    // A cooldown tick before the removal threshold: the counter advances, the
    // dump is shown exactly when it reaches 2.
    ensures !s.fightActive && 0 <= s.ticksSinceFightEnd && s.ticksSinceFightEnd + 1 < OverlayRemoveTicks ==>
      && r.state == s.(ticksSinceFightEnd := s.ticksSinceFightEnd + 1)
      && r.effects == (if s.ticksSinceFightEnd + 1 == ResetDelayTicks
                       then Publish(Snapshot(0, 0, players, s.isMVP, s.minContribution, PhaseEnded))
                       else [])
    // The removal threshold: overlay dropped, displays cleared, cooldown
    // stopped; the flags themselves are not cleared.
    ensures !s.fightActive && s.ticksSinceFightEnd + 1 >= OverlayRemoveTicks ==>
      && r.state == s.(overlayActive := false, ticksSinceFightEnd := -1)
      && r.effects == (if s.overlayActive then [Detach] else []) + Publish(Cleared)
  {
    var nexIsPresent := FindNex(npcs).Some?;
    if s.fightActive then
      if !nexIsPresent then
        EndFight(s, players)
      else
        var live := Snapshot(s.ownContribution, s.totalContribution, players, s.isMVP, s.minContribution, PhaseLive);
        Step(s.(ownContribution := 0, totalContribution := 0), Publish(live))
    else if s.ticksSinceFightEnd >= 0 then
      var s1 := s.(ticksSinceFightEnd := s.ticksSinceFightEnd + 1);
      var dump := if s1.ticksSinceFightEnd == ResetDelayTicks then Publish(Ended(s1, players)) else [];
      if s1.ticksSinceFightEnd >= OverlayRemoveTicks then
        var off := SetOverlayActive(s1, false, showOverlay);
        Step(off.state.(ticksSinceFightEnd := -1), dump + off.effects + Publish(Cleared))
      else
        Step(s1, dump)
    else
      Step(s, [])
  }

  /** The hitsplat handler. Nothing happens unless the boss is present. With
      no fight running, a hitsplat that passes the fight-start rule opens a
      fight and is then counted; any other hitsplat is ignored. */
  function OnHitsplatApplied(s: State, npcs: seq<int>, localPlayer: Option<int>, hit: Hitsplat, showOverlay: bool): (r: Step)
    ensures Valid(s) ==> Valid(r.state)
    // The boss is absent: nothing happens.
    ensures !NexPresent(npcs) ==> r == Step(s, [])
    // No fight, and the hitsplat does not pass the rule (or the rule threw): nothing happens.
    ensures NexPresent(npcs) && !s.fightActive
            && WasNexInteraction(hit.actor, FindNex(npcs).value, localPlayer) != Some(true) ==>
      r == Step(s, [])
    // Fight start: fresh flags and counters, then the triggering hitsplat is counted.
    ensures NexPresent(npcs) && !s.fightActive
            && WasNexInteraction(hit.actor, FindNex(npcs).value, localPlayer) == Some(true) ==>
      && r.state.fightActive && r.state.overlayActive && r.state.ticksSinceFightEnd == -1
      && !r.state.isMVP && !r.state.minContribution
      && r.state.ownContribution == (if hit.actor.NpcActor? && hit.isMine then hit.amount else 0)
      && r.state.totalContribution == (if hit.actor.NpcActor? && !hit.isHeal then hit.amount else 0)
      && r.effects == (if !s.overlayActive && showOverlay then [Attach] else [])
    // During a fight: hitsplats on any NPC are counted, nothing else changes.
    ensures NexPresent(npcs) && s.fightActive ==>
      && r.effects == []
      && r.state.ownContribution ==
         (if hit.actor.NpcActor? && hit.isMine then Wrap32(s.ownContribution + hit.amount) else s.ownContribution)
      && r.state.totalContribution ==
         (if hit.actor.NpcActor? && !hit.isHeal then Wrap32(s.totalContribution + hit.amount) else s.totalContribution)
      && r.state.(ownContribution := s.ownContribution, totalContribution := s.totalContribution) == s
  {
    match FindNex(npcs)
    case None => Step(s, [])
    case Some(nexId) =>
      if !s.fightActive && WasNexInteraction(hit.actor, nexId, localPlayer) != Some(true) then
        Step(s, [])
      else
        var started := if s.fightActive then Step(s, []) else StartFight(s, showOverlay);
        Step(Count(started.state, hit), started.effects)
  }

  /** The chat handler. A game message mentioning the MVP award sets the MVP
      flag; one mentioning a received drop sets the contribution flag. Nothing
      else changes, and no flag is ever cleared here. */
  function OnChatMessage(s: State, chatType: ChatType, message: string): (r: Step)
    ensures Valid(s) ==> Valid(r.state)
    ensures r.effects == []
    ensures r.state.isMVP <==> s.isMVP || (chatType == GameMessage && Contains(message, MvpMessage))
    ensures r.state.minContribution <==> s.minContribution || (chatType == GameMessage && Contains(message, DropMessage))
    ensures r.state.(isMVP := s.isMVP, minContribution := s.minContribution) == s
  {
    if chatType == GameMessage then
      var s1 := if Contains(message, MvpMessage) then s.(isMVP := true) else s;
      var s2 := if Contains(message, DropMessage) then s1.(minContribution := true) else s1;
      Step(s2, [])
    else
      Step(s, [])
  }

  /** The configuration handler. A change of this plugin's `showOverlay` key
      adds the overlay when it is now shown and wanted, and removes it
      otherwise; other changes are ignored. The state never changes. */
  function OnConfigChanged(s: State, group: string, key: string, showOverlay: bool): (r: Step)
    ensures r.state == s
    ensures r.effects == [Attach] <==> group == ConfigGroup && key == ShowOverlayKey && showOverlay && s.overlayActive
    ensures r.effects == [Detach] <==> group == ConfigGroup && key == ShowOverlayKey && !(showOverlay && s.overlayActive)
    ensures r.effects == [] <==> !(group == ConfigGroup && key == ShowOverlayKey)
  {
    if group == ConfigGroup && key == ShowOverlayKey then
      if showOverlay && s.overlayActive then Step(s, [Attach]) else Step(s, [Detach])
    else
      Step(s, [])
  }

  /** Disabling the plugin: the overlay is removed and the fight and overlay
      flags are cleared. The cooldown counter, the counters and the chat flags
      keep their values, and the same state is used when the plugin is
      enabled again. */
  function ShutDown(s: State): (r: Step)
    ensures !r.state.fightActive && !r.state.overlayActive
    ensures r.state.(fightActive := s.fightActive, overlayActive := s.overlayActive) == s
    ensures r.effects == [Detach]
  {
    Step(s.(fightActive := false, overlayActive := false), [Detach])
  }

  /** A shutdown during a cooldown leaves a state outside `Valid`: the counter
      still runs while the overlay is no longer wanted, so the tick that ends
      the cooldown clears the displays without removing the overlay. */
  lemma ShutDownDuringCooldown(s: State, players: nat, showOverlay: bool)
    requires Valid(s) && !s.fightActive && s.ticksSinceFightEnd == OverlayRemoveTicks - 1
    ensures !Valid(ShutDown(s).state)
    ensures OnGameTick(ShutDown(s).state, [], players, showOverlay).effects == Publish(Cleared)
  {
  }

  /** Asking twice for the same overlay state acts only once. */
  lemma SetOverlayActiveIdempotent(s: State, active: bool, showOverlay: bool)
    ensures var first := SetOverlayActive(s, active, showOverlay);
            var second := SetOverlayActive(first.state, active, showOverlay);
            second == Step(first.state, [])
  {
  }
}
