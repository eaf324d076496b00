/**
 Runs of the tracker: the host delivers events one at a time on one thread,
 and a run threads the state through the handlers while concatenating their
 effects. The lemmas here are about whole runs: the invariant holds in every
 reachable state, an idle tracker stays quiet while the boss is away, the
 cooldown counts down to its two thresholds, and worked scenarios.
 */
module Trace {
  import opened Types
  import opened Text
  import opened Detection
  import opened Plugin

  /** One event as the host delivers it, with what the handler reads from the
      client and the configuration at that moment. */
  datatype Event =
    | GameTick(npcs: seq<int>, players: nat, showOverlay: bool)
    | HitsplatApplied(npcs: seq<int>, localPlayer: Option<int>, hit: Hitsplat, showOverlay: bool)
    | ChatMessage(chatType: ChatType, message: string)
    | ConfigChanged(group: string, key: string, showOverlay: bool)

  /** The handler subscribed to an event. */
  function Dispatch(s: State, e: Event): (r: Step)
    ensures Valid(s) ==> Valid(r.state)
  {
    match e
    case GameTick(npcs, players, showOverlay) => OnGameTick(s, npcs, players, showOverlay)
    case HitsplatApplied(npcs, localPlayer, hit, showOverlay) => OnHitsplatApplied(s, npcs, localPlayer, hit, showOverlay)
    case ChatMessage(chatType, message) => OnChatMessage(s, chatType, message)
    case ConfigChanged(group, key, showOverlay) => OnConfigChanged(s, group, key, showOverlay)
  }

  /** The events handled in order: the last state and all effects in order. */
  function Run(s: State, events: seq<Event>): (r: Step)
    ensures Valid(s) ==> Valid(r.state)
    decreases |events|
  {
    if |events| == 0 then Step(s, [])
    else
      var first := Dispatch(s, events[0]);
      var rest := Run(first.state, events[1..]);
      Step(rest.state, first.effects + rest.effects)
  }

  /** Running two batches one after the other is running them together. */
  lemma {:induction false} RunAppend(s: State, a: seq<Event>, b: seq<Event>)
    ensures var ra := Run(s, a);
            var rb := Run(ra.state, b);
            Run(s, a + b) == Step(rb.state, ra.effects + rb.effects)
    decreases |a|
  {
    if |a| == 0 {
      assert a + b == b;
    } else {
      assert (a + b)[0] == a[0];
      assert (a + b)[1..] == a[1..] + b;
      var first := Dispatch(s, a[0]);
      RunAppend(first.state, a[1..], b);
    }
  }

  /** Every state reached from the plugin's initial fields satisfies the
      invariant: the cooldown counter stays in [-1, 50), a running fight has
      no cooldown, and the overlay is wanted exactly during a fight or its
      cooldown. */
  lemma ReachableStatesValid(events: seq<Event>)
    ensures var s := Run(Initial, events).state;
            && -1 <= s.ticksSinceFightEnd < OverlayRemoveTicks
            && (s.fightActive ==> s.ticksSinceFightEnd == -1)
            && (s.overlayActive <==> s.fightActive || s.ticksSinceFightEnd >= 0)
  {
  }

  /** An event that cannot disturb an idle tracker: a tick, or a hitsplat
      while no Nex form is present. */
  ghost predicate Quiet(e: Event)
  {
    e.GameTick? || (e.HitsplatApplied? && !NexPresent(e.npcs))
  }

  /** With no fight and no cooldown, ticks and hitsplats without the boss
      change nothing and show nothing. */
  lemma {:induction false} IdleStaysQuiet(s: State, events: seq<Event>)
    requires !s.fightActive && s.ticksSinceFightEnd == -1
    requires forall i :: 0 <= i < |events| ==> Quiet(events[i])
    ensures Run(s, events) == Step(s, [])
    decreases |events|
  {
    if |events| > 0 {
      assert Quiet(events[0]);
      assert Dispatch(s, events[0]) == Step(s, []);
      IdleStaysQuiet(s, events[1..]);
    }
  }

  /** `events` are ticks that all see `players` players. */
  ghost predicate TicksWith(events: seq<Event>, players: nat)
  {
    forall i :: 0 <= i < |events| ==> events[i].GameTick? && events[i].players == players
  }

  /** During a cooldown each tick advances the counter by one, whether or not
      the boss is present, and the results are dumped once, on the tick that
      brings the counter to 2. */
  lemma {:induction false} CooldownCountsTicks(s: State, events: seq<Event>, players: nat)
    requires !s.fightActive && 0 <= s.ticksSinceFightEnd
    requires s.ticksSinceFightEnd + |events| < OverlayRemoveTicks
    requires TicksWith(events, players)
    ensures Run(s, events).state == s.(ticksSinceFightEnd := s.ticksSinceFightEnd + |events|)
    ensures Run(s, events).effects ==
      if s.ticksSinceFightEnd < ResetDelayTicks <= s.ticksSinceFightEnd + |events|
      then Publish(Snapshot(0, 0, players, s.isMVP, s.minContribution, PhaseEnded))
      else []
    decreases |events|
  {
    if |events| > 0 {
      assert events[0].GameTick? && events[0].players == players;
      var first := Dispatch(s, events[0]);
      assert first.state == s.(ticksSinceFightEnd := s.ticksSinceFightEnd + 1);
      assert TicksWith(events[1..], players) by {
        forall i | 0 <= i < |events[1..]| ensures events[1..][i].GameTick? && events[1..][i].players == players {
          assert events[1..][i] == events[i + 1];
        }
      }
      CooldownCountsTicks(first.state, events[1..], players);
    }
  }

  /** Fifty ticks after a fight ends the cooldown is over: the results were
      dumped on the second tick, the overlay is removed and both displays are
      cleared on the fiftieth, and the tracker is idle again with its flags
      still set. */
  lemma CooldownEndsAfterFiftyTicks(s: State, events: seq<Event>, players: nat)
    requires Valid(s) && !s.fightActive && s.ticksSinceFightEnd == 0
    requires |events| == OverlayRemoveTicks
    requires TicksWith(events, players)
    ensures var r := Run(s, events);
            && r.state == s.(overlayActive := false, ticksSinceFightEnd := -1)
            && r.effects == Publish(Snapshot(0, 0, players, s.isMVP, s.minContribution, PhaseEnded))
                            + [Detach] + Publish(Cleared)
  {
    var head := events[..OverlayRemoveTicks - 1];
    var last := events[OverlayRemoveTicks - 1..];
    assert events == head + last;
    assert TicksWith(head, players) by {
      forall i | 0 <= i < |head| ensures head[i].GameTick? && head[i].players == players {
        assert head[i] == events[i];
      }
    }
    CooldownCountsTicks(s, head, players);
    RunAppend(s, head, last);
    var mid := Run(s, head).state;
    assert last == [events[OverlayRemoveTicks - 1]];
    assert last[1..] == [];
    assert Run(mid, last).state == s.(overlayActive := false, ticksSinceFightEnd := -1);
    assert Run(mid, last).effects == [Detach] + Publish(Cleared);
  }

  /** Only a fight start clears a flag: any other event keeps `isMVP` and
      `minContribution` once set. */
  lemma FlagsClearedOnlyByFightStart(s: State, e: Event)
    ensures var s' := Dispatch(s, e).state;
            (s.isMVP && !s'.isMVP) || (s.minContribution && !s'.minContribution) ==>
              !s.fightActive && s'.fightActive
  {
  }

  /** Without hitsplats no fight can start, so flags once set stay set. */
  lemma {:induction false} FlagsStickWithoutHitsplats(s: State, events: seq<Event>)
    requires forall i :: 0 <= i < |events| ==> !events[i].HitsplatApplied?
    ensures s.isMVP ==> Run(s, events).state.isMVP
    ensures s.minContribution ==> Run(s, events).state.minContribution
    ensures Run(s, events).state.fightActive ==> s.fightActive
    decreases |events|
  {
    if |events| > 0 {
      assert !events[0].HitsplatApplied?;
      FlagsClearedOnlyByFightStart(s, events[0]);
      var first := Dispatch(s, events[0]);
      assert first.state.fightActive ==> s.fightActive;
      FlagsStickWithoutHitsplats(first.state, events[1..]);
    }
  }

  // Worked scenarios. The local player has id 7; one Nex form (11278) is
  // present; the local player hits it for 10.

  const LocalId: int := 7
  const NexHere: seq<int> := [11278]
  const MyHitOnNex: Hitsplat := Hitsplat(NpcActor(11278, PlayerTarget(LocalId)), true, false, 10)

  /** A tick without the boss, a tick with it, then the local player's hit on
      Nex while Nex targets the local player: the fight starts on the hit, the
      next tick shows 10 of 10, and the counters restart at 0. */
  lemma FirstHitStartsFight()
    ensures var events := [
              GameTick([], 3, true),
              GameTick(NexHere, 3, true),
              HitsplatApplied(NexHere, Some(LocalId), MyHitOnNex, true),
              GameTick(NexHere, 3, true)];
            var r := Run(Initial, events);
            && r.effects == [Attach] + Publish(Snapshot(10, 10, 3, false, false, PhaseLive))
            && r.state.fightActive && r.state.ownContribution == 0 && r.state.totalContribution == 0
  {
    var e0 := GameTick([], 3, true);
    var e1 := GameTick(NexHere, 3, true);
    var e2 := HitsplatApplied(NexHere, Some(LocalId), MyHitOnNex, true);
    var e3 := GameTick(NexHere, 3, true);
    assert Dispatch(Initial, e0) == Step(Initial, []);
    assert Dispatch(Initial, e1) == Step(Initial, []);
    assert WasNexInteraction(MyHitOnNex.actor, 11278, Some(LocalId)) == Some(true);
    var d2 := Dispatch(Initial, e2);
    assert d2 == Step(State(true, true, false, false, 10, 10, -1), [Attach]);
    var d3 := Dispatch(d2.state, e3);
    assert d3 == Step(State(true, true, false, false, 0, 0, -1), Publish(Snapshot(10, 10, 3, false, false, PhaseLive)));
    assert [e0, e1, e2, e3][1..] == [e1, e2, e3];
    assert [e1, e2, e3][1..] == [e2, e3];
    assert [e2, e3][1..] == [e3];
    assert Run(d2.state, [e3]) == Step(d3.state, d3.effects + []);
    assert Run(Initial, [e2, e3]) == Step(d3.state, d2.effects + d3.effects);
    assert Run(Initial, [e1, e2, e3]) == Step(d3.state, [] + d2.effects + d3.effects);
  }

  /** The same hit while Nex targets another player (id 8) does not start a
      fight: the rule looks at the struck actor, so a hit on Nex counts as a
      trigger only when Nex is targeting the local player. */
  lemma HitOnNexTargetingOtherPlayerIgnored()
    ensures var hit := MyHitOnNex.(actor := NpcActor(11278, PlayerTarget(8)));
            OnHitsplatApplied(Initial, NexHere, Some(LocalId), hit, true) == Step(Initial, [])
  {
  }

  /** A hitsplat on the local player while the player attacks Nex starts the
      fight, but it lands on a player, so neither counter moves. */
  lemma HitOnAttackingPlayerStartsFightUncounted()
    ensures var hit := Hitsplat(PlayerActor(LocalId, NpcTarget(11278)), false, false, 25);
            var r := OnHitsplatApplied(Initial, NexHere, Some(LocalId), hit, true);
            r == Step(State(true, true, false, false, 0, 0, -1), [Attach])
  {
  }

  /** A fight can end with the counters of its last tick still in place:
      they are zeroed when the next fight starts, not when this one ends. */
  lemma CountersOutliveFight()
    ensures var r := Run(Initial, [HitsplatApplied(NexHere, Some(LocalId), MyHitOnNex, true), GameTick([], 3, true)]);
            && !r.state.fightActive && r.state.ticksSinceFightEnd == 0
            && r.state.ownContribution == 10 && r.state.totalContribution == 10
            && r.effects == [Attach] + Publish(Snapshot(0, 0, 3, false, false, PhaseEnded))
  {
    var e0 := HitsplatApplied(NexHere, Some(LocalId), MyHitOnNex, true);
    var e1 := GameTick([], 3, true);
    assert WasNexInteraction(MyHitOnNex.actor, 11278, Some(LocalId)) == Some(true);
    var d0 := Dispatch(Initial, e0);
    assert d0 == Step(State(true, true, false, false, 10, 10, -1), [Attach]);
    var d1 := Dispatch(d0.state, e1);
    assert d1 == Step(State(false, true, false, false, 10, 10, 0), Publish(Snapshot(0, 0, 3, false, false, PhaseEnded)));
    assert [e0, e1][1..] == [e1];
    assert Run(d0.state, [e1]) == Step(d1.state, d1.effects + []);
  }
}
