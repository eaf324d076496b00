/**
 Deciding whether combat has anything to do with Nex: finding the boss among
 the NPCs the client currently knows, and the rule that lets a hitsplat start
 a fight.
 */
module Detection {
  import opened Types

  /** Nex's five NPC ids, one per combat form, are contiguous. */
  const NexFirstId: int := 11278
  const NexLastId: int := 11282

  predicate IsNexId(id: int)
  {
    NexFirstId <= id <= NexLastId
  }

  /** Some NPC in the client's list is one of Nex's forms. */
  ghost predicate NexPresent(npcs: seq<int>)
  {
    exists i :: 0 <= i < |npcs| && IsNexId(npcs[i])
  }

  /** `k` is the position of the first Nex form in the client's NPC list. */
  ghost predicate FirstNexAt(npcs: seq<int>, k: int)
  {
    && 0 <= k < |npcs|
    && IsNexId(npcs[k])
    && forall j :: 0 <= j < k ==> !IsNexId(npcs[j])
  }

  /** The id of the boss: the first NPC, in the client's order, whose id is
      one of Nex's forms; `None` stands for Java's `null`. */
  function FindNex(npcs: seq<int>): (r: Option<int>)
    ensures r.None? <==> !NexPresent(npcs)
    ensures r.Some? ==> exists k :: FirstNexAt(npcs, k) && npcs[k] == r.value
  {
    if |npcs| == 0 then None
    else if IsNexId(npcs[0]) then
      assert FirstNexAt(npcs, 0);
      Some(npcs[0])
    else
      var rest := FindNex(npcs[1..]);
      assert NexPresent(npcs[1..]) ==> NexPresent(npcs) by {
        if NexPresent(npcs[1..]) {
          var i :| 0 <= i < |npcs[1..]| && IsNexId(npcs[1..][i]);
          assert IsNexId(npcs[i + 1]);
        }
      }
      assert NexPresent(npcs) ==> NexPresent(npcs[1..]) by {
        if NexPresent(npcs) {
          var i :| 0 <= i < |npcs| && IsNexId(npcs[i]);
          assert i != 0 && IsNexId(npcs[1..][i - 1]);
        }
      }
      assert rest.Some? ==> exists k :: FirstNexAt(npcs, k) && npcs[k] == rest.value by {
        if rest.Some? {
          var k :| FirstNexAt(npcs[1..], k) && npcs[1..][k] == rest.value;
          assert FirstNexAt(npcs, k + 1);
        }
      }
      rest
  }

  /** The fight-start rule. A hitsplat on `actor` starts a fight when a player
      is interacting with an NPC carrying the boss's id, or when the NPC
      carrying the boss's id is interacting with the local player.
      `localPlayer` is `None` when the client has no local player; reading its
      id then throws, which the result reports as `None`. */
  function WasNexInteraction(actor: Actor, nexId: int, localPlayer: Option<int>): (r: Option<bool>)
    ensures r == Some(true) <==>
      || (actor.PlayerActor? && actor.interacting.NpcTarget? && actor.interacting.id == nexId)
      || (actor.NpcActor? && actor.id == nexId && actor.interacting.PlayerTarget?
          && localPlayer == Some(actor.interacting.id))
    ensures r.None? <==>
      actor.NpcActor? && actor.id == nexId && actor.interacting.PlayerTarget? && localPlayer.None?
  {
    // Was a player attacking the boss?
    var byPlayer :=
      match actor
      case PlayerActor(_, NpcTarget(npcId)) => npcId == nexId
      case _ => false;
    if byPlayer then Some(true)
    else
      // Otherwise, was the boss attacking this client's player?
      match actor
      case NpcActor(id, PlayerTarget(playerId)) =>
        if id != nexId then Some(false)
        else if localPlayer.None? then None
        else Some(playerId == localPlayer.value)
      case _ => Some(false)
  }

  /** Only the two interactions start a fight: a player hit while attacking
      anything but the boss, or a non-boss NPC's hit, never does. */
  lemma UnrelatedCombatNeverTriggers(actor: Actor, nexId: int, localPlayer: Option<int>)
    requires actor.PlayerActor? ==> !(actor.interacting.NpcTarget? && actor.interacting.id == nexId)
    requires actor.NpcActor? ==> actor.id != nexId
    ensures WasNexInteraction(actor, nexId, localPlayer) == Some(false)
  {
  }
}
