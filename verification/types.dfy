/**
 Value types shared by the fight tracker: Java's 32-bit `int`, the actors a
 hitsplat can land on, and the outputs the tracker sends to its two displays
 and to the overlay manager.
 */
module Types {

  const MinInt32: int := -0x8000_0000
  const MaxInt32: int := 0x7fff_ffff
  const TwoTo32: int := 0x1_0000_0000

  /** The values of a Java `int`. */
  type Int32 = x: int | MinInt32 <= x <= MaxInt32

  /** The result of Java `int` arithmetic whose exact value is `x`: the unique
      32-bit value congruent to `x` modulo 2^32. */
  function Wrap32(x: int): (r: Int32)
    ensures (x - r) % TwoTo32 == 0
    ensures MinInt32 <= x <= MaxInt32 ==> r == x
  {
    (x - MinInt32) % TwoTo32 + MinInt32
  }

  datatype Option<T> = None | Some(value: T)

  /** What an actor is interacting with: nobody (Java `null`), a player
      (by player id) or an NPC (by NPC id). */
  datatype Target = Nobody | PlayerTarget(id: int) | NpcTarget(id: int)

  /** An actor of the game world: a player or an NPC, with its id and the
      actor it is currently interacting with. */
  datatype Actor = PlayerActor(id: int, interacting: Target) | NpcActor(id: int, interacting: Target)

  /** A hitsplat event: the actor it was applied to, whether it is the local
      player's hitsplat, whether its type is HEAL, and its amount. */
  datatype Hitsplat = Hitsplat(actor: Actor, isMine: bool, isHeal: bool, amount: Int32)

  /** The chat message types the tracker distinguishes. */
  datatype ChatType = GameMessage | OtherMessage

  /** Phase codes carried by the last field of a snapshot. */
  const PhaseLive: int := 1
  const PhaseEnded: int := 0
  const PhaseCleared: int := -1

  /** The six values passed to a display's `updateValues`. */
  datatype Snapshot = Snapshot(own: int, total: int, players: int, isMVP: bool, minContribution: bool, phase: int)

  /** The all-zero snapshot that blanks both displays once the cooldown is over. */
  const Cleared: Snapshot := Snapshot(0, 0, 0, false, false, PhaseCleared)

  datatype Display = Panel | Overlay

  /** One observable action: an `updateValues` call on a display, or the
      overlay being added to / removed from the overlay manager. */
  datatype Effect = Update(display: Display, snapshot: Snapshot) | Attach | Detach

  /** The same snapshot sent to the panel and then to the overlay. */
  function Publish(snap: Snapshot): seq<Effect>
  {
    [Update(Panel, snap), Update(Overlay, snap)]
  }
}
