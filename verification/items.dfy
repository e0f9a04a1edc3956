/** The game's entities. Python's class hierarchy (Object, Container, Food,
    Readable, Enemy) becomes one record with a tagged `kind`; objects are
    referred to by `Id`, which makes Python's object identity explicit. */
module Items {

  type Id = nat

  /** The first half of an object's `get_take()` pair: "true" lets the
      object be taken, "consequence" hurts whoever tries, every other word
      refuses. */
  datatype Policy = Allow | Consequence | Deny

  /** How the map data's policy word is read. */
  function PolicyOf(word: string): (r: Policy)
    ensures r == Allow <==> word == "true"
    ensures r == Consequence <==> word == "consequence"
  {
    if word == "true" then Allow
    else if word == "consequence" then Consequence
    else Deny
  }

  /** The variant part. A container keeps its contents, an enemy its own
      inventory; these are the only lists an item holds. */
  datatype Kind =
    | Plain
    | Container(maxMass: int, contents: seq<Id>)
    | Food(saturation: int)
    | Readable(text: string)
    | Enemy(health: int, loot: seq<Id>)

  datatype Item = Item(name: string, policy: Policy, mass: int, damage: int, kind: Kind)

  /** The list of ids an item holds (empty for kinds that hold nothing). */
  function Held(it: Item): seq<Id>
  {
    match it.kind
    case Container(_, cs) => cs
    case Enemy(_, loot) => loot
    case _ => []
  }

  /** Can `Held` be replaced? */
  predicate Holds(it: Item)
  {
    it.kind.Container? || it.kind.Enemy?
  }

  /** Replace the held list of a container or an enemy; anything else is
      returned unchanged. */
  function WithHeld(it: Item, s: seq<Id>): (r: Item)
    ensures Holds(it) ==> Held(r) == s
    ensures !Holds(it) ==> r == it
    ensures Holds(r) == Holds(it) && r.kind.Container? == it.kind.Container?
    ensures r.name == it.name && r.policy == it.policy
    ensures r.mass == it.mass && r.damage == it.damage
    ensures Frame(r) == Frame(it) && Alive(r) == Alive(it)
    ensures it.kind.Enemy? ==> r.kind.Enemy? && r.kind.health == it.kind.health
  {
    match it.kind
    case Container(mm, _) => it.(kind := Container(mm, s))
    case Enemy(h, _) => it.(kind := Enemy(h, s))
    case _ => it
  }

  /** The parts of an item that no action changes: everything except an
      enemy's name and health and the held lists. */
  function Frame(it: Item): Item
  {
    match it.kind
    case Container(mm, _) => it.(kind := Container(mm, []))
    case Enemy(_, _) => it.(name := "", kind := Enemy(0, []))
    case _ => it
  }

  /** `Enemy.is_alive()`: the enemy's health is above zero. */
  predicate Alive(it: Item)
  {
    it.kind.Enemy? && it.kind.health > 0
  }
}
