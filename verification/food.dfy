/** `Food` (items/food.py): an object with a saturation value. */
module Food {
  import opened Items

  /** `Food(name, take, damage, saturation)`: an object of the food kind.
      The mass is a parameter because the object constructor that sets it is
      not part of this model. */
  function NewFood(name: string, policy: Policy, mass: int, damage: int, saturation: int): (r: Item)
    ensures r.kind.Food? && GetSaturation(r) == saturation
    ensures r.name == name && r.policy == policy && r.damage == damage
  {
    Item(name, policy, mass, damage, Food(saturation))
  }

  /** `get_saturation`. */
  function GetSaturation(f: Item): int
    requires f.kind.Food?
  {
    f.kind.saturation
  }

  /** An item's saturation is fixed by its frame: whatever keeps the frame
      keeps the saturation. */
  lemma SaturationFixed(f: Item, g: Item)
    requires f.kind.Food? && Frame(f) == Frame(g)
    ensures g.kind.Food? && GetSaturation(g) == GetSaturation(f)
  {
  }
}
