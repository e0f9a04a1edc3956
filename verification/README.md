# Pythora player actions in Dafny

This project models the part of the Pythora text adventure that acts on the
game state when the player types a command. That part is:

- the fuzzy matcher `get_match`;
- the helpers `get_containers`, `add_item` and `take`;
- the `PlayerEntity` actions: `change_health`, `kill`, `get_weapons`,
  `get_container`, `get_enemy`, `container_add`, `container_remove`,
  `pick_up`, `drop`, `eat`, `read` and `swing`;
- the `Container` aggregates `get_mass`, `get_damage` and `get_self_mass`,
  with their accessors;
- `Food.get_saturation`.

## How the game state is modelled

Objects are referred to by an `Id`. A `World` holds:

- every object, by id;
- the current scene's item list;
- the player's inventory list;
- the player's health and maximum health;
- the combat flag.

A container's contents and an enemy's inventory live inside the object
itself, as they do in the source. Python's class hierarchy (Object,
Container, Food, Readable, Enemy) becomes one `Item` record with a tagged
`Kind`. The first half of `get_take()` becomes a three-valued `Policy`:
"true", "consequence", anything else.

Every action is a pure function from one world to the next. A guard that
makes the source print a message and return leaves the world unchanged.
`list.append` and `list.remove` on the scene, the inventory, a container or
an enemy become `Put`, `Append`, `Remove` and `Move` on a `Loc`:
`Scene`, `Pack` (the player's inventory), or `Inside(holder)`.

## What is proved

- **The matcher.** It chooses exactly the candidates whose name shares a
  similar fragment with the query. Each is chosen once, in candidate order.
  A blank query matches nothing. Cutting at separators is undone by putting
  them back. "sword" picks "Rusty Sword".
- **Relocation.** No action other than `eat` loses or duplicates a listed
  item. Across the scene, the inventory, every container and every enemy,
  the bag of ids stays the same. No action changes an object's fixed parts.
  `container_add` never puts a container into a container, so a flat world
  stays flat.
- **Eating.** `eat` removes exactly the takeable food among its matches,
  and nothing else. Health rises by the saturation, capped at the maximum.
  Food that is dropped or put away is relocated, not consumed.
- **Reading.** `read` shows the texts of the takeable readables among its
  inventory matches and then among its scene matches, in that order, and
  changes nothing.
- **Which lists change.** Each action touches only the lists it is meant
  to. `pick_up` and `drop` prefer direct matches to matches inside
  containers. `container_add` prefers inventory matches to scene matches.
  From an empty inventory, when a non-empty query has a direct match in
  the scene, picking up and then dropping with the same query empties the
  inventory again and restores the scene's items.
- **Combat.** One blow lowers the enemy's health by the weapon's damage. A
  surviving enemy strikes back and combat starts. A killed enemy drops its
  takeable items in order and keeps the rest. It is renamed "Dead ...", and
  combat ends. When `swing` is aimed at a living enemy with a matching
  weapon, afterwards the combat flag says whether the enemy lives.

## A container's damage grows with the mass of its contents

`get_damage` (`items/container.py:14-18`) starts from the container's own
damage and adds each content's `get_mass()`, not its damage.
`Container.GetDamage` does exactly that, so its damage and its mass always
exceed their own values by the same amount. `Relocation.AddOneWeighs`
proves that putting an item in raises the container's damage by that
item's mass.

## Model

| member | source | states |
|---|---|---|
| Matcher.Words | player/playerentity.py:24 | `str.split()` gives words that are non-empty and hold no whitespace, and it gives no words exactly when the string is blank |
| Matcher.WordsOfWord | player/playerentity.py:24 | a non-empty string without whitespace splits into itself alone |
| Matcher.WordsSplitAtSpace | player/playerentity.py:24 | the words around a whitespace character are the words of the left side followed by those of the right; with `WordsOfWord` and the blank case this makes the words exactly the maximal runs of non-whitespace, in order |
| Matcher.WordsKeepText | player/playerentity.py:24 | splitting into words loses nothing but the whitespace: the words put back together are the text without its whitespace |
| Matcher.Pieces | player/playerentity.py:24 | `re.split(r'[^\w ]', t)` gives one more piece than there are separators, and no piece holds a separator |
| Matcher.PiecesRoundTrip | player/playerentity.py:24 | putting the separators back between the pieces gives the original word |
| Matcher.Lower | player/playerentity.py:25 | `lower()` keeps the length and lowers each ASCII capital, position by position |
| Matcher.FragmentsEmptyIffBlank | player/playerentity.py:24-28 | a query has no fragments exactly when it is blank |
| Matcher.GetMatch | player/playerentity.py:21-29 | the result holds exactly the candidates whose lower-cased name has a fragment similar to a query fragment, with no repeats, in the order they first appear among the candidates; a blank query matches nothing |
| Matcher.GetMatchNames | player/playerentity.py:25 | the match depends on the candidates' names only |
| Matcher.GetMatchAll | player/playerentity.py:21-29 | when every candidate matches and none repeats, the match is the candidate list itself |
| Matcher.WordPicksItself | player/playerentity.py:21-29 | under a ratio that rates a string as similar to itself, a one-word lower-case query matches a name that lowers to that word |
| Matcher.SharedFragmentMatches | player/playerentity.py:26-28 | under a ratio that rates a string as similar to itself, a query sharing a fragment with a name matches it |
| Matcher.WordPicksSecondWord | player/playerentity.py:21-29 | a one-word lower-case query matches a name that lowers to two words, the second of which is that word |
| Scenarios.SwordMatchesRustySword | player/playerentity.py:21-29 | "sword" matches "Rusty Sword" |
| Seqs.RemoveFirst | player/playerentity.py:41 | `list.remove(x)` deletes exactly the first occurrence of `x`; a list without `x` is unchanged |
| Seqs.RemoveFirstBag | player/playerentity.py:41 | removing a listed element takes exactly one copy out of the list's bag |
| Seqs.Keep | player/playerentity.py:29 | `list(dict.fromkeys(...))` over the accepted items keeps exactly those items, with no repeats |
| Seqs.KeepOrder | player/playerentity.py:29 | it lists them in the order of their first occurrence |
| Seqs.Filter | player/playerentity.py:33 | a list comprehension with a condition keeps exactly the passing elements, as a sub-bag of the input and never longer |
| Seqs.FilterCount | player/playerentity.py:33 | the comprehension keeps every copy of a passing element and no copy of the others |
| Seqs.FilterAppend | player/playerentity.py:33 | the comprehension keeps the input's order: over a concatenation it gives the results for the parts, in order |
| Seqs.FilterOne | player/playerentity.py:33 | one element is kept exactly when it passes |
| Items.PolicyOf | player/playerentity.py:54-64 | the policy word "true" allows taking, "consequence" hurts, and any other word refuses |
| Player.Match | player/playerentity.py:21-29 | `get_match` over ids: exactly the candidates whose current name matches, with no repeats, in the order they first appear among the candidates; a blank query matches nothing |
| Player.ChangeHealth | player/playerentity.py:91-94 | health never ends above the maximum; the new health is the old plus the amount, or the maximum when that sum passes it; nothing else changes |
| Player.Kill | player/playerentity.py:96-97 | health drops by the maximum; a player within the maximum ends at zero or below |
| Player.GetWeapons | player/playerentity.py:116-117 | exactly the inventory items that are not food, with every copy of each, as a sub-bag of the inventory |
| Player.WeaponsSplit | player/playerentity.py:116-117 | the weapons keep the inventory's order: splitting the inventory splits the weapons at the same place |
| Player.WeaponsOne | player/playerentity.py:116-117 | a one-item inventory is its own weapons list unless the item is food |
| Player.GetContainers | player/playerentity.py:32-33 | exactly the containers among the given items, with every copy of each, as a sub-bag of them |
| Player.ContainersAppend | player/playerentity.py:32-33 | the containers keep the order of the given items |
| Player.ContainersOne | player/playerentity.py:32-33 | one item is kept exactly when it is a container |
| Player.GetContainer | player/playerentity.py:120-128 | the first matching container in the inventory if there is one; otherwise the first in the scene; nothing exactly when no match in either is a container |
| Player.GetEnemy | player/playerentity.py:131-135 | the first matching enemy in the scene; nothing exactly when no scene match is an enemy |
| Player.Strip | player/playerentity.py:149 | `str.replace(name, "")` never lengthens the query and leaves a query without the name unchanged |
| Player.Eaten | player/playerentity.py:252-253 | what `eat` consumes is takeable food from the inventory, and for a non-empty query every takeable food among the inventory matches is consumed |
| Player.AddOne | player/playerentity.py:37-49 | one pass of `add_item` leaves the health, the maximum, the combat flag and the set of objects as they were |
| Player.AddItem | player/playerentity.py:36-49 | so does the whole `add_item` loop |
| Player.TakeOne | player/playerentity.py:53-68 | one pass of `take` keeps the maximum, the combat flag and the set of objects, and changes the health only for a "consequence" match |
| Player.Take | player/playerentity.py:52-68 | the `take` loop keeps the maximum, the combat flag and the set of objects |
| Player.ContainerAdd | player/playerentity.py:138-158 | `container_add` leaves the health, the maximum, the combat flag and the set of objects as they were |
| Player.TakeOut | player/playerentity.py:177-179 | the `container_remove` loop leaves the health, the maximum, the combat flag and the set of objects as they were |
| Player.ContainerRemove | player/playerentity.py:161-182 | so does `container_remove` |
| Player.NestedMatches | player/playerentity.py:193-195 | the matches gathered from the given containers are exactly the items that match inside one of them; `drop` gathers its fallback matches the same way, at lines 218-220 |
| Player.TakeFromBoxes | player/playerentity.py:199-202 | the container fallback of `pick_up` keeps the maximum, the combat flag and the set of objects |
| Player.PickUp | player/playerentity.py:185-205 | `pick_up` keeps the maximum, the combat flag and the set of objects |
| Player.DropEach | player/playerentity.py:222-224 | the first loop of `drop` leaves the health, the maximum, the combat flag and the set of objects as they were |
| Player.DropFromBox | player/playerentity.py:228-231 | so does the fallback loop for one container |
| Player.DropFromBoxes | player/playerentity.py:227-231 | and over all of the inventory's containers |
| Player.Drop | player/playerentity.py:210-236 | `drop` leaves the health, the maximum, the combat flag and the set of objects as they were |
| Player.EatOne | player/playerentity.py:252-255 | one pass of `eat` changes no object, not the scene, the maximum or the combat flag, and never lengthens the inventory |
| Player.EatEach | player/playerentity.py:252-255 | the whole `for match in matches` loop of `eat` changes no object, not the scene, the maximum or the combat flag, and never lengthens the inventory |
| Player.Eat | player/playerentity.py:239-262 | `eat` changes no object, not the scene, the maximum or the combat flag, and never lengthens the inventory |
| Player.Read | player/playerentity.py:265-275 | a blank query shows nothing |
| Player.Hurt | player/playerentity.py:303 | hurting the enemy changes no list, no player value and no set of objects |
| Player.Rename | player/playerentity.py:327 | renaming the enemy changes no list, no player value and no set of objects |
| Player.DropLoot | player/playerentity.py:316-322 | the loot loop leaves the inventory, the health, the maximum, the combat flag and the set of objects as they were |
| Player.Strike | player/playerentity.py:302-330 | one pass of `swing` leaves the inventory, the maximum and the set of objects as they were |
| Player.SwingEach | player/playerentity.py:301-332 | so does the whole loop |
| Player.Swing | player/playerentity.py:285-332 | `swing` leaves the inventory, the maximum and the set of objects as they were |
| Container.GetMass | items/container.py:20-24 | an empty container weighs its own mass, and contents of non-negative mass never make it lighter |
| Container.GetDamage | items/container.py:14-18 | an empty container hits with its own damage, and whatever the contents, the damage exceeds the container's own by exactly what the contents add to its mass |
| Container.Accumulate | items/container.py:14-24 | the contents loop of `get_mass` and `get_damage` returns the starting value plus the sum of the content masses |
| Container.GetSelfMass | items/container.py:26-28 | `get_self_mass` is never negative; it is what the contents add to the container's own mass, or zero |
| Container.EmptyContainer | items/container.py:14-28 | an empty container weighs and hits with its own values, and its self mass is zero |
| Container.AppendRaises | items/container.py:14-24 | one more content of mass `m` raises both mass and damage by `m` |
| Container.RemoveLowers | items/container.py:14-24 | taking out the last content lowers both mass and damage by its mass |
| Container.MassAtLeastBase | items/container.py:20-28 | contents of non-negative mass never make a container lighter than itself, and its self mass is their total |
| Container.AccessorsReturnConstructorValues | items/container.py:9-34 | `get_contents` and `get_max_mass` return what the constructor was given |
| Food.NewFood | items/food.py:9-14 | a food built with a saturation reports that saturation through `get_saturation`, and keeps the given name and take policy; mass and damage are free parameters |
| Food.SaturationFixed | items/food.py:13-14 | `get_saturation` depends only on the object's fixed parts |
| Worlds.Mass | items/container.py:20-24 | a container without contents weighs its own mass; one whose contents have non-negative mass weighs at least that; any other object weighs its own mass |
| Worlds.Damage | items/container.py:14-18 | a container's damage exceeds its own by exactly what its contents add to its mass; an unknown id does no damage |
| Worlds.ContentMassesAreMasses | items/container.py:20-24 | in a flat world each summed content mass is that content's own `get_mass()` |
| Worlds.NeverContainsItself | player/playerentity.py:38 | in a flat world no container contains itself |
| Conservation.ChangeHealthKeeps | player/playerentity.py:91-94 | a health change moves nothing and changes no object |
| Conservation.HurtKeeps | player/playerentity.py:303 | hurting an enemy moves nothing and changes no object's fixed parts |
| Conservation.RenameKeeps | player/playerentity.py:327 | renaming a dead enemy moves nothing and changes no object's fixed parts |
| Conservation.TakeKeeps | player/playerentity.py:52-68 | the `take` loop keeps the bag of listed ids, every object's fixed parts and flatness |
| Conservation.AddItemKeeps | player/playerentity.py:36-49 | the `add_item` loop keeps the bag, the fixed parts, and flatness, because containers are refused |
| Conservation.TakeOutKeeps | player/playerentity.py:177-179 | the `container_remove` loop keeps the bag, the fixed parts and flatness |
| Conservation.DropEachKeeps | player/playerentity.py:222-224 | the first loop of `drop` keeps the bag, the fixed parts and flatness |
| Conservation.DropFromBoxKeeps | player/playerentity.py:228-231 | the fallback loop of `drop`, for one container, keeps the bag, the fixed parts and flatness |
| Conservation.DropFromBoxesKeeps | player/playerentity.py:227-231 | the same holds over all of the inventory's containers |
| Conservation.TakeFromBoxesKeeps | player/playerentity.py:199-202 | the container fallback of `pick_up` keeps the bag, the fixed parts and flatness |
| Conservation.DropLootKeeps | player/playerentity.py:316-322 | a dead enemy's loot loop keeps the bag, the fixed parts and flatness |
| Conservation.StrikeKeeps | player/playerentity.py:301-330 | one pass of `swing`'s loop keeps the bag, the fixed parts and flatness |
| Conservation.SwingEachKeeps | player/playerentity.py:301-332 | the whole loop of `swing` keeps them |
| Conservation.ContainerAddKeeps | player/playerentity.py:138-158 | `container_add` relocates and never nests containers |
| Conservation.ContainerRemoveKeeps | player/playerentity.py:161-182 | `container_remove` only relocates |
| Conservation.PickUpKeeps | player/playerentity.py:185-205 | `pick_up` only relocates |
| Conservation.DropKeeps | player/playerentity.py:210-236 | `drop` only relocates |
| Conservation.SwingKeeps | player/playerentity.py:285-332 | `swing` only relocates |
| Relocation.TakeLocal | player/playerentity.py:52-68 | `take` changes no list but its source and the inventory |
| Relocation.TakeFromBoxesLocal | player/playerentity.py:199-202 | taking from the scene's containers leaves the scene's own list unchanged |
| Relocation.AddItemLocal | player/playerentity.py:36-49 | `add_item` changes no list but its source and the container |
| Relocation.DropEachLocal | player/playerentity.py:222-224 | dropping from the inventory changes no list but the inventory and the scene |
| Relocation.DropFromBoxLocal | player/playerentity.py:228-231 | dropping from a container leaves the inventory's own list unchanged |
| Relocation.DropFromBoxesLocal | player/playerentity.py:227-231 | the same holds over all of the inventory's containers |
| Relocation.PickUpPrefersScene | player/playerentity.py:185-205 | with a scene match, no container changes; without one, the scene's own list stays as it was |
| Relocation.DropPrefersInventory | player/playerentity.py:210-236 | with an inventory match, no container changes; without one, the inventory's own list stays as it was |
| Relocation.ContainerAddPrefersInventory | player/playerentity.py:138-158 | inventory matches leave the scene alone; otherwise the inventory is left alone; no other container changes |
| Relocation.AddOneEffect | player/playerentity.py:37-41 | a container match, or a full container, changes nothing; otherwise the match leaves its list once and joins the end of the contents |
| Relocation.AddOneWeighs | player/playerentity.py:38-44 | the container's mass and reported damage both rise by the added item's mass |
| Relocation.TakeOneEffect | player/playerentity.py:53-68 | a match joins the inventory exactly when it is takeable, not an enemy, and the inventory has room, and then it leaves its list once; a "consequence" match costs its damage in health; anything else changes nothing |
| Relocation.TakeAll | player/playerentity.py:52-60 | with room and only takeable non-enemies, every match is appended, in order, to the inventory |
| Relocation.TakeAllBag | player/playerentity.py:52-57 | those matches leave their list, one copy each |
| Relocation.TakeOutList | player/playerentity.py:177-179 | the `container_remove` loop appends every match, in order, to the inventory and leaves the scene alone |
| Relocation.TakeOutBag | player/playerentity.py:177-178 | those matches leave the container, one copy each |
| Relocation.ContainerRemoveEffect | player/playerentity.py:161-182 | `container_remove` moves every match from the container to the end of the inventory, with no capacity check |
| Relocation.DropEachList | player/playerentity.py:222-224 | dropping appends every match, in order, to the scene |
| Relocation.DropEachBag | player/playerentity.py:222-223 | those matches leave the inventory, one copy each |
| Relocation.TakeTaken | player/playerentity.py:52-68 | the `take` loop appends to the inventory exactly the matches it moves, in order |
| Relocation.TakeTakenBag | player/playerentity.py:52-57 | those moved matches leave their list, one copy each |
| Relocation.TakenWithin | player/playerentity.py:52-57 | the moved matches are among the matches and carry no repeats |
| Relocation.PickUpTakesEveryMatch | player/playerentity.py:185-197 | with room, an empty inventory and only takeable non-enemy scene matches, `pick_up` puts exactly those matches in the inventory |
| Relocation.PickUpThenDrop | player/playerentity.py:185-236 | from an empty inventory, whatever `pick_up` takes from the scene, dropping with the same query empties the inventory again and restores the scene's bag of items |
| Eating.EatOneEffect | player/playerentity.py:252-255 | takeable food leaves the inventory once, the scene stays, and health rises by the saturation, capped at the maximum, never falling for food of non-negative saturation; other matches change nothing |
| Eating.EatEachBag | player/playerentity.py:252-255 | the `eat` loop takes exactly the takeable food among its matches out of the inventory |
| Eating.EatEachStable | player/playerentity.py:252-255 | eating changes no object's fixed parts, keeps a flat world flat, and touches no list but the inventory |
| Eating.EatEachTotal | player/playerentity.py:252-255 | the ids that leave the world are exactly the takeable food among the matches |
| Eating.EatConsumes | player/playerentity.py:239-262 | `eat` takes exactly what `Eaten` names out of the inventory and out of the world; no other list changes, no object's fixed parts change, and a flat world stays flat |
| Scenarios.EatBread | player/playerentity.py:239-262 | a player at 50 of 100 health who eats a loaf of saturation 5 ends at 55, with the loaf gone |
| Player.Texts | player/playerentity.py:277-282 | the printing loop of `read` shows at most one text per match |
| Reading.TextsShown | player/playerentity.py:277-282 | a text is shown exactly when some match is a takeable readable with that text; there are never more texts than matches |
| Reading.TextsAppend | player/playerentity.py:277-282 | the texts of two lists of matches, one after the other, are the texts of the first followed by those of the second |
| Reading.TextsOne | player/playerentity.py:277-282 | one match shows its text exactly when it is a takeable readable |
| Reading.ReadInOrder | player/playerentity.py:265-282 | for a non-empty query, `read` shows the texts of the inventory matches and then those of the scene matches |
| Reading.ReadShows | player/playerentity.py:265-282 | `read` shows the texts of exactly the takeable readable matches in the inventory or the scene; a blank query shows nothing |
| Combat.HurtEffect | player/playerentity.py:302-303 | the enemy's health drops by the weapon's damage, and it is alive exactly when the result is positive |
| Combat.RenameEffect | player/playerentity.py:327 | the enemy is renamed "Dead " followed by its old name; its health, life and inventory, the scene, the player's inventory and health, and the combat flag stay as they were |
| Combat.DropLootScene | player/playerentity.py:316-322 | the loot loop appends the enemy's takeable items, in order, to the scene |
| Combat.DropLootKept | player/playerentity.py:317-321 | the enemy keeps exactly its untakeable items, in order |
| Combat.DropLootEnemy | player/playerentity.py:316-322 | the loot loop leaves the enemy's health, name and damage, the inventory, health and combat flag unchanged |
| Combat.StrikeSurvived | player/playerentity.py:302-314 | a blow the enemy survives lowers its health by the weapon's damage, makes it strike back with its own damage, starts combat, and moves nothing |
| Combat.StrikeKilled | player/playerentity.py:302-330 | a killing blow drops the takeable loot to the scene in order, leaves the rest with the enemy, renames it "Dead ...", and ends combat without hurting the player |
| Combat.SwingEachDead | player/playerentity.py:331-332 | blows at a dead enemy change nothing |
| Combat.StrikeCombat | player/playerentity.py:302-330 | after a blow at a living enemy the combat flag says whether it is still alive |
| Combat.SwingEachCombatKept | player/playerentity.py:301-332 | once the flag agrees with the enemy's life, every further blow keeps it so |
| Combat.SwingCombat | player/playerentity.py:285-332 | after `swing` with a matching weapon at a living enemy, the player is in combat exactly when the enemy is still alive |
| Combat.SwingUsesWeapons | player/playerentity.py:295 | only non-food inventory items are swung |

## Left out

- Narration: `print`, the console's `wrap`, colour codes and the second half of `get_take()` (the message) are not modelled. An action's guard that only prints leaves the world unchanged.
- `logic.reset_timer()` in `swing` is a clock side effect and is left out.
- `similar` (difflib's `SequenceMatcher.ratio() > 0.75`) is a parameter `Env.similar`. Nothing is assumed about it, except that six lemmas require it to rate a string as similar to itself: `Matcher.SharedFragmentMatches`, `Matcher.WordPicksItself`, `Matcher.WordPicksSecondWord`, `Scenarios.SwordMatchesRustySword`, `Scenarios.BreadMatches` and `Scenarios.EatBread`.
- `Inventory.full()` is a parameter `Env.full`, judged in the world at the moment of the call. The `Inventory` class is not part of this model, so capacity by `max_mass` is not modelled.
- `Enemy` is not part of this model. `is_alive` is read as health above zero and `change_health(-d)` as subtraction. `get_damage`, `get_name`, `set_name` and `get_inventory` are read as field accesses.
- The `Object`, `Readable` and `Scene` classes are not part of this model. Their getters are read as fields of `Item`. Only the current scene's list is modelled; moving between scenes (`set_current_scene`, `get_z`) is not.
- Constructors are modelled for `Container` (`Container.NewContainer`) and `Food` (`Food.NewFood`).
- Food.NewFood: `Object.__init__` is not part of this model, so the model cannot say how the three arguments `Food.__init__` passes on (`name, take, damage`, `items/food.py:10`) become the object's fields. `Container.__init__` passes `name, take, mass, damage` to the same constructor (`items/container.py:10`), which suggests that Food's `damage` argument fills the mass slot and that its damage keeps `Object`'s default. The model takes mass and damage as two free parameters. The clause `r.damage == damage` says only that the model stores the damage it is given, not that `Food(..., damage, ...)` sets `get_damage()`.
- A container's `contents` is read as the item list of the `Inventory` it holds. `get_mass` and `get_damage` iterate `self.contents` directly (`items/container.py:16,22`), while `add_item` calls `.full()` and `.get_items()` on it (`player/playerentity.py:39-40`). The model keeps one list per container and leaves the `Inventory` wrapper out.
- Strings are ASCII: Unicode whitespace, Unicode `\w` and Unicode case mapping are not modelled.
- Worlds.ContentMassesAreMasses: a content's mass is taken as its own mass, and this equals the source's recursive `get_mass()` only in a flat world. The model proves that every action keeps a flat world flat.
- Player.ChangeHealth: `int(amount)` truncation is not modelled; the amounts are assumed integral. The callers pass `get_damage()`, `get_saturation()` and the enemy's `get_damage()` (`player/playerentity.py:65,254,308`), whose values come from objects outside this model.
- Player.Strip: the contract gives only the length bound and the no-occurrence case. The replacement itself is the definition, scanning left to right over non-overlapping occurrences.
- Seqs.RemoveFirst: Python's `list.remove` raises on a missing element, whereas the model returns the list unchanged. Every call in the source removes an element that is listed.
- `athora.py`, the command loop that parses input and calls these actions, is not part of this model.
