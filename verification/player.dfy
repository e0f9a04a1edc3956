/** The player's actions (player/playerentity.py). Each action is a pure
    transition from one world to the next; narration, `print` and the
    combat timer reset are not part of this model. */
module Player {
  import opened Items
  import opened Seqs
  import opened Worlds
  import Matcher
  import Food

  /** What the actions need from code this model does not see:
      `similar(a, b) > 0.75`, and `Inventory.full()` for the player's
      inventory (`Pack`) or a container's contents (`Inside(c)`), judged
      in the world as it is when the source calls it. */
  datatype Env = Env(similar: (string, string) -> bool, full: (World, Loc) -> bool)

  /** `get_match(args, cands)` with the objects' current names. */
  function Match(env: Env, w: World, args: string, cands: seq<Id>): (r: seq<Id>)
    ensures NoDup(r)
    ensures forall x :: x in r <==> x in cands && Matcher.Matches(env.similar, args, NameOf(w, x))
    ensures Matcher.Blank(args) ==> r == []
    ensures forall i, j :: 0 <= i < j < |r| ==> IndexOf(cands, r[i]) < IndexOf(cands, r[j])
  {
    Matcher.GetMatch(env.similar, args, cands, x => NameOf(w, x))
  }

  // ---------------------------------------------------------------------
  // Health.

  /** `change_health(amount)`: add, then cap at the maximum; there is no
      lower bound. */
  function ChangeHealth(w: World, amount: int): (r: World)
    ensures r.health <= r.maxHealth
    ensures r.health == w.health + amount || (r.health == w.maxHealth < w.health + amount)
    ensures r.health <= w.health + amount
    ensures r == w.(health := r.health)
  {
    var h := w.health + amount;
    w.(health := if h > w.maxHealth then w.maxHealth else h)
  }

  /** `kill()`: a health change of minus the maximum. */
  function Kill(w: World): (r: World)
    ensures w.health <= 2 * w.maxHealth ==> r.health == w.health - w.maxHealth
    ensures w.health <= w.maxHealth && w.maxHealth >= 0 ==> r.health <= 0
    ensures r == w.(health := r.health)
  {
    ChangeHealth(w, -w.maxHealth)
  }

  // ---------------------------------------------------------------------
  // Lookups.

  /** `get_weapons()`: every inventory item that is not food. */
  function GetWeapons(w: World): (r: seq<Id>)
    ensures forall x :: x in r <==> x in w.inventory && !IsFoodAt(w, x)
    ensures multiset(r) <= multiset(w.inventory)
    ensures forall x :: multiset(r)[x] == if IsFoodAt(w, x) then 0 else multiset(w.inventory)[x]
  {
    FilterCount(w.inventory, x => !IsFoodAt(w, x));
    Filter(w.inventory, x => !IsFoodAt(w, x))
  }

  /** The weapons keep the inventory's order: splitting the inventory splits
      the weapons list at the same place. */
  lemma WeaponsSplit(w: World, a: seq<Id>, b: seq<Id>)
    requires w.inventory == a + b
    ensures GetWeapons(w) == GetWeapons(w.(inventory := a)) + GetWeapons(w.(inventory := b))
  {
    var p := x => !IsFoodAt(w, x);
    var wa, wb := w.(inventory := a), w.(inventory := b);
    assert GetWeapons(w) == Filter(a + b, p);
    FilterAppend(a, b, p);
    assert GetWeapons(wa) == Filter(a, p) by {
      forall x | x in a ensures !IsFoodAt(wa, x) == p(x) { assert wa.items == w.items; }
      FilterCongruent(a, x => !IsFoodAt(wa, x), p);
    }
    assert GetWeapons(wb) == Filter(b, p) by {
      forall x | x in b ensures !IsFoodAt(wb, x) == p(x) { assert wb.items == w.items; }
      FilterCongruent(b, x => !IsFoodAt(wb, x), p);
    }
  }

  /** A one-item inventory is its own weapons list unless the item is food. */
  lemma WeaponsOne(w: World, x: Id)
    requires w.inventory == [x]
    ensures GetWeapons(w) == if IsFoodAt(w, x) then [] else [x]
  {
    FilterOne(x, y => !IsFoodAt(w, y));
  }

  /** `get_containers(items)`: the containers among `xs`. */
  function GetContainers(w: World, xs: seq<Id>): (r: seq<Id>)
    ensures forall x :: x in r <==> x in xs && IsContainerAt(w, x)
    ensures multiset(r) <= multiset(xs)
    ensures forall x :: multiset(r)[x] == if IsContainerAt(w, x) then multiset(xs)[x] else 0
  {
    FilterCount(xs, x => IsContainerAt(w, x));
    Filter(xs, x => IsContainerAt(w, x))
  }

  /** The containers keep the order of `xs`. */
  lemma ContainersAppend(w: World, a: seq<Id>, b: seq<Id>)
    ensures GetContainers(w, a + b) == GetContainers(w, a) + GetContainers(w, b)
  {
    FilterAppend(a, b, x => IsContainerAt(w, x));
  }

  /** One id is kept exactly when it names a container. */
  lemma ContainersOne(w: World, x: Id)
    ensures GetContainers(w, [x]) == if IsContainerAt(w, x) then [x] else []
  {
    FilterOne(x, y => IsContainerAt(w, y));
  }

  /** `get_container(args)`: the first matching container in the inventory,
      else the first matching container in the scene. */
  function GetContainer(env: Env, w: World, args: string): (r: Option<Id>)
    ensures r.Some? ==> IsContainerAt(w, r.value)
    ensures r.Some? ==> r.value in Match(env, w, args, w.inventory) || r.value in Match(env, w, args, w.scene)
    ensures (exists x :: x in Match(env, w, args, w.inventory) && IsContainerAt(w, x))
              ==> r.Some? && r.value in Match(env, w, args, w.inventory)
    ensures r.None? <==>
              forall x :: x in Match(env, w, args, w.inventory) + Match(env, w, args, w.scene) ==> !IsContainerAt(w, x)
    ensures var mi := Match(env, w, args, w.inventory);
            r.Some? && r.value in mi ==> forall i :: 0 <= i < IndexOf(mi, r.value) ==> !IsContainerAt(w, mi[i])
    ensures var mi := Match(env, w, args, w.inventory);
            var ms := Match(env, w, args, w.scene);
            r.Some? && r.value !in mi ==>
              r.value in ms && forall i :: 0 <= i < IndexOf(ms, r.value) ==> !IsContainerAt(w, ms[i])
  {
    var fromInventory := First(Match(env, w, args, w.inventory), x => IsContainerAt(w, x));
    if fromInventory.Some? then fromInventory
    else First(Match(env, w, args, w.scene), x => IsContainerAt(w, x))
  }

  /** `get_enemy(args)`: the first matching enemy in the scene. */
  function GetEnemy(env: Env, w: World, args: string): (r: Option<Id>)
    ensures r.Some? ==> IsEnemyAt(w, r.value) && r.value in Match(env, w, args, w.scene)
    ensures r.None? <==> forall x :: x in Match(env, w, args, w.scene) ==> !IsEnemyAt(w, x)
    ensures var ms := Match(env, w, args, w.scene);
            r.Some? ==> forall i :: 0 <= i < IndexOf(ms, r.value) ==> !IsEnemyAt(w, ms[i])
  {
    First(Match(env, w, args, w.scene), x => IsEnemyAt(w, x))
  }

  // ---------------------------------------------------------------------
  // add_item and take: the two loops that move matches out of a list.

  /** One pass of `add_item`'s loop: a container is refused, a full
      container refuses, anything else moves from `src` into `c`. */
  function AddOne(env: Env, w: World, m: Id, src: Loc, c: Id): (r: World)
    ensures r.health == w.health && r.maxHealth == w.maxHealth && r.combat == w.combat && r.items.Keys == w.items.Keys
  {
    if IsContainerAt(w, m) then w
    else if env.full(w, Inside(c)) then w
    else Move(w, m, src, Inside(c))
  }

  /** `add_item(matches, iterating, container)`. */
  function AddItem(env: Env, w: World, ms: seq<Id>, src: Loc, c: Id): (r: World)
    ensures r.health == w.health && r.maxHealth == w.maxHealth && r.combat == w.combat && r.items.Keys == w.items.Keys
    decreases |ms|
  {
    if ms == [] then w else AddItem(env, AddOne(env, w, ms[0], src, c), ms[1..], src, c)
  }

  /** One pass of `take`'s loop. */
  function TakeOne(env: Env, w: World, m: Id, src: Loc): (r: World)
    ensures r.maxHealth == w.maxHealth && r.combat == w.combat && r.items.Keys == w.items.Keys
    ensures r.health != w.health ==> PolicyAt(w, m) == Consequence
  {
    if PolicyAt(w, m) == Allow && !IsEnemyAt(w, m) then
      if !env.full(w, Pack) then Move(w, m, src, Pack) else w
    else if PolicyAt(w, m) == Consequence then ChangeHealth(w, -Damage(w, m))
    else w
  }

  /** `take(matches, iterating, player)`. */
  function Take(env: Env, w: World, ms: seq<Id>, src: Loc): (r: World)
    ensures r.maxHealth == w.maxHealth && r.combat == w.combat && r.items.Keys == w.items.Keys
    decreases |ms|
  {
    if ms == [] then w else Take(env, TakeOne(env, w, ms[0], src), ms[1..], src)
  }

  // ---------------------------------------------------------------------
  // Python's `str.replace(old, "")`.

  predicate StartsWith(s: string, p: string)
  {
    |p| <= |s| && s[..|p|] == p
  }

  /** Delete every non-overlapping occurrence of `pat`, scanning left to
      right; an empty pattern leaves the string alone. */
  function Strip(s: string, pat: string): (r: string)
    ensures |r| <= |s|
    ensures (forall i :: 0 <= i <= |s| ==> !StartsWith(s[i..], pat)) ==> r == s
    decreases |s|
  {
    if pat == [] || s == [] then s
    else if StartsWith(s, pat) then
      assert s[0..] == s;
      Strip(s[|pat|..], pat)
    else
      assert forall i :: 0 <= i <= |s| - 1 ==> s[1..][i..] == s[i + 1..];
      [s[0]] + Strip(s[1..], pat)
  }

  // ---------------------------------------------------------------------
  // The actions.

  /** `container_add(args, container)`: the container's lower-cased name is
      taken out of the query; inventory matches are preferred to scene
      matches. */
  function ContainerAdd(env: Env, w: World, args: string, container: Option<Id>): (r: World)
    ensures r.health == w.health && r.maxHealth == w.maxHealth && r.combat == w.combat && r.items.Keys == w.items.Keys
  {
    if container.None? then w
    else if args == "" then w
    else
      var c := container.value;
      var q := Strip(args, Matcher.Lower(NameOf(w, c)));
      var fromInventory := Match(env, w, q, w.inventory);
      var fromScene := Match(env, w, q, w.scene);
      if |fromInventory| > 0 then AddItem(env, w, fromInventory, Pack, c)
      else if |fromScene| > 0 then AddItem(env, w, fromScene, Scene, c)
      else w
  }

  /** The loop of `container_remove`: every match goes to the inventory,
      with no capacity check. */
  function TakeOut(w: World, ms: seq<Id>, c: Id): (r: World)
    ensures r.health == w.health && r.maxHealth == w.maxHealth && r.combat == w.combat && r.items.Keys == w.items.Keys
    decreases |ms|
  {
    if ms == [] then w else TakeOut(Move(w, ms[0], Inside(c), Pack), ms[1..], c)
  }

  /** `container_remove(args, container)`. */
  function ContainerRemove(env: Env, w: World, args: string, container: Option<Id>): (r: World)
    ensures r.health == w.health && r.maxHealth == w.maxHealth && r.combat == w.combat && r.items.Keys == w.items.Keys
  {
    if container.None? then w
    else if args == "" then w
    else
      var c := container.value;
      var ms := Match(env, w, args, At(w, Inside(c)));
      if |ms| < 1 then w else TakeOut(w, ms, c)
  }

  /** All matches inside the given containers, container by container. */
  function NestedMatches(env: Env, w: World, args: string, boxes: seq<Id>): (r: seq<Id>)
    ensures forall x :: x in r <==>
              exists i :: 0 <= i < |boxes| && x in Match(env, w, args, At(w, Inside(boxes[i])))
    decreases |boxes|
  {
    if boxes == [] then []
    else Match(env, w, args, At(w, Inside(boxes[0]))) + NestedMatches(env, w, args, boxes[1..])
  }

  /** The fallback loop of `pick_up`: take from each container in turn,
      matching against its contents as they are when it is reached. */
  function TakeFromBoxes(env: Env, w: World, args: string, boxes: seq<Id>): (r: World)
    ensures r.maxHealth == w.maxHealth && r.combat == w.combat && r.items.Keys == w.items.Keys
    decreases |boxes|
  {
    if boxes == [] then w
    else
      var ms := Match(env, w, args, At(w, Inside(boxes[0])));
      var w1 := if |ms| > 0 then Take(env, w, ms, Inside(boxes[0])) else w;
      TakeFromBoxes(env, w1, args, boxes[1..])
  }

  /** `pick_up(args)`: scene matches if there are any, else matches inside
      the scene's containers. */
  function PickUp(env: Env, w: World, args: string): (r: World)
    ensures r.maxHealth == w.maxHealth && r.combat == w.combat && r.items.Keys == w.items.Keys
  {
    if args == "" then w
    else
      var direct := Match(env, w, args, w.scene);
      var boxes := GetContainers(w, w.scene);
      var nested := NestedMatches(env, w, args, boxes);
      if |direct| > 0 then Take(env, w, direct, Scene)
      else if |nested| > 0 then TakeFromBoxes(env, w, args, boxes)
      else w
  }

  /** The first loop of `drop`: inventory matches go to the scene. */
  function DropEach(w: World, ms: seq<Id>): (r: World)
    ensures r.health == w.health && r.maxHealth == w.maxHealth && r.combat == w.combat && r.items.Keys == w.items.Keys
    decreases |ms|
  {
    if ms == [] then w else DropEach(Move(w, ms[0], Pack, Scene), ms[1..])
  }

  /** The inner loop of `drop`'s fallback for one container. */
  function DropFromBox(w: World, c: Id, ms: seq<Id>): (r: World)
    ensures r.health == w.health && r.maxHealth == w.maxHealth && r.combat == w.combat && r.items.Keys == w.items.Keys
    decreases |ms|
  {
    if ms == [] then w
    else
      var w1 := if ms[0] in At(w, Inside(c)) then Move(w, ms[0], Inside(c), Scene) else w;
      DropFromBox(w1, c, ms[1..])
  }

  /** The outer loop of `drop`'s fallback, over the inventory's containers. */
  function DropFromBoxes(w: World, boxes: seq<Id>, ms: seq<Id>): (r: World)
    ensures r.health == w.health && r.maxHealth == w.maxHealth && r.combat == w.combat && r.items.Keys == w.items.Keys
    decreases |boxes|
  {
    if boxes == [] then w else DropFromBoxes(DropFromBox(w, boxes[0], ms), boxes[1..], ms)
  }

  /** `drop(args)`: inventory matches if there are any, else matches inside
      the inventory's containers. */
  function Drop(env: Env, w: World, args: string): (r: World)
    ensures r.health == w.health && r.maxHealth == w.maxHealth && r.combat == w.combat && r.items.Keys == w.items.Keys
  {
    if args == "" then w
    else
      var direct := Match(env, w, args, w.inventory);
      var boxes := GetContainers(w, w.inventory);
      var nested := NestedMatches(env, w, args, boxes);
      if |direct| > 0 then DropEach(w, direct)
      else if |nested| > 0 then DropFromBoxes(w, boxes, nested)
      else w
  }

  /** Can this match be eaten? */
  predicate Edible(w: World, m: Id)
  {
    PolicyAt(w, m) == Allow && IsFoodAt(w, m)
  }

  /** One pass of `eat`'s loop: takeable food raises health by its
      saturation (capped) and leaves the inventory; anything else is
      refused. */
  function EatOne(w: World, m: Id): (r: World)
    ensures r.items == w.items && r.scene == w.scene && r.maxHealth == w.maxHealth && r.combat == w.combat
    ensures |r.inventory| <= |w.inventory|
  {
    if Edible(w, m) then Remove(ChangeHealth(w, Food.GetSaturation(w.items[m])), Pack, m) else w
  }

  /** The loop of `eat`: it touches only the inventory and the health, and
      the inventory never grows. */
  function EatEach(w: World, ms: seq<Id>): (r: World)
    ensures r.items == w.items && r.scene == w.scene && r.maxHealth == w.maxHealth && r.combat == w.combat
    ensures |r.inventory| <= |w.inventory|
    decreases |ms|
  {
    if ms == [] then w else EatEach(EatOne(w, ms[0]), ms[1..])
  }

  /** `eat(args)`. */
  function Eat(env: Env, w: World, args: string): (r: World)
    ensures r.items == w.items && r.scene == w.scene && r.maxHealth == w.maxHealth && r.combat == w.combat
    ensures |r.inventory| <= |w.inventory|
  {
    if args == "" then w
    else
      var ms := Match(env, w, args, w.inventory);
      if |ms| < 1 then w else EatEach(w, ms)
  }

  /** The matches `eat(args)` consumes. */
  function Eaten(env: Env, w: World, args: string): (r: seq<Id>)
    ensures forall x :: x in r ==> Edible(w, x) && x in w.inventory
    ensures args != "" ==> forall x :: x in Match(env, w, args, w.inventory) && Edible(w, x) ==> x in r
  {
    if args == "" then [] else Filter(Match(env, w, args, w.inventory), x => Edible(w, x))
  }

  /** The texts `read` shows, in the order of its matches. */
  function Texts(w: World, ms: seq<Id>): (r: seq<string>)
    ensures |r| <= |ms|
    decreases |ms|
  {
    if ms == [] then []
    else
      var m := ms[0];
      (if PolicyAt(w, m) == Allow && IsReadableAt(w, m) then [w.items[m].kind.text] else [])
        + Texts(w, ms[1..])
  }

  /** `read(args)`: matches from the inventory, then from the scene (not
      de-duplicated across the two); only takeable readables show their
      text. The world is never changed. */
  function Read(env: Env, w: World, args: string): (r: seq<string>)
    ensures Matcher.Blank(args) ==> r == []
  {
    if args == "" then []
    else
      var ms := Match(env, w, args, w.inventory) + Match(env, w, args, w.scene);
      if |ms| < 1 then [] else Texts(w, ms)
  }

  // ---------------------------------------------------------------------
  // Combat.

  function EnemyHealth(w: World, e: Id): int
  {
    if IsEnemyAt(w, e) then w.items[e].kind.health else 0
  }

  /** `enemy.change_health(-d)`. */
  function Hurt(w: World, e: Id, d: int): (r: World)
    ensures r.scene == w.scene && r.inventory == w.inventory && r.health == w.health && r.maxHealth == w.maxHealth && r.combat == w.combat
    ensures r.items.Keys == w.items.Keys
  {
    if IsEnemyAt(w, e) then
      var it := w.items[e];
      w.(items := w.items[e := it.(kind := Enemy(it.kind.health - d, it.kind.loot))])
    else w
  }

  /** `enemy.set_name("Dead " + enemy.get_name())`. */
  function Rename(w: World, e: Id): (r: World)
    ensures r.scene == w.scene && r.inventory == w.inventory && r.health == w.health && r.maxHealth == w.maxHealth && r.combat == w.combat
    ensures r.items.Keys == w.items.Keys
  {
    if IsEnemyAt(w, e) then w.(items := w.items[e := w.items[e].(name := "Dead " + w.items[e].name)])
    else w
  }

  /** The loot loop of `swing`, over a copy of the dead enemy's inventory:
      takeable items go to the scene, the rest stay. */
  function DropLoot(w: World, e: Id, xs: seq<Id>): (r: World)
    ensures r.health == w.health && r.maxHealth == w.maxHealth && r.combat == w.combat && r.items.Keys == w.items.Keys
    ensures r.inventory == w.inventory
    decreases |xs|
  {
    if xs == [] then w
    else
      var w1 := if PolicyAt(w, xs[0]) == Allow then Move(w, xs[0], Inside(e), Scene) else w;
      DropLoot(w1, e, xs[1..])
  }

  /** One pass of `swing`'s loop: a living enemy takes the weapon's damage;
      if it survives it strikes back and combat begins, if it dies its
      takeable items drop, it is renamed and combat ends. A dead enemy is
      left alone. */
  function Strike(w: World, e: Id, m: Id): (r: World)
    ensures r.inventory == w.inventory && r.maxHealth == w.maxHealth && r.items.Keys == w.items.Keys
  {
    if !AliveAt(w, e) then w
    else
      var w1 := Hurt(w, e, Damage(w, m));
      if AliveAt(w1, e) then ChangeHealth(w1, -Damage(w1, e)).(combat := true)
      else Rename(DropLoot(w1, e, At(w1, Inside(e))), e).(combat := false)
  }

  function SwingEach(w: World, e: Id, ms: seq<Id>): (r: World)
    ensures r.inventory == w.inventory && r.maxHealth == w.maxHealth && r.items.Keys == w.items.Keys
    decreases |ms|
  {
    if ms == [] then w else SwingEach(Strike(w, e, ms[0]), e, ms[1..])
  }

  /** `swing(args, enemy)`: only non-food inventory items can be swung. */
  function Swing(env: Env, w: World, args: string, enemy: Option<Id>): (r: World)
    ensures r.inventory == w.inventory && r.maxHealth == w.maxHealth && r.items.Keys == w.items.Keys
  {
    if enemy.None? then w
    else if args == "" then w
    else
      var ms := Match(env, w, args, GetWeapons(w));
      if |ms| < 1 then w else SwingEach(w, enemy.value, ms)
  }
}
