/** Items are relocated, never duplicated or lost: every action except
    `eat` keeps the bag of all listed ids (scene, inventory, every
    container's contents and every enemy's inventory), keeps each object's
    fixed parts, and never nests a container. `eat` takes out exactly the
    takeable food it consumes. */
module Conservation {
  import opened Items
  import opened Seqs
  import opened Worlds
  import opened Player
  import Food

  // ---------------------------------------------------------------------
  // Steps that move nothing.

  lemma ChangeHealthKeeps(w: World, amount: int)
    ensures Keeps(w, ChangeHealth(w, amount))
    ensures forall l :: At(ChangeHealth(w, amount), l) == At(w, l)
  {
    var r := ChangeHealth(w, amount);
    SameListsKeeps(w, r);
  }

  /** A world that differs only in the player's health or the combat flag. */
  lemma SameListsKeeps(w: World, r: World)
    requires r.items == w.items && r.scene == w.scene && r.inventory == w.inventory
    requires r.maxHealth == w.maxHealth
    ensures Keeps(w, r)
  {
    assert Total(r) == Total(w);
    assert forall c :: IsContainerAt(r, c) == IsContainerAt(w, c) && Contents(r, c) == Contents(w, c);
  }

  /** Changing an enemy's health or name keeps every list. */
  lemma EnemyEditKeeps(w: World, e: Id, v: Item)
    requires IsEnemyAt(w, e) && v.kind.Enemy? && Frame(v) == Frame(w.items[e])
    requires Held(v) == Held(w.items[e])
    ensures Keeps(w, w.(items := w.items[e := v]))
    ensures forall l :: At(w.(items := w.items[e := v]), l) == At(w, l)
  {
    var r := w.(items := w.items[e := v]);
    assert Total(r) == Total(w) by {
      HeldBagUpdate(w.items, e, v);
      Cancel(HeldBag(r.items), HeldBag(w.items), multiset(Held(v)));
    }
    assert Stable(w, r) by {
      assert r.items.Keys == w.items.Keys;
      forall k | k in w.items ensures Frame(r.items[k]) == Frame(w.items[k]) {
      }
    }
    forall l ensures At(r, l) == At(w, l) {
      if l.Inside? && l.holder == e {
        assert At(r, l) == Held(v);
      }
    }
    if Flat(w) {
      forall c, y | c in r.items && IsContainerAt(r, c) && y in Contents(r, c)
        ensures !IsContainerAt(r, y)
      {
        assert c != e;
        assert Contents(r, c) == Contents(w, c);
      }
    }
  }

  lemma HurtKeeps(w: World, e: Id, d: int)
    ensures Keeps(w, Hurt(w, e, d))
    ensures forall l :: At(Hurt(w, e, d), l) == At(w, l)
  {
    if IsEnemyAt(w, e) {
      var it := w.items[e];
      EnemyEditKeeps(w, e, it.(kind := Enemy(it.kind.health - d, it.kind.loot)));
    }
  }

  lemma RenameKeeps(w: World, e: Id)
    ensures Keeps(w, Rename(w, e))
    ensures forall l :: At(Rename(w, e), l) == At(w, l)
  {
    if IsEnemyAt(w, e) {
      EnemyEditKeeps(w, e, w.items[e].(name := "Dead " + w.items[e].name));
    }
  }

  /** The head of a list that fits in `At(w, src)` is listed there. */
  lemma HeadListed(ms: seq<Id>, s: seq<Id>)
    requires ms != [] && multiset(ms) <= multiset(s)
    ensures ms[0] in s
    ensures multiset([ms[0]] + ms[1..]) <= multiset(s)
  {
    assert ms == [ms[0]] + ms[1..];
    assert ms[0] in multiset(ms);
  }

  // ---------------------------------------------------------------------
  // The loops.

  /** What is left of a list that fits in `s`, once its head is gone,
      still fits in `s`. */
  lemma TailFits(ms: seq<Id>, s: seq<Id>)
    requires ms != [] && multiset(ms) <= multiset(s)
    ensures multiset(ms[1..]) <= multiset(s)
  {
    assert ms == [ms[0]] + ms[1..];
  }

  /** One step of `take` that moves the item into the inventory. */
  lemma TakeOneMoves(w: World, ms: seq<Id>, src: Loc)
    requires ms != [] && multiset(ms) <= multiset(At(w, src))
    requires !IsEnemyAt(w, ms[0])
    ensures var w1 := Move(w, ms[0], src, Pack);
            Keeps(w, w1) && multiset(ms[1..]) <= multiset(At(w1, src))
  {
    HeadListed(ms, At(w, src));
    MoveKeeps(w, ms[0], src, Pack);
    MoveLeavesRest(w, ms[0], ms[1..], src, Pack);
  }

  /** One step of `take`: it keeps the world, and what is still to be taken
      is still in `src`. */
  lemma TakeOneKeeps(env: Env, w: World, ms: seq<Id>, src: Loc)
    requires ms != [] && multiset(ms) <= multiset(At(w, src))
    ensures var w1 := TakeOne(env, w, ms[0], src);
            Keeps(w, w1) && multiset(ms[1..]) <= multiset(At(w1, src))
  {
    var x := ms[0];
    if PolicyAt(w, x) == Allow && !IsEnemyAt(w, x) && !env.full(w, Pack) {
      assert TakeOne(env, w, x, src) == Move(w, x, src, Pack);
      TakeOneMoves(w, ms, src);
    } else if PolicyAt(w, x) == Consequence {
      var w1 := ChangeHealth(w, -Damage(w, x));
      assert TakeOne(env, w, x, src) == w1;
      TailFits(ms, At(w, src));
      ChangeHealthKeeps(w, -Damage(w, x));
    } else {
      assert TakeOne(env, w, x, src) == w;
      TailFits(ms, At(w, src));
      KeepsRefl(w);
    }
  }

  lemma {:induction false} TakeKeeps(env: Env, w: World, ms: seq<Id>, src: Loc)
    requires multiset(ms) <= multiset(At(w, src))
    ensures Keeps(w, Take(env, w, ms, src))
    decreases |ms|
  {
    if ms == [] {
      KeepsRefl(w);
    } else {
      var w1 := TakeOne(env, w, ms[0], src);
      TakeOneKeeps(env, w, ms, src);
      TakeKeeps(env, w1, ms[1..], src);
      KeepsTrans(w, w1, Take(env, w1, ms[1..], src));
    }
  }

  lemma {:induction false} AddItemKeeps(env: Env, w: World, ms: seq<Id>, src: Loc, c: Id)
    requires IsContainerAt(w, c)
    requires multiset(ms) <= multiset(At(w, src))
    ensures Keeps(w, AddItem(env, w, ms, src, c))
    decreases |ms|
  {
    if ms == [] {
      KeepsRefl(w);
    } else {
      var x := ms[0];
      HeadListed(ms, At(w, src));
      var w1 := AddOne(env, w, x, src, c);
      if !IsContainerAt(w, x) && !env.full(w, Inside(c)) {
        MoveKeeps(w, x, src, Inside(c));
        MoveLeavesRest(w, x, ms[1..], src, Inside(c));
      } else {
        KeepsRefl(w);
      }
      StableKinds(w, w1, c);
      AddItemKeeps(env, w1, ms[1..], src, c);
      KeepsTrans(w, w1, AddItem(env, w1, ms[1..], src, c));
    }
  }

  lemma {:induction false} TakeOutKeeps(w: World, ms: seq<Id>, c: Id)
    requires multiset(ms) <= multiset(At(w, Inside(c)))
    ensures Keeps(w, TakeOut(w, ms, c))
    decreases |ms|
  {
    if ms == [] {
      KeepsRefl(w);
    } else {
      var x := ms[0];
      HeadListed(ms, At(w, Inside(c)));
      var w1 := Move(w, x, Inside(c), Pack);
      MoveKeeps(w, x, Inside(c), Pack);
      MoveLeavesRest(w, x, ms[1..], Inside(c), Pack);
      TakeOutKeeps(w1, ms[1..], c);
      KeepsTrans(w, w1, TakeOut(w1, ms[1..], c));
    }
  }

  lemma {:induction false} DropEachKeeps(w: World, ms: seq<Id>)
    requires multiset(ms) <= multiset(w.inventory)
    ensures Keeps(w, DropEach(w, ms))
    decreases |ms|
  {
    if ms == [] {
      KeepsRefl(w);
    } else {
      var x := ms[0];
      HeadListed(ms, At(w, Pack));
      var w1 := Move(w, x, Pack, Scene);
      MoveKeeps(w, x, Pack, Scene);
      MoveLeavesRest(w, x, ms[1..], Pack, Scene);
      DropEachKeeps(w1, ms[1..]);
      KeepsTrans(w, w1, DropEach(w1, ms[1..]));
    }
  }

  lemma {:induction false} DropFromBoxKeeps(w: World, c: Id, ms: seq<Id>)
    ensures Keeps(w, DropFromBox(w, c, ms))
    decreases |ms|
  {
    if ms == [] {
      KeepsRefl(w);
    } else {
      var w1 := if ms[0] in At(w, Inside(c)) then Move(w, ms[0], Inside(c), Scene) else w;
      if ms[0] in At(w, Inside(c)) {
        MoveKeeps(w, ms[0], Inside(c), Scene);
      } else {
        KeepsRefl(w);
      }
      DropFromBoxKeeps(w1, c, ms[1..]);
      KeepsTrans(w, w1, DropFromBox(w1, c, ms[1..]));
    }
  }

  lemma {:induction false} DropFromBoxesKeeps(w: World, boxes: seq<Id>, ms: seq<Id>)
    ensures Keeps(w, DropFromBoxes(w, boxes, ms))
    decreases |boxes|
  {
    if boxes == [] {
      KeepsRefl(w);
    } else {
      var w1 := DropFromBox(w, boxes[0], ms);
      DropFromBoxKeeps(w, boxes[0], ms);
      DropFromBoxesKeeps(w1, boxes[1..], ms);
      KeepsTrans(w, w1, DropFromBoxes(w1, boxes[1..], ms));
    }
  }

  lemma {:induction false} TakeFromBoxesKeeps(env: Env, w: World, args: string, boxes: seq<Id>)
    ensures Keeps(w, TakeFromBoxes(env, w, args, boxes))
    decreases |boxes|
  {
    if boxes == [] {
      KeepsRefl(w);
    } else {
      var l := Inside(boxes[0]);
      var ms := Match(env, w, args, At(w, l));
      var w1 := if |ms| > 0 then Take(env, w, ms, l) else w;
      SelectionBag(ms, At(w, l));
      TakeKeeps(env, w, ms, l);
      TakeFromBoxesKeeps(env, w1, args, boxes[1..]);
      KeepsTrans(w, w1, TakeFromBoxes(env, w1, args, boxes[1..]));
    }
  }

  lemma {:induction false} DropLootKeeps(w: World, e: Id, xs: seq<Id>)
    requires multiset(xs) <= multiset(At(w, Inside(e)))
    ensures Keeps(w, DropLoot(w, e, xs))
    decreases |xs|
  {
    if xs == [] {
      KeepsRefl(w);
    } else {
      var x := xs[0];
      HeadListed(xs, At(w, Inside(e)));
      var w1 := if PolicyAt(w, x) == Allow then Move(w, x, Inside(e), Scene) else w;
      if PolicyAt(w, x) == Allow {
        MoveKeeps(w, x, Inside(e), Scene);
        MoveLeavesRest(w, x, xs[1..], Inside(e), Scene);
      } else {
        KeepsRefl(w);
        assert multiset(xs[1..]) <= multiset([x] + xs[1..]);
      }
      DropLootKeeps(w1, e, xs[1..]);
      KeepsTrans(w, w1, DropLoot(w1, e, xs[1..]));
    }
  }

  /** A blow the enemy survives. */
  lemma StrikeBackKeeps(w: World, e: Id, m: Id)
    requires AliveAt(w, e) && AliveAt(Hurt(w, e, Damage(w, m)), e)
    ensures Keeps(w, Strike(w, e, m))
  {
    var w1 := Hurt(w, e, Damage(w, m));
    var w2 := ChangeHealth(w1, -Damage(w1, e));
    assert Strike(w, e, m) == w2.(combat := true);
    assert Keeps(w, w2) by {
      HurtKeeps(w, e, Damage(w, m));
      ChangeHealthKeeps(w1, -Damage(w1, e));
      KeepsTrans(w, w1, w2);
    }
    SameListsKeeps(w2, w2.(combat := true));
    KeepsTrans(w, w2, w2.(combat := true));
  }

  /** A blow that kills. */
  lemma StrikeDeadKeeps(w: World, e: Id, m: Id)
    requires AliveAt(w, e) && !AliveAt(Hurt(w, e, Damage(w, m)), e)
    ensures Keeps(w, Strike(w, e, m))
  {
    var w1 := Hurt(w, e, Damage(w, m));
    var w2 := DropLoot(w1, e, At(w1, Inside(e)));
    var w3 := Rename(w2, e);
    assert Strike(w, e, m) == w3.(combat := false);
    assert Keeps(w, w3) by {
      HurtKeeps(w, e, Damage(w, m));
      DropLootKeeps(w1, e, At(w1, Inside(e)));
      KeepsTrans(w, w1, w2);
      RenameKeeps(w2, e);
      KeepsTrans(w, w2, w3);
    }
    SameListsKeeps(w3, w3.(combat := false));
    KeepsTrans(w, w3, w3.(combat := false));
  }

  lemma StrikeKeeps(w: World, e: Id, m: Id)
    ensures Keeps(w, Strike(w, e, m))
  {
    if !AliveAt(w, e) {
      KeepsRefl(w);
    } else if AliveAt(Hurt(w, e, Damage(w, m)), e) {
      StrikeBackKeeps(w, e, m);
    } else {
      StrikeDeadKeeps(w, e, m);
    }
  }

  lemma {:induction false} SwingEachKeeps(w: World, e: Id, ms: seq<Id>)
    ensures Keeps(w, SwingEach(w, e, ms))
    decreases |ms|
  {
    if ms == [] {
      KeepsRefl(w);
    } else {
      var w1 := Strike(w, e, ms[0]);
      StrikeKeeps(w, e, ms[0]);
      SwingEachKeeps(w1, e, ms[1..]);
      KeepsTrans(w, w1, SwingEach(w1, e, ms[1..]));
    }
  }

  // ---------------------------------------------------------------------
  // The actions.

  /** `container_add` relocates matches into the container and never puts a
      container inside one. */
  lemma ContainerAddKeeps(env: Env, w: World, args: string, container: Option<Id>)
    requires container.Some? ==> IsContainerAt(w, container.value)
    ensures Keeps(w, ContainerAdd(env, w, args, container))
  {
    if container.None? || args == "" {
      KeepsRefl(w);
    } else {
      var c := container.value;
      var q := Strip(args, Matcher.Lower(NameOf(w, c)));
      var fromInventory := Match(env, w, q, w.inventory);
      var fromScene := Match(env, w, q, w.scene);
      SelectionBag(fromInventory, w.inventory);
      SelectionBag(fromScene, w.scene);
      AddItemKeeps(env, w, fromInventory, Pack, c);
      AddItemKeeps(env, w, fromScene, Scene, c);
      KeepsRefl(w);
    }
  }

  /** `container_remove` relocates matches from the container to the
      inventory. */
  lemma ContainerRemoveKeeps(env: Env, w: World, args: string, container: Option<Id>)
    ensures Keeps(w, ContainerRemove(env, w, args, container))
  {
    if container.None? || args == "" {
      KeepsRefl(w);
    } else {
      var c := container.value;
      var ms := Match(env, w, args, At(w, Inside(c)));
      SelectionBag(ms, At(w, Inside(c)));
      TakeOutKeeps(w, ms, c);
      KeepsRefl(w);
    }
  }

  /** `pick_up` relocates matches from the scene or from the scene's
      containers to the inventory. */
  lemma PickUpKeeps(env: Env, w: World, args: string)
    ensures Keeps(w, PickUp(env, w, args))
  {
    if args == "" {
      KeepsRefl(w);
    } else {
      var direct := Match(env, w, args, w.scene);
      SelectionBag(direct, w.scene);
      TakeKeeps(env, w, direct, Scene);
      TakeFromBoxesKeeps(env, w, args, GetContainers(w, w.scene));
      KeepsRefl(w);
    }
  }

  /** `drop` relocates matches from the inventory or from the inventory's
      containers to the scene. */
  lemma DropKeeps(env: Env, w: World, args: string)
    ensures Keeps(w, Drop(env, w, args))
  {
    if args == "" {
      KeepsRefl(w);
    } else {
      var direct := Match(env, w, args, w.inventory);
      var boxes := GetContainers(w, w.inventory);
      SelectionBag(direct, w.inventory);
      DropEachKeeps(w, direct);
      DropFromBoxesKeeps(w, boxes, NestedMatches(env, w, args, boxes));
      KeepsRefl(w);
    }
  }

  /** `swing` moves nothing but a dead enemy's takeable items to the scene. */
  lemma SwingKeeps(env: Env, w: World, args: string, enemy: Option<Id>)
    ensures Keeps(w, Swing(env, w, args, enemy))
  {
    if enemy.None? || args == "" {
      KeepsRefl(w);
    } else {
      SwingEachKeeps(w, enemy.value, Match(env, w, args, GetWeapons(w)));
      KeepsRefl(w);
    }
  }
}
