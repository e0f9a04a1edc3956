/** `swing` (player/playerentity.py): what one blow does to the enemy, the
    player and the scene, and how the combat flag follows the enemy's
    life. */
module Combat {
  import opened Items
  import opened Seqs
  import opened Worlds
  import opened Player
  import Conservation

  /** Replacing a list leaves every enemy as it was, apart from its
      inventory. */
  lemma PutEnemy(w: World, l: Loc, s: seq<Id>, e: Id)
    ensures IsEnemyAt(Put(w, l, s), e) == IsEnemyAt(w, e)
    ensures EnemyHealth(Put(w, l, s), e) == EnemyHealth(w, e)
    ensures IsEnemyAt(w, e) ==> Put(w, l, s).items[e].damage == w.items[e].damage
  {
  }

  /** The loot loop drops every takeable item of the list it walks, in
      order, onto the end of the scene. */
  lemma {:induction false} DropLootScene(w: World, e: Id, xs: seq<Id>)
    ensures DropLoot(w, e, xs).scene == w.scene + Filter(xs, y => PolicyAt(w, y) == Allow)
    decreases |xs|
  {
    if xs != [] {
      var x := xs[0];
      var rest := Filter(xs[1..], y => PolicyAt(w, y) == Allow);
      if PolicyAt(w, x) == Allow {
        var w1 := Move(w, x, Inside(e), Scene);
        assert DropLoot(w, e, xs) == DropLoot(w1, e, xs[1..]);
        assert w1.scene == w.scene + [x] by {
          assert Remove(w, Inside(e), x).scene == w.scene;
        }
        assert Filter(xs[1..], y => PolicyAt(w1, y) == Allow) == rest by {
          MoveStable(w, x, Inside(e), Scene);
          forall y | y in xs[1..] ensures PolicyAt(w1, y) == PolicyAt(w, y) {
            StableKinds(w, w1, y);
          }
          FilterCongruent(xs[1..], y => PolicyAt(w1, y) == Allow, y => PolicyAt(w, y) == Allow);
        }
        DropLootScene(w1, e, xs[1..]);
        assert Filter(xs, y => PolicyAt(w, y) == Allow) == [x] + rest;
        AppendAssoc(w.scene, [x], rest);
      } else {
        assert DropLoot(w, e, xs) == DropLoot(w, e, xs[1..]);
        DropLootScene(w, e, xs[1..]);
        assert Filter(xs, y => PolicyAt(w, y) == Allow) == rest;
      }
    }
  }

  /** The loot loop leaves the enemy's health, name and damage, and the
      player's inventory, health and combat flag, as they were. */
  lemma {:induction false} DropLootEnemy(w: World, e: Id, xs: seq<Id>)
    ensures var r := DropLoot(w, e, xs);
            && IsEnemyAt(r, e) == IsEnemyAt(w, e) && EnemyHealth(r, e) == EnemyHealth(w, e)
            && AliveAt(r, e) == AliveAt(w, e) && NameOf(r, e) == NameOf(w, e)
            && (IsEnemyAt(w, e) ==> r.items[e].damage == w.items[e].damage)
            && r.inventory == w.inventory && r.health == w.health && r.combat == w.combat
    decreases |xs|
  {
    if xs != [] {
      var x := xs[0];
      var w1 := if PolicyAt(w, x) == Allow then Move(w, x, Inside(e), Scene) else w;
      if PolicyAt(w, x) == Allow {
        var w0 := Remove(w, Inside(e), x);
        PutEnemy(w, Inside(e), RemoveFirst(At(w, Inside(e)), x), e);
        PutEnemy(w0, Scene, At(w0, Scene) + [x], e);
        MoveNames(w, x, Inside(e), Scene, e);
      }
      DropLootEnemy(w1, e, xs[1..]);
    }
  }

  /** One takeable item dropped from the enemy's inventory. */
  lemma DropOneKept(w: World, e: Id, pre: seq<Id>, xs: seq<Id>)
    requires xs != [] && PolicyAt(w, xs[0]) == Allow
    requires At(w, Inside(e)) == pre + xs
    requires forall y :: y in pre ==> PolicyAt(w, y) != Allow
    ensures var w1 := Move(w, xs[0], Inside(e), Scene);
            && At(w1, Inside(e)) == pre + xs[1..]
            && (forall y :: y in pre ==> PolicyAt(w1, y) != Allow)
            && Filter(xs[1..], y => PolicyAt(w1, y) != Allow) == Filter(xs[1..], y => PolicyAt(w, y) != Allow)
  {
    var x := xs[0];
    assert xs == [x] + xs[1..];
    AppendAssoc(pre, [x], xs[1..]);
    assert x !in pre;
    RemoveFirstAfter(pre, x, xs[1..]);
    assert x in At(w, Inside(e));
    var w1 := Move(w, x, Inside(e), Scene);
    MoveAt(w, x, Inside(e), Scene, Inside(e));
    MoveStable(w, x, Inside(e), Scene);
    forall y ensures PolicyAt(w1, y) == PolicyAt(w, y) {
      StableKinds(w, w1, y);
    }
    FilterCongruent(xs[1..], y => PolicyAt(w1, y) != Allow, y => PolicyAt(w, y) != Allow);
  }

  /** The loot loop, walking the enemy's own inventory, takes exactly the
      takeable items out of it and keeps the rest in order. `pre` is what
      has been kept so far. */
  lemma {:induction false} DropLootKept(w: World, e: Id, pre: seq<Id>, xs: seq<Id>)
    requires At(w, Inside(e)) == pre + xs
    requires forall y :: y in pre ==> PolicyAt(w, y) != Allow
    ensures At(DropLoot(w, e, xs), Inside(e)) == pre + Filter(xs, y => PolicyAt(w, y) != Allow)
    decreases |xs|
  {
    if xs != [] {
      var x := xs[0];
      var rest := Filter(xs[1..], y => PolicyAt(w, y) != Allow);
      if PolicyAt(w, x) == Allow {
        var w1 := Move(w, x, Inside(e), Scene);
        assert DropLoot(w, e, xs) == DropLoot(w1, e, xs[1..]);
        DropOneKept(w, e, pre, xs);
        DropLootKept(w1, e, pre, xs[1..]);
        assert Filter(xs, y => PolicyAt(w, y) != Allow) == rest;
      } else {
        assert DropLoot(w, e, xs) == DropLoot(w, e, xs[1..]);
        assert xs == [x] + xs[1..];
        AppendAssoc(pre, [x], xs[1..]);
        DropLootKept(w, e, pre + [x], xs[1..]);
        assert Filter(xs, y => PolicyAt(w, y) != Allow) == [x] + rest;
        AppendAssoc(pre, [x], rest);
      }
    }
  }

  /** The enemy's health drops by the weapon's damage (a container's
      damage counts its contents); the weapon and everything listed stay
      where they are. */
  lemma HurtEffect(w: World, e: Id, d: int)
    requires IsEnemyAt(w, e)
    ensures var r := Hurt(w, e, d);
            && IsEnemyAt(r, e) && EnemyHealth(r, e) == EnemyHealth(w, e) - d
            && (AliveAt(r, e) <==> EnemyHealth(w, e) - d > 0)
            && NameOf(r, e) == NameOf(w, e) && r.items[e].damage == w.items[e].damage
            && r.health == w.health && r.maxHealth == w.maxHealth && r.combat == w.combat
            && Stable(w, r) && forall l :: At(r, l) == At(w, l)
  {
    Conservation.HurtKeeps(w, e, d);
  }

  /** A blow at a living enemy that survives it: the enemy strikes back
      with its damage, combat begins, and nothing is moved or renamed. */
  lemma StrikeSurvived(w: World, e: Id, m: Id)
    requires AliveAt(w, e) && EnemyHealth(w, e) - Damage(w, m) > 0
    ensures var r := Strike(w, e, m);
            && EnemyHealth(r, e) == EnemyHealth(w, e) - Damage(w, m)
            && r.combat && AliveAt(r, e)
            && r.health == ChangeHealth(w, -w.items[e].damage).health
            && NameOf(r, e) == NameOf(w, e)
            && forall l :: At(r, l) == At(w, l)
  {
    HurtEffect(w, e, Damage(w, m));
  }

  /** Renaming an enemy "Dead ..." touches nothing but its name. */
  lemma RenameEffect(w: World, e: Id)
    requires IsEnemyAt(w, e)
    ensures var r := Rename(w, e);
            && IsEnemyAt(r, e) && EnemyHealth(r, e) == EnemyHealth(w, e)
            && AliveAt(r, e) == AliveAt(w, e)
            && NameOf(r, e) == "Dead " + NameOf(w, e)
            && r.scene == w.scene && r.inventory == w.inventory
            && r.health == w.health && r.combat == w.combat
            && At(r, Inside(e)) == At(w, Inside(e))
  {
  }

  /** A blow that kills: the enemy's takeable items drop onto the scene in
      the order it held them, the rest stay with it, it is renamed "Dead
      ...", combat ends, and the player takes no damage. */
  lemma StrikeKilled(w: World, e: Id, m: Id)
    requires AliveAt(w, e) && EnemyHealth(w, e) - Damage(w, m) <= 0
    ensures var r := Strike(w, e, m);
            var loot := At(w, Inside(e));
            && EnemyHealth(r, e) == EnemyHealth(w, e) - Damage(w, m)
            && !r.combat && !AliveAt(r, e)
            && r.health == w.health && r.inventory == w.inventory
            && NameOf(r, e) == "Dead " + NameOf(w, e)
            && r.scene == w.scene + Filter(loot, y => PolicyAt(w, y) == Allow)
            && At(r, Inside(e)) == Filter(loot, y => PolicyAt(w, y) != Allow)
  {
    var loot := At(w, Inside(e));
    var w1 := Hurt(w, e, Damage(w, m));
    HurtEffect(w, e, Damage(w, m));
    assert At(w1, Inside(e)) == loot;
    var w2 := DropLoot(w1, e, loot);
    DropLootEnemy(w1, e, loot);
    assert w2.scene == w.scene + Filter(loot, y => PolicyAt(w, y) == Allow) by {
      DropLootScene(w1, e, loot);
      forall y | y in loot ensures PolicyAt(w1, y) == PolicyAt(w, y) {
        StableKinds(w, w1, y);
      }
      FilterCongruent(loot, y => PolicyAt(w1, y) == Allow, y => PolicyAt(w, y) == Allow);
    }
    assert At(w2, Inside(e)) == Filter(loot, y => PolicyAt(w, y) != Allow) by {
      assert loot == [] + loot;
      DropLootKept(w1, e, [], loot);
      assert [] + Filter(loot, y => PolicyAt(w1, y) != Allow) == Filter(loot, y => PolicyAt(w1, y) != Allow);
      forall y | y in loot ensures PolicyAt(w1, y) == PolicyAt(w, y) {
        StableKinds(w, w1, y);
      }
      FilterCongruent(loot, y => PolicyAt(w1, y) != Allow, y => PolicyAt(w, y) != Allow);
    }
    assert !AliveAt(w1, e);
    RenameEffect(w2, e);
    assert Strike(w, e, m) == Rename(w2, e).(combat := false);
  }

  /** A blow at a dead enemy changes nothing. */
  lemma {:induction false} SwingEachDead(w: World, e: Id, ms: seq<Id>)
    requires !AliveAt(w, e)
    ensures SwingEach(w, e, ms) == w
    decreases |ms|
  {
    if ms != [] {
      SwingEachDead(w, e, ms[1..]);
    }
  }

  /** After a blow at a living enemy the combat flag says whether it is
      still alive. */
  lemma StrikeCombat(w: World, e: Id, m: Id)
    requires AliveAt(w, e)
    ensures Strike(w, e, m).combat == AliveAt(Strike(w, e, m), e)
  {
    if EnemyHealth(w, e) - Damage(w, m) > 0 {
      StrikeSurvived(w, e, m);
    } else {
      StrikeKilled(w, e, m);
    }
  }

  /** Once the combat flag agrees with the enemy's life, every further
      blow keeps it so. */
  lemma {:induction false} SwingEachCombatKept(w: World, e: Id, ms: seq<Id>)
    requires w.combat == AliveAt(w, e)
    ensures SwingEach(w, e, ms).combat == AliveAt(SwingEach(w, e, ms), e)
    decreases |ms|
  {
    if ms != [] {
      if AliveAt(w, e) {
        StrikeCombat(w, e, ms[0]);
      }
      SwingEachCombatKept(Strike(w, e, ms[0]), e, ms[1..]);
    }
  }

  /** `swing` at a living enemy with at least one matching weapon leaves
      the player in combat exactly when the enemy is still alive. */
  lemma SwingCombat(env: Env, w: World, args: string, e: Id)
    requires args != "" && AliveAt(w, e)
    requires Match(env, w, args, GetWeapons(w)) != []
    ensures Swing(env, w, args, Some(e)).combat == AliveAt(Swing(env, w, args, Some(e)), e)
  {
    var ms := Match(env, w, args, GetWeapons(w));
    StrikeCombat(w, e, ms[0]);
    SwingEachCombatKept(Strike(w, e, ms[0]), e, ms[1..]);
  }

  /** Only non-food items from the inventory are ever swung. */
  lemma SwingUsesWeapons(env: Env, w: World, args: string, m: Id)
    requires m in Match(env, w, args, GetWeapons(w))
    ensures m in w.inventory && !IsFoodAt(w, m)
  {
  }
}
