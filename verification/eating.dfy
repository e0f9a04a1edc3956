/** `eat` (player/playerentity.py): what eating consumes and what it does
    to health. */
module Eating {
  import opened Items
  import opened Seqs
  import opened Worlds
  import opened Player
  import Food
  import Matcher
  import Conservation

  /** One pass of `eat`'s loop: food that may be taken leaves the inventory
      and, for a player whose health is within the maximum, health rises by
      the saturation up to the maximum; a match that is not takeable food
      changes nothing. */
  lemma EatOneEffect(w: World, m: Id)
    requires m in w.inventory
    ensures !Edible(w, m) ==> EatOne(w, m) == w
    ensures Edible(w, m) ==>
              var r := EatOne(w, m);
              var s := Food.GetSaturation(w.items[m]);
              && multiset(r.inventory) + multiset{m} == multiset(w.inventory)
              && r.scene == w.scene
              && r.health <= r.maxHealth
              && (r.health == w.health + s || r.health == w.maxHealth < w.health + s)
              && (s >= 0 && w.health <= w.maxHealth ==> w.health <= r.health)
  {
    if Edible(w, m) {
      RemoveFirstBag(w.inventory, m);
    }
  }

  /** What the loop of `eat` consumes. */
  lemma {:induction false} EatEachBag(w: World, ms: seq<Id>)
    requires multiset(ms) <= multiset(w.inventory)
    ensures multiset(EatEach(w, ms).inventory) + multiset(Filter(ms, x => Edible(w, x))) == multiset(w.inventory)
    decreases |ms|
  {
    if ms != [] {
      var x := ms[0];
      var w1 := EatOne(w, x);
      var p := x => Edible(w, x);
      assert Stable(w, w1) by {
        if Edible(w, x) {
          PutStable(ChangeHealth(w, Food.GetSaturation(w.items[x])), Pack, RemoveFirst(w.inventory, x));
        }
      }
      assert Filter(ms[1..], x => Edible(w1, x)) == Filter(ms[1..], p) by {
        forall y | y in ms[1..] ensures Edible(w1, y) == Edible(w, y) {
          StableKinds(w, w1, y);
        }
        FilterCongruent(ms[1..], x => Edible(w1, x), p);
      }
      var r := EatEach(w1, ms[1..]);
      assert EatEach(w, ms) == r;
      if Edible(w, x) {
        assert multiset(w1.inventory) + multiset{x} == multiset(w.inventory) by {
          Conservation.HeadListed(ms, w.inventory);
          RemoveFirstBag(w.inventory, x);
        }
        assert multiset(ms[1..]) <= multiset(w1.inventory) by {
          Conservation.HeadListed(ms, w.inventory);
          RestFits(ms, w.inventory, w1.inventory);
        }
        EatEachBag(w1, ms[1..]);
        var eaten := Filter(ms, p);
        assert eaten == [x] + Filter(ms[1..], p);
        assert eaten[0] == x && eaten[1..] == Filter(ms[1..], p);
        BagStep(eaten, multiset(w.inventory), multiset(w1.inventory), multiset(r.inventory));
      } else {
        assert multiset(ms[1..]) <= multiset(w.inventory) by {
          assert ms == [x] + ms[1..];
          assert multiset(ms) == multiset{x} + multiset(ms[1..]);
        }
        EatEachBag(w1, ms[1..]);
        assert Filter(ms, p) == Filter(ms[1..], p);
      }
    }
  }

  /** Eating changes no object's fixed parts, keeps a flat world flat and
      never touches the scene or any container. */
  lemma {:induction false} EatEachStable(w: World, ms: seq<Id>)
    ensures Stable(w, EatEach(w, ms))
    ensures Flat(w) ==> Flat(EatEach(w, ms))
    ensures forall l :: l != Pack ==> At(EatEach(w, ms), l) == At(w, l)
    decreases |ms|
  {
    if ms != [] {
      var x := ms[0];
      var w1 := EatOne(w, x);
      if Edible(w, x) {
        var wc := ChangeHealth(w, Food.GetSaturation(w.items[x]));
        Conservation.ChangeHealthKeeps(w, Food.GetSaturation(w.items[x]));
        PutStable(wc, Pack, RemoveFirst(wc.inventory, x));
        if Flat(w) {
          RemoveFlat(wc, x, Pack);
        }
      }
      EatEachStable(w1, ms[1..]);
    }
  }

  /** The ids eating takes out of the world are exactly the takeable food
      among its matches: nothing else is lost and nothing is duplicated. */
  lemma {:induction false} EatEachTotal(w: World, ms: seq<Id>)
    requires multiset(ms) <= multiset(w.inventory)
    ensures Total(EatEach(w, ms)) + multiset(Filter(ms, x => Edible(w, x))) == Total(w)
    decreases |ms|
  {
    if ms != [] {
      var x := ms[0];
      var w1 := EatOne(w, x);
      var p := x => Edible(w, x);
      assert Filter(ms[1..], x => Edible(w1, x)) == Filter(ms[1..], p) by {
        EatEachStable(w, [x]);
        assert EatEach(w, [x]) == w1;
        forall y | y in ms[1..] ensures Edible(w1, y) == Edible(w, y) {
          StableKinds(w, w1, y);
        }
        FilterCongruent(ms[1..], x => Edible(w1, x), p);
      }
      var r := EatEach(w1, ms[1..]);
      assert EatEach(w, ms) == r;
      if Edible(w, x) {
        var wc := ChangeHealth(w, Food.GetSaturation(w.items[x]));
        assert Total(w1) + multiset{x} == Total(w) && multiset(w1.inventory) + multiset{x} == multiset(w.inventory) by {
          Conservation.HeadListed(ms, w.inventory);
          Conservation.ChangeHealthKeeps(w, Food.GetSaturation(w.items[x]));
          RemoveTotal(wc, x, Pack);
          RemoveFirstBag(w.inventory, x);
        }
        assert multiset(ms[1..]) <= multiset(w1.inventory) by {
          RestFits(ms, w.inventory, w1.inventory);
        }
        EatEachTotal(w1, ms[1..]);
        var eaten := Filter(ms, p);
        assert eaten == [x] + Filter(ms[1..], p);
        assert eaten[0] == x && eaten[1..] == Filter(ms[1..], p);
        BagStep(eaten, Total(w), Total(w1), Total(r));
      } else {
        assert multiset(ms[1..]) <= multiset(w.inventory) by {
          assert ms == [x] + ms[1..];
          assert multiset(ms) == multiset{x} + multiset(ms[1..]);
        }
        EatEachTotal(w1, ms[1..]);
        assert Filter(ms, p) == Filter(ms[1..], p);
      }
    }
  }

  /** `eat(args)` consumes exactly what `Eaten` names: those ids leave the
      inventory and the world, every other listed id stays where it was,
      and no object's fixed parts change. */
  lemma EatConsumes(env: Env, w: World, args: string)
    ensures Total(Eat(env, w, args)) + multiset(Eaten(env, w, args)) == Total(w)
    ensures multiset(Eat(env, w, args).inventory) + multiset(Eaten(env, w, args)) == multiset(w.inventory)
    ensures forall l :: l != Pack ==> At(Eat(env, w, args), l) == At(w, l)
    ensures Stable(w, Eat(env, w, args)) && (Flat(w) ==> Flat(Eat(env, w, args)))
  {
    if args != "" {
      var ms := Match(env, w, args, w.inventory);
      SelectionBag(ms, w.inventory);
      EatEachTotal(w, ms);
      EatEachBag(w, ms);
      EatEachStable(w, ms);
    }
  }
}
