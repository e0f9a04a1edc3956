/** Where the relocating actions put things: which lists each action may
    touch, what `add_item`, `take`, `container_remove` and `drop` move, and
    the round trip of picking something up and dropping it again. */
module Relocation {
  import opened Items
  import opened Seqs
  import opened Worlds
  import opened Player
  import Matcher
  import Container
  import Conservation

  // ---------------------------------------------------------------------
  // Which lists a loop may touch.

  lemma {:induction false} TakeLocal(env: Env, w: World, ms: seq<Id>, src: Loc)
    ensures forall l :: l != src && l != Pack ==> At(Take(env, w, ms, src), l) == At(w, l)
    decreases |ms|
  {
    if ms != [] {
      TakeLocal(env, TakeOne(env, w, ms[0], src), ms[1..], src);
    }
  }

  lemma {:induction false} TakeFromBoxesLocal(env: Env, w: World, args: string, boxes: seq<Id>)
    ensures TakeFromBoxes(env, w, args, boxes).scene == w.scene
    decreases |boxes|
  {
    if boxes != [] {
      var l := Inside(boxes[0]);
      var ms := Match(env, w, args, At(w, l));
      TakeLocal(env, w, ms, l);
      var w1 := if |ms| > 0 then Take(env, w, ms, l) else w;
      assert At(w1, Scene) == At(w, Scene);
      TakeFromBoxesLocal(env, w1, args, boxes[1..]);
    }
  }

  lemma {:induction false} AddItemLocal(env: Env, w: World, ms: seq<Id>, src: Loc, c: Id)
    ensures forall l :: l != src && l != Inside(c) ==> At(AddItem(env, w, ms, src, c), l) == At(w, l)
    decreases |ms|
  {
    if ms != [] {
      AddItemLocal(env, AddOne(env, w, ms[0], src, c), ms[1..], src, c);
    }
  }

  lemma {:induction false} DropEachLocal(w: World, ms: seq<Id>)
    ensures forall l :: l != Pack && l != Scene ==> At(DropEach(w, ms), l) == At(w, l)
    decreases |ms|
  {
    if ms != [] {
      DropEachLocal(Move(w, ms[0], Pack, Scene), ms[1..]);
    }
  }

  lemma {:induction false} DropFromBoxLocal(w: World, c: Id, ms: seq<Id>)
    ensures DropFromBox(w, c, ms).inventory == w.inventory
    decreases |ms|
  {
    if ms != [] {
      var w1 := if ms[0] in At(w, Inside(c)) then Move(w, ms[0], Inside(c), Scene) else w;
      assert At(w1, Pack) == At(w, Pack);
      DropFromBoxLocal(w1, c, ms[1..]);
    }
  }

  lemma {:induction false} DropFromBoxesLocal(w: World, boxes: seq<Id>, ms: seq<Id>)
    ensures DropFromBoxes(w, boxes, ms).inventory == w.inventory
    decreases |boxes|
  {
    if boxes != [] {
      DropFromBoxLocal(w, boxes[0], ms);
      DropFromBoxesLocal(DropFromBox(w, boxes[0], ms), boxes[1..], ms);
    }
  }

  /** `pick_up` takes from the scene when anything there matches, and then
      no container's contents change; only otherwise does it reach into
      the scene's containers, and then the scene's own list stays as it
      was. */
  lemma PickUpPrefersScene(env: Env, w: World, args: string)
    ensures Match(env, w, args, w.scene) != [] ==>
              forall h :: At(PickUp(env, w, args), Inside(h)) == At(w, Inside(h))
    ensures Match(env, w, args, w.scene) == [] ==> PickUp(env, w, args).scene == w.scene
  {
    if args != "" {
      TakeLocal(env, w, Match(env, w, args, w.scene), Scene);
      TakeFromBoxesLocal(env, w, args, GetContainers(w, w.scene));
    }
  }

  /** `drop` drops from the inventory when anything there matches, and then
      no container's contents change; only otherwise does it reach into
      the inventory's containers, and then the inventory's own list stays
      as it was. */
  lemma DropPrefersInventory(env: Env, w: World, args: string)
    ensures Match(env, w, args, w.inventory) != [] ==>
              forall h :: At(Drop(env, w, args), Inside(h)) == At(w, Inside(h))
    ensures Match(env, w, args, w.inventory) == [] ==> Drop(env, w, args).inventory == w.inventory
  {
    if args != "" {
      var boxes := GetContainers(w, w.inventory);
      DropEachLocal(w, Match(env, w, args, w.inventory));
      DropFromBoxesLocal(w, boxes, NestedMatches(env, w, args, boxes));
    }
  }

  /** `container_add` fills the container from the inventory when anything
      there matches the query, leaving the scene alone; only otherwise
      from the scene, leaving the inventory alone. No other container
      changes either way. */
  lemma ContainerAddPrefersInventory(env: Env, w: World, args: string, c: Id)
    requires args != ""
    ensures var q := Strip(args, Matcher.Lower(NameOf(w, c)));
            var r := ContainerAdd(env, w, args, Some(c));
            && (Match(env, w, q, w.inventory) != [] ==> r.scene == w.scene)
            && (Match(env, w, q, w.inventory) == [] ==> r.inventory == w.inventory)
            && forall h :: h != c ==> At(r, Inside(h)) == At(w, Inside(h))
  {
    var q := Strip(args, Matcher.Lower(NameOf(w, c)));
    var fromInventory := Match(env, w, q, w.inventory);
    var fromScene := Match(env, w, q, w.scene);
    var r := ContainerAdd(env, w, args, Some(c));
    if fromInventory != [] {
      assert r == AddItem(env, w, fromInventory, Pack, c);
      AddItemLocal(env, w, fromInventory, Pack, c);
      assert At(r, Scene) == At(w, Scene);
    } else if fromScene != [] {
      assert r == AddItem(env, w, fromScene, Scene, c);
      AddItemLocal(env, w, fromScene, Scene, c);
      assert At(r, Pack) == At(w, Pack);
    }
  }

  // ---------------------------------------------------------------------
  // One pass of add_item and of take.

  /** The masses the source sums depend only on the objects' fixed parts. */
  lemma ContentMassesStable(w: World, w': World, cs: seq<Id>)
    requires Stable(w, w')
    ensures ContentMasses(w', cs) == ContentMasses(w, cs)
  {
    forall i | 0 <= i < |cs| ensures ContentMasses(w', cs)[i] == ContentMasses(w, cs)[i] {
      StableKinds(w, w', cs[i]);
    }
  }

  lemma ContentMassesAppend(w: World, cs: seq<Id>, m: Id)
    ensures ContentMasses(w, cs + [m]) == ContentMasses(w, cs) + [BaseMass(w, m)]
  {
    var a := ContentMasses(w, cs + [m]);
    var b := ContentMasses(w, cs) + [BaseMass(w, m)];
    assert |a| == |b|;
    forall i | 0 <= i < |a| ensures a[i] == b[i] {
      if i < |cs| {
        assert (cs + [m])[i] == cs[i];
      }
    }
  }

  /** One pass of `add_item`: a container or a full target refuses and
      nothing changes; otherwise the match leaves its list and is appended
      to the container. */
  lemma AddOneEffect(env: Env, w: World, m: Id, src: Loc, c: Id)
    requires IsContainerAt(w, c) && m in At(w, src) && src != Inside(c)
    ensures IsContainerAt(w, m) || env.full(w, Inside(c)) ==> AddOne(env, w, m, src, c) == w
    ensures !IsContainerAt(w, m) && !env.full(w, Inside(c)) ==>
              var r := AddOne(env, w, m, src, c);
              && Contents(r, c) == Contents(w, c) + [m]
              && At(r, src) == RemoveFirst(At(w, src), m)
              && forall l :: l != src && l != Inside(c) ==> At(r, l) == At(w, l)
  {
    if !IsContainerAt(w, m) && !env.full(w, Inside(c)) {
      var r := Move(w, m, src, Inside(c));
      MoveBetween(w, m, src, Inside(c));
      MoveStable(w, m, src, Inside(c));
      StableKinds(w, r, c);
    }
  }

  /** Once the match is in, the container's mass and damage have both
      risen by the match's mass (the source reports the new damage). */
  lemma AddOneWeighs(env: Env, w: World, m: Id, src: Loc, c: Id)
    requires IsContainerAt(w, c) && m in At(w, src) && src != Inside(c)
    requires !IsContainerAt(w, m) && !env.full(w, Inside(c))
    ensures Mass(AddOne(env, w, m, src, c), c) == Mass(w, c) + BaseMass(w, m)
    ensures Damage(AddOne(env, w, m, src, c), c) == Damage(w, c) + BaseMass(w, m)
  {
    var r := Move(w, m, src, Inside(c));
    assert AddOne(env, w, m, src, c) == r;
    var masses := ContentMasses(w, Contents(w, c));
    MoveIntoMasses(w, m, src, c);
    Container.AppendRaises(w.items[c].mass, w.items[c].damage, masses, BaseMass(w, m));
  }

  /** After a move into a container, its fixed mass and damage are as
      before and its content masses gain the new item's at the end. */
  lemma MoveIntoMasses(w: World, m: Id, src: Loc, c: Id)
    requires IsContainerAt(w, c) && m in At(w, src) && src != Inside(c)
    ensures var r := Move(w, m, src, Inside(c));
            && IsContainerAt(r, c)
            && r.items[c].mass == w.items[c].mass && r.items[c].damage == w.items[c].damage
            && ContentMasses(r, Contents(r, c)) == ContentMasses(w, Contents(w, c)) + [BaseMass(w, m)]
  {
    var r := Move(w, m, src, Inside(c));
    var cs := Contents(w, c);
    MoveStable(w, m, src, Inside(c));
    StableKinds(w, r, c);
    assert Frame(r.items[c]) == Frame(w.items[c]);
    assert Contents(r, c) == cs + [m] by {
      MoveAt(w, m, src, Inside(c), Inside(c));
    }
    ContentMassesStable(w, r, cs + [m]);
    ContentMassesAppend(w, cs, m);
  }

  /** One pass of `take`: a takeable non-enemy joins the inventory exactly
      when the inventory has room, leaving its list; a "consequence" item
      costs its damage in health instead; anything else changes nothing. */
  lemma TakeOneEffect(env: Env, w: World, m: Id, src: Loc)
    requires m in At(w, src) && src != Pack
    ensures var r := TakeOne(env, w, m, src);
            r.inventory == w.inventory + [m] <==>
              PolicyAt(w, m) == Allow && !IsEnemyAt(w, m) && !env.full(w, Pack)
    ensures var r := TakeOne(env, w, m, src);
            r.inventory == w.inventory + [m] ==>
              At(r, src) == RemoveFirst(At(w, src), m) && r.health == w.health
    ensures var r := TakeOne(env, w, m, src);
            r.inventory != w.inventory + [m] ==>
              r.inventory == w.inventory && At(r, src) == At(w, src)
    ensures PolicyAt(w, m) == Consequence ==>
              TakeOne(env, w, m, src) == ChangeHealth(w, -Damage(w, m))
    ensures PolicyAt(w, m) != Consequence ==> TakeOne(env, w, m, src).health == w.health
  {
    if PolicyAt(w, m) == Allow && !IsEnemyAt(w, m) && !env.full(w, Pack) {
      MoveAt(w, m, src, Pack, src);
      MoveAt(w, m, src, Pack, Pack);
    } else {
      assert |TakeOne(env, w, m, src).inventory| == |w.inventory|;
    }
  }

  // ---------------------------------------------------------------------
  // Whole loops.

  /** A move between two different places, seen from the lists. */
  lemma MoveBetween(w: World, x: Id, src: Loc, dst: Loc)
    requires x in At(w, src) && src != dst && ValidLoc(w, dst)
    ensures At(Move(w, x, src, dst), src) == RemoveFirst(At(w, src), x)
    ensures multiset(At(Move(w, x, src, dst), src)) + multiset{x} == multiset(At(w, src))
    ensures At(Move(w, x, src, dst), dst) == At(w, dst) + [x]
    ensures forall l :: l != src && l != dst ==> At(Move(w, x, src, dst), l) == At(w, l)
  {
    MoveAt(w, x, src, dst, src);
    MoveAt(w, x, src, dst, dst);
    RemoveFirstBag(At(w, src), x);
  }

  /** `take` with room to spare and nothing but takeable non-enemies
      appends every match, in order, to the inventory, and renames
      nothing. */
  lemma {:induction false} TakeAll(env: Env, w: World, ms: seq<Id>, src: Loc)
    requires src != Pack
    requires forall x :: x in ms ==> PolicyAt(w, x) == Allow && !IsEnemyAt(w, x)
    requires forall v :: !env.full(v, Pack)
    ensures Take(env, w, ms, src).inventory == w.inventory + ms
    ensures forall y :: NameOf(Take(env, w, ms, src), y) == NameOf(w, y)
    decreases |ms|
  {
    if ms != [] {
      var x := ms[0];
      var w1 := Move(w, x, src, Pack);
      assert TakeOne(env, w, x, src) == w1 by {
        assert PolicyAt(w, x) == Allow && !IsEnemyAt(w, x) && !env.full(w, Pack);
      }
      assert && w1.inventory == w.inventory + [x]
             && forall y :: NameOf(w1, y) == NameOf(w, y) by {
        MoveNamesAll(w, x, src, Pack);
      }
      forall y | y in ms[1..] ensures PolicyAt(w1, y) == Allow && !IsEnemyAt(w1, y) {
        MoveStable(w, x, src, Pack);
        StableKinds(w, w1, y);
      }
      TakeAll(env, w1, ms[1..], src);
      assert ms == [x] + ms[1..];
      AppendAssoc(w.inventory, [x], ms[1..]);
    }
  }

  /** Names survive any move, and a move to the inventory appends there. */
  lemma MoveNamesAll(w: World, x: Id, src: Loc, dst: Loc)
    ensures forall y :: NameOf(Move(w, x, src, dst), y) == NameOf(w, y)
    ensures dst == Pack && src != Pack ==> Move(w, x, src, dst).inventory == w.inventory + [x]
  {
    forall y ensures NameOf(Move(w, x, src, dst), y) == NameOf(w, y) {
      MoveNames(w, x, src, dst, y);
    }
  }

  /** ... and takes exactly those matches out of their list. */
  lemma {:induction false} TakeAllBag(env: Env, w: World, ms: seq<Id>, src: Loc)
    requires src != Pack
    requires multiset(ms) <= multiset(At(w, src))
    requires forall x :: x in ms ==> PolicyAt(w, x) == Allow && !IsEnemyAt(w, x)
    requires forall v :: !env.full(v, Pack)
    ensures multiset(At(Take(env, w, ms, src), src)) + multiset(ms) == multiset(At(w, src))
    decreases |ms|
  {
    if ms != [] {
      var x := ms[0];
      var w1 := Move(w, x, src, Pack);
      assert TakeOne(env, w, x, src) == w1 by {
        assert PolicyAt(w, x) == Allow && !IsEnemyAt(w, x) && !env.full(w, Pack);
      }
      assert multiset(At(w1, src)) + multiset{x} == multiset(At(w, src)) && Stable(w, w1) by {
        Conservation.HeadListed(ms, At(w, src));
        MoveBetween(w, x, src, Pack);
        MoveKeeps(w, x, src, Pack);
      }
      assert multiset(ms[1..]) <= multiset(At(w1, src)) by {
        RestFits(ms, At(w, src), At(w1, src));
      }
      forall y | y in ms[1..] ensures PolicyAt(w1, y) == Allow && !IsEnemyAt(w1, y) {
        StableKinds(w, w1, y);
      }
      TakeAllBag(env, w1, ms[1..], src);
      var r := Take(env, w1, ms[1..], src);
      assert Take(env, w, ms, src) == r;
      BagStep(ms, multiset(At(w, src)), multiset(At(w1, src)), multiset(At(r, src)));
    }
  }

  /** The loop of `container_remove` appends every match, in order, to
      the inventory, and leaves the scene alone. */
  lemma {:induction false} TakeOutList(w: World, ms: seq<Id>, c: Id)
    ensures TakeOut(w, ms, c).inventory == w.inventory + ms
    ensures TakeOut(w, ms, c).scene == w.scene
    decreases |ms|
  {
    if ms != [] {
      var x := ms[0];
      var w1 := Move(w, x, Inside(c), Pack);
      assert w1.inventory == w.inventory + [x] && w1.scene == w.scene;
      TakeOutList(w1, ms[1..], c);
      assert ms == [x] + ms[1..];
    }
  }

  /** ... and takes exactly those out of the container. */
  lemma {:induction false} TakeOutBag(w: World, ms: seq<Id>, c: Id)
    requires multiset(ms) <= multiset(At(w, Inside(c)))
    ensures multiset(At(TakeOut(w, ms, c), Inside(c))) + multiset(ms) == multiset(At(w, Inside(c)))
    decreases |ms|
  {
    if ms != [] {
      var x := ms[0];
      var src := Inside(c);
      var w1 := Move(w, x, src, Pack);
      assert multiset(At(w1, src)) + multiset{x} == multiset(At(w, src)) by {
        Conservation.HeadListed(ms, At(w, src));
        MoveBetween(w, x, src, Pack);
      }
      assert multiset(ms[1..]) <= multiset(At(w1, src)) by {
        RestFits(ms, At(w, src), At(w1, src));
      }
      TakeOutBag(w1, ms[1..], c);
      var r := TakeOut(w1, ms[1..], c);
      assert TakeOut(w, ms, c) == r;
      BagStep(ms, multiset(At(w, src)), multiset(At(w1, src)), multiset(At(r, src)));
    }
  }

  /** `container_remove` moves every match out of the container into the
      inventory, with no capacity check. */
  lemma ContainerRemoveEffect(env: Env, w: World, args: string, c: Id)
    requires args != ""
    ensures var ms := Match(env, w, args, At(w, Inside(c)));
            var r := ContainerRemove(env, w, args, Some(c));
            && r.inventory == w.inventory + ms
            && multiset(At(r, Inside(c))) + multiset(ms) == multiset(At(w, Inside(c)))
            && r.scene == w.scene
  {
    var ms := Match(env, w, args, At(w, Inside(c)));
    SelectionBag(ms, At(w, Inside(c)));
    TakeOutList(w, ms, c);
    TakeOutBag(w, ms, c);
  }

  /** The first loop of `drop` appends every match, in order, to the
      scene. */
  lemma {:induction false} DropEachList(w: World, ms: seq<Id>)
    ensures DropEach(w, ms).scene == w.scene + ms
    decreases |ms|
  {
    if ms != [] {
      var x := ms[0];
      var w1 := Move(w, x, Pack, Scene);
      assert w1.scene == w.scene + [x];
      DropEachList(w1, ms[1..]);
      assert ms == [x] + ms[1..];
    }
  }

  /** ... and takes exactly those out of the inventory. */
  lemma {:induction false} DropEachBag(w: World, ms: seq<Id>)
    requires multiset(ms) <= multiset(w.inventory)
    ensures multiset(DropEach(w, ms).inventory) + multiset(ms) == multiset(w.inventory)
    decreases |ms|
  {
    if ms != [] {
      var x := ms[0];
      var w1 := Move(w, x, Pack, Scene);
      assert multiset(w1.inventory) + multiset{x} == multiset(w.inventory) by {
        Conservation.HeadListed(ms, At(w, Pack));
        MoveBetween(w, x, Pack, Scene);
      }
      assert multiset(ms[1..]) <= multiset(w1.inventory) by {
        RestFits(ms, w.inventory, w1.inventory);
      }
      DropEachBag(w1, ms[1..]);
      var r := DropEach(w1, ms[1..]);
      assert DropEach(w, ms) == r;
      BagStep(ms, multiset(w.inventory), multiset(w1.inventory), multiset(r.inventory));
    }
  }

  /** Would `take` move this match into the inventory? */
  predicate Moves(env: Env, w: World, m: Id)
  {
    PolicyAt(w, m) == Allow && !IsEnemyAt(w, m) && !env.full(w, Pack)
  }

  /** The matches `take` actually moves into the inventory, in order:
      those that are takeable, not enemies, and find room when reached. */
  function Taken(env: Env, w: World, ms: seq<Id>, src: Loc): seq<Id>
    decreases |ms|
  {
    if ms == [] then []
    else (if Moves(env, w, ms[0]) then [ms[0]] else []) + Taken(env, TakeOne(env, w, ms[0], src), ms[1..], src)
  }

  /** One pass of `take`, seen from the inventory and the source list. */
  lemma TakeOneStep(env: Env, w: World, ms: seq<Id>, src: Loc)
    requires ms != [] && src != Pack && multiset(ms) <= multiset(At(w, src))
    ensures var w1 := TakeOne(env, w, ms[0], src);
            var t := if Moves(env, w, ms[0]) then [ms[0]] else [];
            && w1.inventory == w.inventory + t
            && multiset(At(w1, src)) + multiset(t) == multiset(At(w, src))
            && multiset(ms[1..]) <= multiset(At(w1, src))
  {
    var m := ms[0];
    var w1 := TakeOne(env, w, m, src);
    Conservation.HeadListed(ms, At(w, src));
    TakeOneEffect(env, w, m, src);
    if Moves(env, w, m) {
      RemoveFirstBag(At(w, src), m);
      RestFits(ms, At(w, src), At(w1, src));
    } else {
      Conservation.TailFits(ms, At(w, src));
    }
  }

  /** `take` renames nothing. */
  lemma {:induction false} TakeNames(env: Env, w: World, ms: seq<Id>, src: Loc)
    ensures forall y :: NameOf(Take(env, w, ms, src), y) == NameOf(w, y)
    decreases |ms|
  {
    if ms != [] {
      var m := ms[0];
      var w1 := TakeOne(env, w, m, src);
      if Moves(env, w, m) {
        assert w1 == Move(w, m, src, Pack);
        MoveNamesAll(w, m, src, Pack);
      } else {
        assert w1.items == w.items;
      }
      TakeNames(env, w1, ms[1..], src);
    }
  }

  /** `take` appends exactly `Taken` to the inventory ... */
  lemma {:induction false} TakeTaken(env: Env, w: World, ms: seq<Id>, src: Loc)
    requires src != Pack && multiset(ms) <= multiset(At(w, src))
    ensures Take(env, w, ms, src).inventory == w.inventory + Taken(env, w, ms, src)
    decreases |ms|
  {
    if ms != [] {
      var w1 := TakeOne(env, w, ms[0], src);
      var t := if Moves(env, w, ms[0]) then [ms[0]] else [];
      TakeOneStep(env, w, ms, src);
      TakeTaken(env, w1, ms[1..], src);
      var rest := Taken(env, w1, ms[1..], src);
      assert Take(env, w, ms, src) == Take(env, w1, ms[1..], src);
      assert Taken(env, w, ms, src) == t + rest;
      AppendAssoc(w.inventory, t, rest);
    }
  }

  /** ... and takes exactly those out of its source list. */
  lemma {:induction false} TakeTakenBag(env: Env, w: World, ms: seq<Id>, src: Loc)
    requires src != Pack && multiset(ms) <= multiset(At(w, src))
    ensures multiset(At(Take(env, w, ms, src), src)) + multiset(Taken(env, w, ms, src)) == multiset(At(w, src))
    decreases |ms|
  {
    if ms != [] {
      var w1 := TakeOne(env, w, ms[0], src);
      var t := if Moves(env, w, ms[0]) then [ms[0]] else [];
      TakeOneStep(env, w, ms, src);
      TakeTakenBag(env, w1, ms[1..], src);
      var rest := Taken(env, w1, ms[1..], src);
      assert Take(env, w, ms, src) == Take(env, w1, ms[1..], src);
      assert Taken(env, w, ms, src) == t + rest;
      assert multiset(t + rest) == multiset(t) + multiset(rest);
    }
  }

  /** `Taken` picks from the matches, so a duplicate-free match list gives
      a duplicate-free `Taken`. */
  lemma {:induction false} TakenWithin(env: Env, w: World, ms: seq<Id>, src: Loc)
    requires NoDup(ms)
    ensures NoDup(Taken(env, w, ms, src))
    ensures forall x :: x in Taken(env, w, ms, src) ==> x in ms
    decreases |ms|
  {
    if ms != [] {
      var w1 := TakeOne(env, w, ms[0], src);
      var t := if Moves(env, w, ms[0]) then [ms[0]] else [];
      assert NoDup(ms[1..]);
      TakenWithin(env, w1, ms[1..], src);
      var rest := Taken(env, w1, ms[1..], src);
      assert Taken(env, w, ms, src) == t + rest;
      assert ms[0] !in ms[1..];
      assert ms[0] !in rest;
    }
  }

  /** Picking something up and dropping it again: from an empty inventory,
      when the query matches items in the scene, `drop` with the same query
      puts back everything `pick_up` took, whatever the items' policies and
      however full the inventory, leaving the inventory empty and the scene
      holding the same items as before. */
  lemma PickUpThenDrop(env: Env, w: World, args: string)
    requires args != "" && w.inventory == []
    requires Match(env, w, args, w.scene) != []
    ensures Drop(env, PickUp(env, w, args), args).inventory == []
    ensures multiset(Drop(env, PickUp(env, w, args), args).scene) == multiset(w.scene)
  {
    var ms := Match(env, w, args, w.scene);
    var w1 := PickUp(env, w, args);
    var t := Taken(env, w, ms, Scene);
    PickUpDirect(env, w, args);
    SelectionBag(ms, w.scene);
    TakeTaken(env, w, ms, Scene);
    TakeTakenBag(env, w, ms, Scene);
    TakenWithin(env, w, ms, Scene);
    assert w1.inventory == t;
    if t == [] {
      DropNothing(env, w1, args);
    } else {
      assert forall x :: x in t ==> Matcher.Matches(env.similar, args, NameOf(w1, x)) by {
        TakeNames(env, w, ms, Scene);
      }
      DropTaken(env, w1, args);
    }
  }

  /** With scene matches, `pick_up` is `take` over them from the scene. */
  lemma PickUpDirect(env: Env, w: World, args: string)
    requires args != "" && Match(env, w, args, w.scene) != []
    ensures PickUp(env, w, args) == Take(env, w, Match(env, w, args, w.scene), Scene)
  {
  }

  /** `drop` from an empty inventory changes nothing. */
  lemma DropNothing(env: Env, w: World, args: string)
    requires w.inventory == []
    ensures Drop(env, w, args) == w
  {
    assert Match(env, w, args, []) == [];
    assert GetContainers(w, []) == [];
  }

  /** `drop` with a query matching every item of a duplicate-free, non-empty
      inventory empties the inventory into the end of the scene. */
  lemma DropTaken(env: Env, w: World, args: string)
    requires args != "" && w.inventory != [] && NoDup(w.inventory)
    requires forall x :: x in w.inventory ==> Matcher.Matches(env.similar, args, NameOf(w, x))
    ensures Drop(env, w, args).inventory == []
    ensures multiset(Drop(env, w, args).scene) == multiset(w.scene) + multiset(w.inventory)
  {
    var t := w.inventory;
    assert Match(env, w, args, t) == t by {
      Matcher.GetMatchAll(env.similar, args, t, x => NameOf(w, x));
    }
    var w2 := Drop(env, w, args);
    assert w2 == DropEach(w, t);
    DropEachList(w, t);
    DropEachBag(w, t);
    assert |multiset(w2.inventory)| == 0;
  }

  /** When every scene match can be taken and the inventory never fills,
      `pick_up` puts exactly the scene matches in the inventory. */
  lemma PickUpTakesEveryMatch(env: Env, w: World, args: string)
    requires args != "" && w.inventory == []
    requires Match(env, w, args, w.scene) != []
    requires forall x :: x in Match(env, w, args, w.scene) ==> PolicyAt(w, x) == Allow && !IsEnemyAt(w, x)
    requires forall v :: !env.full(v, Pack)
    ensures PickUp(env, w, args).inventory == Match(env, w, args, w.scene)
  {
    PickUpDirect(env, w, args);
    TakeAll(env, w, Match(env, w, args, w.scene), Scene);
  }
}
