/** The game state the player's actions work on: every object by id, the
    current scene's item list, the player's inventory list, the player's
    health and the combat flag. Container contents and enemy inventories
    live inside the objects themselves, as in the source. */
module Worlds {
  import opened Items
  import opened Seqs
  import Container

  datatype World = World(
    items: map<Id, Item>,
    scene: seq<Id>,
    inventory: seq<Id>,
    health: int,
    maxHealth: int,
    combat: bool)

  /** The places an item can be listed: the scene, the player's inventory,
      or the list held by a container or an enemy. */
  datatype Loc = Scene | Pack | Inside(holder: Id)

  predicate HolderAt(w: World, h: Id)
  {
    h in w.items && Holds(w.items[h])
  }

  predicate ValidLoc(w: World, l: Loc)
  {
    l.Inside? ==> HolderAt(w, l.holder)
  }

  /** The list at a place. */
  function At(w: World, l: Loc): seq<Id>
  {
    match l
    case Scene => w.scene
    case Pack => w.inventory
    case Inside(h) => if h in w.items then Held(w.items[h]) else []
  }

  /** Replace the list at a place; nothing else changes. */
  function Put(w: World, l: Loc, s: seq<Id>): (r: World)
    ensures ValidLoc(w, l) ==> At(r, l) == s
    ensures forall l' :: l' != l ==> At(r, l') == At(w, l')
    ensures r.health == w.health && r.maxHealth == w.maxHealth && r.combat == w.combat
    ensures r.items.Keys == w.items.Keys
    ensures forall k :: k in w.items ==> r.items[k] == WithHeld(w.items[k], Held(r.items[k]))
    ensures forall l' :: ValidLoc(r, l') == ValidLoc(w, l')
  {
    match l
    case Scene => w.(scene := s)
    case Pack => w.(inventory := s)
    case Inside(h) =>
      if h in w.items then w.(items := w.items[h := WithHeld(w.items[h], s)]) else w
  }

  /** `list.remove(x)` on the list at `l`. */
  function Remove(w: World, l: Loc, x: Id): World
  {
    Put(w, l, RemoveFirst(At(w, l), x))
  }

  /** `list.append(x)` on the list at `l`. */
  function Append(w: World, l: Loc, x: Id): World
  {
    Put(w, l, At(w, l) + [x])
  }

  /** Take `x` out of `src` and append it to `dst`. */
  function Move(w: World, x: Id, src: Loc, dst: Loc): World
  {
    Append(Remove(w, src, x), dst, x)
  }

  // ---------------------------------------------------------------------
  // Where everything is: the bag of all listed ids.

  /** All ids held by containers and enemies, counted with multiplicity. */
  ghost function HeldBag(m: map<Id, Item>): multiset<Id>
    decreases |m|
  {
    if m == map[] then multiset{}
    else
      var k :| k in m;
      multiset(Held(m[k])) + HeldBag(m - {k})
  }

  /** Every listed id, wherever it is listed. */
  ghost function Total(w: World): multiset<Id>
  {
    multiset(w.scene) + multiset(w.inventory) + HeldBag(w.items)
  }

  /** Any key can be taken out first. */
  lemma {:induction false} HeldBagSplit(m: map<Id, Item>, k: Id)
    requires k in m
    ensures HeldBag(m) == multiset(Held(m[k])) + HeldBag(m - {k})
    decreases |m|
  {
    var j :| j in m && HeldBag(m) == multiset(Held(m[j])) + HeldBag(m - {j});
    if j != k {
      var mj := m - {j};
      var mk := m - {k};
      HeldBagSplit(mj, k);
      HeldBagSplit(mk, j);
      assert mj - {k} == mk - {j};
    }
  }

  lemma HeldBagUpdate(m: map<Id, Item>, k: Id, v: Item)
    requires k in m
    ensures HeldBag(m[k := v]) + multiset(Held(m[k])) == HeldBag(m) + multiset(Held(v))
  {
    HeldBagSplit(m, k);
    HeldBagSplit(m[k := v], k);
    assert m[k := v] - {k} == m - {k};
  }

  /** Replacing the list at a valid place swaps its bag in the total. */
  lemma PutTotal(w: World, l: Loc, s: seq<Id>)
    requires ValidLoc(w, l)
    ensures Total(Put(w, l, s)) + multiset(At(w, l)) == Total(w) + multiset(s)
  {
    var r := Put(w, l, s);
    var sc, inv, hb := multiset(w.scene), multiset(w.inventory), HeldBag(w.items);
    assert Total(w) == sc + inv + hb;
    match l
    case Scene =>
      assert Total(r) == multiset(s) + inv + hb;
    case Pack =>
      assert Total(r) == sc + multiset(s) + hb;
    case Inside(h) =>
      var v := WithHeld(w.items[h], s);
      assert r == w.(items := w.items[h := v]);
      assert Held(v) == s;
      HeldBagUpdate(w.items, h, v);
      assert At(w, l) == Held(w.items[h]);
      assert Total(r) == sc + inv + HeldBag(w.items[h := v]);
      assert Total(r) + multiset(At(w, l)) == sc + inv + (HeldBag(w.items[h := v]) + multiset(Held(w.items[h])));
  }

  lemma Cancel(a: multiset<Id>, b: multiset<Id>, c: multiset<Id>)
    requires a + c == b + c
    ensures a == b
  {
    forall y ensures a[y] == b[y] {
      assert (a + c)[y] == (b + c)[y];
    }
  }

  /** Removing a listed item takes exactly that one id out of the total. */
  lemma RemoveTotal(w: World, x: Id, src: Loc)
    requires x in At(w, src)
    ensures Total(Remove(w, src, x)) + multiset{x} == Total(w)
  {
    assert ValidLoc(w, src);
    var s0 := At(w, src);
    var s1 := RemoveFirst(s0, x);
    RemoveFirstBag(s0, x);
    PutTotal(w, src, s1);
    var t1 := Total(Remove(w, src, x));
    assert t1 + multiset(s0) == Total(w) + multiset(s1);
    assert t1 + multiset{x} + multiset(s1) == Total(w) + multiset(s1);
    Cancel(t1 + multiset{x}, Total(w), multiset(s1));
  }

  /** Appending at a valid place adds exactly that one id to the total. */
  lemma AppendTotal(w: World, x: Id, dst: Loc)
    requires ValidLoc(w, dst)
    ensures Total(Append(w, dst, x)) == Total(w) + multiset{x}
  {
    var s0 := At(w, dst);
    PutTotal(w, dst, s0 + [x]);
    var t1 := Total(Append(w, dst, x));
    assert multiset(s0 + [x]) == multiset(s0) + multiset{x};
    assert t1 + multiset(s0) == Total(w) + multiset{x} + multiset(s0);
    Cancel(t1, Total(w) + multiset{x}, multiset(s0));
  }

  /** Moving a listed item to a valid place neither duplicates nor loses
      anything. */
  lemma MoveTotal(w: World, x: Id, src: Loc, dst: Loc)
    requires x in At(w, src) && ValidLoc(w, dst)
    ensures Total(Move(w, x, src, dst)) == Total(w)
  {
    var w1 := Remove(w, src, x);
    RemoveTotal(w, x, src);
    AppendTotal(w1, x, dst);
  }

  /** After a move, the bag at every place changes only by `x` leaving
      `src` and arriving at `dst`. */
  lemma MoveAt(w: World, x: Id, src: Loc, dst: Loc, l: Loc)
    requires x in At(w, src) && ValidLoc(w, dst)
    ensures l != src && l != dst ==> At(Move(w, x, src, dst), l) == At(w, l)
    ensures l == src && l != dst ==> At(Move(w, x, src, dst), l) == RemoveFirst(At(w, l), x)
    ensures l == dst && l != src ==> At(Move(w, x, src, dst), l) == At(w, l) + [x]
    ensures l == src && l == dst ==> multiset(At(Move(w, x, src, dst), l)) == multiset(At(w, l))
  {
    if l == src && l == dst {
      RemoveFirstBag(At(w, src), x);
    }
  }

  // ---------------------------------------------------------------------
  // Kinds of item, looked up by id.

  predicate IsContainerAt(w: World, x: Id)
  {
    x in w.items && w.items[x].kind.Container?
  }

  predicate IsEnemyAt(w: World, x: Id)
  {
    x in w.items && w.items[x].kind.Enemy?
  }

  predicate IsFoodAt(w: World, x: Id)
  {
    x in w.items && w.items[x].kind.Food?
  }

  predicate IsReadableAt(w: World, x: Id)
  {
    x in w.items && w.items[x].kind.Readable?
  }

  predicate AliveAt(w: World, x: Id)
  {
    x in w.items && Alive(w.items[x])
  }

  function NameOf(w: World, x: Id): string
  {
    if x in w.items then w.items[x].name else ""
  }

  /** The policy of an id the world does not know is read as a refusal. */
  function PolicyAt(w: World, x: Id): Policy
  {
    if x in w.items then w.items[x].policy else Deny
  }

  function Contents(w: World, c: Id): seq<Id>
  {
    if IsContainerAt(w, c) then w.items[c].kind.contents else []
  }

  // ---------------------------------------------------------------------
  // Invariants.

  /** No container holds a container: `add_item` refuses to nest them. */
  predicate Flat(w: World)
  {
    forall c, y :: c in w.items && IsContainerAt(w, c) && y in Contents(w, c) ==> !IsContainerAt(w, y)
  }

  /** What an action may change about the objects: only enemy names and
      health and the held lists, never which objects exist or what kind,
      mass, damage, policy, saturation or text they have. */
  predicate Stable(w: World, w': World)
  {
    && w'.items.Keys == w.items.Keys
    && (forall k :: k in w.items ==> Frame(w'.items[k]) == Frame(w.items[k]))
    && w'.maxHealth == w.maxHealth
  }

  lemma PutStable(w: World, l: Loc, s: seq<Id>)
    ensures Stable(w, Put(w, l, s))
  {
  }

  /** A move keeps the objects' fixed parts whether or not the item is
      listed at the source. */
  lemma MoveStable(w: World, x: Id, src: Loc, dst: Loc)
    ensures Stable(w, Move(w, x, src, dst))
  {
    PutStable(w, src, RemoveFirst(At(w, src), x));
    PutStable(Remove(w, src, x), dst, At(Remove(w, src, x), dst) + [x]);
  }

  /** A container in a flat world never contains itself. */
  lemma NeverContainsItself(w: World, c: Id)
    requires Flat(w) && IsContainerAt(w, c)
    ensures c !in Contents(w, c)
  {
  }

  // ---------------------------------------------------------------------
  // Mass and damage as the player sees them.

  function BaseMass(w: World, x: Id): int
  {
    if x in w.items then w.items[x].mass else 0
  }

  /** The masses of a list of contents, in order. In a flat world no
      content is a container, so each content's `get_mass()` is its own
      mass. */
  function ContentMasses(w: World, cs: seq<Id>): (r: seq<int>)
    ensures |r| == |cs|
    ensures forall i :: 0 <= i < |cs| ==> r[i] == BaseMass(w, cs[i])
  {
    seq(|cs|, i requires 0 <= i < |cs| => BaseMass(w, cs[i]))
  }

  /** `get_mass()` of any object. */
  function Mass(w: World, x: Id): (r: int)
    ensures IsContainerAt(w, x) && Contents(w, x) == [] ==> r == BaseMass(w, x)
    ensures IsContainerAt(w, x) && (forall y :: y in Contents(w, x) ==> BaseMass(w, y) >= 0) ==> r >= BaseMass(w, x)
    ensures !IsContainerAt(w, x) ==> r == BaseMass(w, x)
  {
    if IsContainerAt(w, x) then Container.GetMass(w.items[x].mass, ContentMasses(w, Contents(w, x)))
    else BaseMass(w, x)
  }

  /** `get_damage()` of any object. */
  function Damage(w: World, x: Id): (r: int)
    ensures IsContainerAt(w, x) ==> r - w.items[x].damage == Mass(w, x) - BaseMass(w, x)
    ensures x !in w.items ==> r == 0
  {
    if IsContainerAt(w, x) then Container.GetDamage(w.items[x].damage, ContentMasses(w, Contents(w, x)))
    else if x in w.items then w.items[x].damage
    else 0
  }

  /** In a flat world the list the model sums is exactly what the source's
      recursive `get_mass()` calls return for each content. */
  lemma ContentMassesAreMasses(w: World, c: Id)
    requires Flat(w) && IsContainerAt(w, c)
    ensures forall i :: 0 <= i < |Contents(w, c)| ==>
              ContentMasses(w, Contents(w, c))[i] == Mass(w, Contents(w, c)[i])
  {
  }

  // ---------------------------------------------------------------------
  // What every relocating step keeps.

  /** Nothing listed is lost or duplicated, no object changes its fixed
      parts, and a flat world stays flat. */
  ghost predicate Keeps(w: World, w': World)
  {
    Total(w') == Total(w) && Stable(w, w') && (Flat(w) ==> Flat(w'))
  }

  lemma KeepsTrans(a: World, b: World, c: World)
    requires Keeps(a, b) && Keeps(b, c)
    ensures Keeps(a, c)
  {
  }

  lemma KeepsRefl(w: World)
    ensures Keeps(w, w)
  {
  }

  /** Kind tests and fixed values read the same in stable worlds. */
  lemma StableKinds(w: World, w': World, x: Id)
    requires Stable(w, w')
    ensures PolicyAt(w', x) == PolicyAt(w, x)
    ensures IsContainerAt(w', x) == IsContainerAt(w, x)
    ensures IsEnemyAt(w', x) == IsEnemyAt(w, x)
    ensures IsFoodAt(w', x) == IsFoodAt(w, x)
    ensures IsReadableAt(w', x) == IsReadableAt(w, x)
    ensures BaseMass(w', x) == BaseMass(w, x)
    ensures HolderAt(w', x) == HolderAt(w, x)
    ensures IsFoodAt(w, x) ==> w'.items[x].kind.saturation == w.items[x].kind.saturation
    ensures IsReadableAt(w, x) ==> w'.items[x].kind.text == w.items[x].kind.text
    ensures x in w.items && !w.items[x].kind.Enemy? ==> NameOf(w', x) == NameOf(w, x)
    ensures x in w.items && !IsEnemyAt(w, x) ==> w'.items[x].damage == w.items[x].damage
  {
    if x in w.items {
      assert Frame(w'.items[x]) == Frame(w.items[x]);
    }
  }

  /** Replacing a list keeps the objects' names and the fixed parts. */
  lemma PutNames(w: World, l: Loc, s: seq<Id>, x: Id)
    ensures NameOf(Put(w, l, s), x) == NameOf(w, x)
    ensures AliveAt(Put(w, l, s), x) == AliveAt(w, x)
  {
  }

  /** Replacing a list that is not a container's, or filling a container
      with non-containers, keeps the world flat. */
  lemma PutFlat(w: World, l: Loc, s: seq<Id>)
    requires Flat(w)
    requires l.Inside? && IsContainerAt(w, l.holder) ==> forall y :: y in s ==> !IsContainerAt(w, y)
    ensures Flat(Put(w, l, s))
  {
    var r := Put(w, l, s);
    forall c, y | c in r.items && IsContainerAt(r, c) && y in Contents(r, c)
      ensures !IsContainerAt(r, y)
    {
      StableKinds(w, r, c);
      StableKinds(w, r, y);
      if l == Inside(c) {
        assert At(r, Inside(c)) == s;
      } else {
        assert At(r, Inside(c)) == At(w, Inside(c));
      }
    }
  }

  lemma MoveNames(w: World, x: Id, src: Loc, dst: Loc, y: Id)
    ensures NameOf(Move(w, x, src, dst), y) == NameOf(w, y)
    ensures AliveAt(Move(w, x, src, dst), y) == AliveAt(w, y)
  {
    var w1 := Remove(w, src, x);
    PutNames(w, src, RemoveFirst(At(w, src), x), y);
    PutNames(w1, dst, At(w1, dst) + [x], y);
  }

  lemma RemoveFlat(w: World, x: Id, src: Loc)
    requires Flat(w)
    ensures Flat(Remove(w, src, x))
  {
    var s := RemoveFirst(At(w, src), x);
    if src.Inside? && IsContainerAt(w, src.holder) {
      assert At(w, src) == Contents(w, src.holder);
      forall y | y in s ensures !IsContainerAt(w, y) {
        assert y in Contents(w, src.holder);
      }
    }
    PutFlat(w, src, s);
  }

  lemma AppendFlat(w: World, x: Id, dst: Loc)
    requires Flat(w)
    requires dst.Inside? && IsContainerAt(w, dst.holder) ==> !IsContainerAt(w, x)
    ensures Flat(Append(w, dst, x))
  {
    var s := At(w, dst) + [x];
    if dst.Inside? && IsContainerAt(w, dst.holder) {
      var c := dst.holder;
      assert At(w, dst) == Contents(w, c);
      forall y | y in s ensures !IsContainerAt(w, y) {
        if y != x {
          assert y in Contents(w, c);
        }
      }
    }
    PutFlat(w, dst, s);
  }

  lemma MoveFlat(w: World, x: Id, src: Loc, dst: Loc)
    requires Flat(w)
    requires dst.Inside? && IsContainerAt(w, dst.holder) ==> !IsContainerAt(w, x)
    ensures Flat(Move(w, x, src, dst))
  {
    var w1 := Remove(w, src, x);
    RemoveFlat(w, x, src);
    PutStable(w, src, RemoveFirst(At(w, src), x));
    StableKinds(w, w1, x);
    if dst.Inside? {
      StableKinds(w, w1, dst.holder);
    }
    AppendFlat(w1, x, dst);
  }

  /** A move keeps everything `Keeps` asks for, as long as it does not put
      a container into a container. */
  lemma MoveKeeps(w: World, x: Id, src: Loc, dst: Loc)
    requires x in At(w, src) && ValidLoc(w, dst)
    requires dst.Inside? && IsContainerAt(w, dst.holder) ==> !IsContainerAt(w, x)
    ensures Keeps(w, Move(w, x, src, dst))
    ensures forall y :: NameOf(Move(w, x, src, dst), y) == NameOf(w, y)
    ensures forall y :: AliveAt(Move(w, x, src, dst), y) == AliveAt(w, y)
  {
    MoveTotal(w, x, src, dst);
    var w1 := Remove(w, src, x);
    PutStable(w, src, RemoveFirst(At(w, src), x));
    PutStable(w1, dst, At(w1, dst) + [x]);
    forall y ensures NameOf(Move(w, x, src, dst), y) == NameOf(w, y) && AliveAt(Move(w, x, src, dst), y) == AliveAt(w, y) {
      MoveNames(w, x, src, dst, y);
    }
    if Flat(w) {
      MoveFlat(w, x, src, dst);
    }
  }

  /** After a move out of `src`, what is still to be moved from `src` is
      still there. */
  lemma MoveLeavesRest(w: World, x: Id, rest: seq<Id>, src: Loc, dst: Loc)
    requires x in At(w, src) && ValidLoc(w, dst)
    requires multiset([x] + rest) <= multiset(At(w, src))
    ensures multiset(rest) <= multiset(At(Move(w, x, src, dst), src))
  {
    MoveAt(w, x, src, dst, src);
    var before := multiset(At(w, src));
    var after := multiset(At(Move(w, x, src, dst), src));
    if src != dst {
      RemoveFirstBag(At(w, src), x);
      assert after + multiset{x} == before;
      forall y ensures multiset(rest)[y] <= after[y] {
        assert multiset([x] + rest)[y] == multiset{x}[y] + multiset(rest)[y];
      }
    } else {
      assert multiset(rest) <= multiset([x] + rest);
    }
  }
}
