/** Aggregation arithmetic of `Container` (items/container.py). The masses
    of the contents are passed in as a list, one entry per content item, in
    contents order; the world supplies them. */
module Container {
  import opened Items

  /** Sum of a list of integers, folded from the front. */
  function Sum(xs: seq<int>): int
  {
    if xs == [] then 0 else xs[0] + Sum(xs[1..])
  }

  lemma {:induction false} SumAppend(xs: seq<int>, m: int)
    ensures Sum(xs + [m]) == Sum(xs) + m
  {
    if xs != [] {
      assert (xs + [m])[1..] == xs[1..] + [m];
      SumAppend(xs[1..], m);
    }
  }

  lemma {:induction false} SumNonNegative(xs: seq<int>)
    ensures (forall i :: 0 <= i < |xs| ==> xs[i] >= 0) ==> Sum(xs) >= 0
  {
    if xs != [] {
      SumNonNegative(xs[1..]);
      assert forall i :: 1 <= i < |xs| ==> xs[1..][i - 1] == xs[i];
    }
  }

  /** `get_mass`: the container's own mass plus the mass of every content. */
  function GetMass(base: int, masses: seq<int>): (r: int)
    ensures masses == [] ==> r == base
    ensures (forall i :: 0 <= i < |masses| ==> masses[i] >= 0) ==> r >= base
  {
    SumNonNegative(masses);
    base + Sum(masses)
  }

  /** `get_damage`: the container's own damage plus the MASS (not the
      damage) of every content, as the source writes it. */
  function GetDamage(baseDamage: int, masses: seq<int>): (r: int)
    ensures masses == [] ==> r == baseDamage
    ensures forall base :: r - baseDamage == GetMass(base, masses) - base
  {
    baseDamage + Sum(masses)
  }

  /** `get_self_mass`: what the contents add to the container's own mass,
      floored at zero. */
  function GetSelfMass(base: int, masses: seq<int>): (r: int)
    ensures r >= 0
    ensures r >= GetMass(base, masses) - base
    ensures r == 0 || r == GetMass(base, masses) - base
  {
    var extra := GetMass(base, masses) - base;
    if extra > 0 then extra else 0
  }

  /** The `for o in self.contents: n += o.get_mass()` loop of `get_mass`
      and `get_damage`, accumulating from the own value. */
  method Accumulate(start: int, masses: seq<int>) returns (n: int)
    ensures n == start + Sum(masses)
  {
    n := start;
    var i := 0;
    while i < |masses|
      invariant 0 <= i <= |masses|
      invariant n == start + Sum(masses[..i])
    {
      assert masses[..i + 1] == masses[..i] + [masses[i]];
      SumAppend(masses[..i], masses[i]);
      n := n + masses[i];
      i := i + 1;
    }
    assert masses[..i] == masses;
  }

  /** With no contents the aggregates are the container's own values and
      the self mass is zero. */
  lemma EmptyContainer(base: int, baseDamage: int)
    ensures GetMass(base, []) == base
    ensures GetDamage(baseDamage, []) == baseDamage
    ensures GetSelfMass(base, []) == 0
  {
  }

  /** Putting an item of mass `m` into the container raises both its mass
      and its damage by exactly `m`. */
  lemma AppendRaises(base: int, baseDamage: int, masses: seq<int>, m: int)
    ensures GetMass(base, masses + [m]) == GetMass(base, masses) + m
    ensures GetDamage(baseDamage, masses + [m]) == GetDamage(baseDamage, masses) + m
  {
    SumAppend(masses, m);
  }

  /** Taking out the last-added item of mass `m` lowers both by `m`. */
  lemma RemoveLowers(base: int, baseDamage: int, masses: seq<int>)
    requires |masses| > 0
    ensures GetMass(base, masses[..|masses| - 1]) == GetMass(base, masses) - masses[|masses| - 1]
    ensures GetDamage(baseDamage, masses[..|masses| - 1]) == GetDamage(baseDamage, masses) - masses[|masses| - 1]
  {
    assert masses == masses[..|masses| - 1] + [masses[|masses| - 1]];
    SumAppend(masses[..|masses| - 1], masses[|masses| - 1]);
  }

  /** With contents of non-negative mass the container weighs at least its
      own mass, and the self mass is exactly what the contents add. */
  lemma MassAtLeastBase(base: int, masses: seq<int>)
    requires forall i :: 0 <= i < |masses| ==> masses[i] >= 0
    ensures GetMass(base, masses) >= base
    ensures GetSelfMass(base, masses) == Sum(masses)
  {
    SumNonNegative(masses);
  }

  /** `Container(name, take, mass, damage, max_mass, contents)`. */
  function NewContainer(name: string, policy: Policy, mass: int, damage: int,
                        maxMass: int, contents: seq<Id>): Item
  {
    Item(name, policy, mass, damage, Container(maxMass, contents))
  }

  /** `get_contents`. */
  function GetContents(c: Item): seq<Id>
    requires c.kind.Container?
  {
    c.kind.contents
  }

  /** `get_max_mass`. */
  function GetMaxMass(c: Item): int
    requires c.kind.Container?
  {
    c.kind.maxMass
  }

  /** The accessors give back exactly what the constructor was given. */
  lemma AccessorsReturnConstructorValues(name: string, policy: Policy, mass: int, damage: int,
                                         maxMass: int, contents: seq<Id>)
    ensures GetContents(NewContainer(name, policy, mass, damage, maxMass, contents)) == contents
    ensures GetMaxMass(NewContainer(name, policy, mass, damage, maxMass, contents)) == maxMass
  {
  }
}
