/** Concrete situations from the game: a query picking a two-word name,
    and eating a loaf of bread. */
module Scenarios {
  import opened Items
  import opened Seqs
  import opened Worlds
  import opened Player
  import Matcher

  lemma LowerRustySword()
    ensures Matcher.Lower("Rusty Sword") == "rusty" + [' '] + "sword"
  {
    assert "Rusty Sword" == "Rusty" + " " + "Sword";
    Matcher.LowerAppend("Rusty" + " ", "Sword");
    Matcher.LowerAppend("Rusty", " ");
    assert Matcher.Lower("Rusty") == "rusty";
    assert Matcher.Lower(" ") == " ";
    assert Matcher.Lower("Sword") == "sword";
  }

  /** "sword" picks "Rusty Sword" under any ratio that rates a word equal
      to itself above the threshold. */
  lemma SwordMatchesRustySword(sim: (string, string) -> bool)
    requires Matcher.Reflexive(sim)
    ensures Matcher.Matches(sim, "sword", "Rusty Sword")
  {
    LowerRustySword();
    Matcher.WordPicksSecondWord(sim, "rusty", "sword", "Rusty Sword");
  }

  /** A loaf of bread: saturation 5, takeable. */
  function Bread(): Item
  {
    Item("Bread", Allow, 1, 0, Food(5))
  }

  lemma LowerBread()
    ensures Matcher.Lower("Bread") == "bread"
  {
  }

  /** A player at 50 of 100 health carrying one loaf of bread. */
  function Hungry(scene: seq<Id>): World
  {
    World(map[1 := Bread()], scene, [1], 50, 100, false)
  }

  lemma BreadMatches(env: Env, scene: seq<Id>)
    requires Matcher.Reflexive(env.similar)
    ensures Match(env, Hungry(scene), "bread", [1]) == [1]
  {
    var w := Hungry(scene);
    LowerBread();
    assert NameOf(w, 1) == "Bread";
    Matcher.WordPicksItself(env.similar, "bread", "Bread");
    Matcher.GetMatchAll(env.similar, "bread", [1], x => NameOf(w, x));
  }

  /** Eating the bread ends at 55 health with an empty inventory, and
      nothing else changes. */
  lemma EatBread(env: Env, scene: seq<Id>)
    requires Matcher.Reflexive(env.similar)
    ensures Eat(env, Hungry(scene), "bread") == Hungry(scene).(health := 55, inventory := [])
  {
    var w := Hungry(scene);
    BreadMatches(env, scene);
    assert EatEach(w, [1]) == EatOne(w, 1);
  }
}
