/** `read` (player/playerentity.py): which texts reading shows, and in what
    order. */
module Reading {
  import opened Items
  import opened Seqs
  import opened Worlds
  import opened Player
  import Matcher

  /** A text is shown for a list of matches exactly when one of them is a
      takeable readable with that text; each match shows at most one. */
  lemma {:induction false} TextsShown(w: World, ms: seq<Id>)
    ensures |Texts(w, ms)| <= |ms|
    ensures forall t :: t in Texts(w, ms) <==>
              exists m :: m in ms && PolicyAt(w, m) == Allow && IsReadableAt(w, m) && w.items[m].kind.text == t
  {
    if ms != [] {
      TextsShown(w, ms[1..]);
      forall t ensures t in Texts(w, ms) <==>
                exists m :: m in ms && PolicyAt(w, m) == Allow && IsReadableAt(w, m) && w.items[m].kind.text == t
      {
        if exists m :: m in ms && PolicyAt(w, m) == Allow && IsReadableAt(w, m) && w.items[m].kind.text == t {
          var m :| m in ms && PolicyAt(w, m) == Allow && IsReadableAt(w, m) && w.items[m].kind.text == t;
          if m != ms[0] {
            assert m in ms[1..];
          }
        }
      }
    }
  }

  /** `read(args)` shows the text of every takeable readable that matches
      in the inventory or in the scene, and nothing else; a blank query
      shows nothing. Reading changes nothing, which the model makes plain
      by returning only the texts. */
  lemma ReadShows(env: Env, w: World, args: string)
    ensures forall t :: t in Read(env, w, args) <==>
              args != "" &&
              exists m :: (m in Match(env, w, args, w.inventory) || m in Match(env, w, args, w.scene)) &&
                          PolicyAt(w, m) == Allow && IsReadableAt(w, m) && w.items[m].kind.text == t
    ensures Matcher.Blank(args) ==> Read(env, w, args) == []
  {
    if args != "" {
      TextsShown(w, Match(env, w, args, w.inventory) + Match(env, w, args, w.scene));
    }
  }

  /** The texts of a concatenation of matches are the texts of the parts,
      in order. */
  lemma {:induction false} TextsAppend(w: World, a: seq<Id>, b: seq<Id>)
    ensures Texts(w, a + b) == Texts(w, a) + Texts(w, b)
    decreases |a|
  {
    if a == [] {
      assert a + b == b;
    } else {
      var h := if PolicyAt(w, a[0]) == Allow && IsReadableAt(w, a[0]) then [w.items[a[0]].kind.text] else [];
      assert (a + b)[0] == a[0];
      assert (a + b)[1..] == a[1..] + b;
      assert Texts(w, a + b) == h + Texts(w, a[1..] + b);
      TextsAppend(w, a[1..], b);
      AppendAssoc(h, Texts(w, a[1..]), Texts(w, b));
    }
  }

  /** One match shows its text exactly when it is a takeable readable. */
  lemma TextsOne(w: World, m: Id)
    ensures Texts(w, [m]) == if PolicyAt(w, m) == Allow && IsReadableAt(w, m) then [w.items[m].kind.text] else []
  {
    assert [m][1..] == [];
  }

  /** `read(args)` lists the texts of the inventory matches first and then
      those of the scene matches. */
  lemma ReadInOrder(env: Env, w: World, args: string)
    requires args != ""
    ensures Read(env, w, args) == Texts(w, Match(env, w, args, w.inventory)) + Texts(w, Match(env, w, args, w.scene))
  {
    TextsAppend(w, Match(env, w, args, w.inventory), Match(env, w, args, w.scene));
  }
}
