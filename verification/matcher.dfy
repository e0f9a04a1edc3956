/** The fuzzy matcher `get_match` (player/playerentity.py): a query and each
    candidate's lower-cased name are cut into fragments, and a candidate is
    chosen when some query fragment is similar to some name fragment.

    `similar(a, b) > 0.75` (difflib's `SequenceMatcher.ratio()`) is not
    modelled; the matcher takes it as a parameter `sim`, read as "the ratio
    of `a` and `b` exceeds 0.75". Characters follow ASCII: Unicode
    whitespace, word characters and case mapping beyond ASCII are not part
    of this model. */
module Matcher {
  import opened Seqs

  /** Whitespace for `str.split()`: TAB, LF, VT, FF, CR, the separators
      0x1C-0x1F, and the space. */
  predicate IsSpace(c: char)
  {
    c == ' ' || (9 <= c as int <= 13) || (28 <= c as int <= 31)
  }

  /** `\w`: letters, digits and the underscore. */
  predicate IsWordChar(c: char)
  {
    ('a' <= c <= 'z') || ('A' <= c <= 'Z') || ('0' <= c <= '9') || c == '_'
  }

  /** `[^\w ]`: what `re.split` cuts at. */
  predicate IsSep(c: char)
  {
    !IsWordChar(c) && c != ' '
  }

  predicate Blank(s: string)
  {
    forall i :: 0 <= i < |s| ==> IsSpace(s[i])
  }

  predicate NoSep(s: string)
  {
    forall i :: 0 <= i < |s| ==> !IsSep(s[i])
  }

  function LowerChar(c: char): char
  {
    if 'A' <= c <= 'Z' then (c as int + 32) as char else c
  }

  /** `str.lower()` on ASCII letters. */
  function Lower(s: string): (r: string)
    ensures |r| == |s|
    ensures forall i :: 0 <= i < |s| ==> r[i] == LowerChar(s[i])
  {
    seq(|s|, i requires 0 <= i < |s| => LowerChar(s[i]))
  }

  /** Length of the leading run of non-whitespace characters. */
  function RunLen(s: string): (n: nat)
    ensures n <= |s|
    ensures forall i :: 0 <= i < n ==> !IsSpace(s[i])
    ensures n < |s| ==> IsSpace(s[n])
  {
    if s == [] || IsSpace(s[0]) then 0 else 1 + RunLen(s[1..])
  }

  /** `str.split()` with no argument: the maximal runs of non-whitespace,
      so never an empty word. */
  function Words(s: string): (r: seq<string>)
    ensures forall k :: 0 <= k < |r| ==> |r[k]| > 0 && !Blank(r[k])
    ensures forall k, i :: 0 <= k < |r| && 0 <= i < |r[k]| ==> !IsSpace(r[k][i])
    ensures r == [] <==> Blank(s)
    decreases |s|
  {
    if s == [] then []
    else if IsSpace(s[0]) then
      assert Blank(s) <==> Blank(s[1..]) by {
        if Blank(s[1..]) {
          forall i | 0 <= i < |s| ensures IsSpace(s[i]) {
            if i > 0 { assert s[i] == s[1..][i - 1]; }
          }
        }
      }
      Words(s[1..])
    else
      var n := RunLen(s);
      [s[..n]] + Words(s[n..])
  }

  /** The characters of `s` that are not whitespace, in order. */
  function NonSpace(s: string): string
  {
    if s == [] then [] else (if IsSpace(s[0]) then [] else [s[0]]) + NonSpace(s[1..])
  }

  lemma {:induction false} NonSpaceAppend(a: string, b: string)
    ensures NonSpace(a + b) == NonSpace(a) + NonSpace(b)
  {
    if a == [] {
      assert a + b == b;
    } else {
      assert (a + b)[0] == a[0];
      assert (a + b)[1..] == a[1..] + b;
      NonSpaceAppend(a[1..], b);
      var h: string := if IsSpace(a[0]) then [] else [a[0]];
      assert NonSpace(a + b) == h + NonSpace(a[1..] + b);
      assert NonSpace(a) == h + NonSpace(a[1..]);
    }
  }

  lemma {:induction false} NonSpaceOfWord(w: string)
    requires forall i :: 0 <= i < |w| ==> !IsSpace(w[i])
    ensures NonSpace(w) == w
  {
    if w != [] {
      NonSpaceOfWord(w[1..]);
    }
  }

  /** Splitting loses nothing but the whitespace: the words, put back
      together, are the query with its whitespace taken out. */
  lemma {:induction false} WordsKeepText(s: string)
    ensures Flatten(Words(s)) == NonSpace(s)
    decreases |s|
  {
    if s == [] {
    } else if IsSpace(s[0]) {
      WordsKeepText(s[1..]);
    } else {
      var n := RunLen(s);
      WordsKeepText(s[n..]);
      assert s == s[..n] + s[n..];
      NonSpaceAppend(s[..n], s[n..]);
      NonSpaceOfWord(s[..n]);
      assert Words(s) == [s[..n]] + Words(s[n..]);
      assert Flatten(Words(s)) == s[..n] + Flatten(Words(s[n..]));
    }
  }

  /** `re.split(r'[^\w ]', t)`: cut at every separator, keeping the empty
      pieces, so `k` separators always give `k + 1` pieces. */
  function Pieces(t: string): (r: seq<string>)
    ensures |r| == |Seps(t)| + 1
    ensures forall k :: 0 <= k < |r| ==> NoSep(r[k])
  {
    if t == [] then [""]
    else
      var rest := Pieces(t[1..]);
      if IsSep(t[0]) then [""] + rest
      else
        assert NoSep([t[0]] + rest[0]) by {
          forall i | 0 <= i < |[t[0]] + rest[0]| ensures !IsSep(([t[0]] + rest[0])[i]) {
            if i > 0 { assert ([t[0]] + rest[0])[i] == rest[0][i - 1]; }
          }
        }
        [[t[0]] + rest[0]] + rest[1..]
  }

  /** The separator characters of `t`, in order. */
  function Seps(t: string): (r: string)
  {
    if t == [] then [] else (if IsSep(t[0]) then [t[0]] else []) + Seps(t[1..])
  }

  /** Put pieces back together with the given separators between them. */
  function Interleave(ps: seq<string>, cs: string): string
    requires |ps| == |cs| + 1
  {
    if cs == [] then ps[0] else ps[0] + [cs[0]] + Interleave(ps[1..], cs[1..])
  }

  /** Cutting at separators is undone by putting the separators back. */
  lemma {:induction false} PiecesRoundTrip(t: string)
    ensures Interleave(Pieces(t), Seps(t)) == t
  {
    if t != [] {
      PiecesRoundTrip(t[1..]);
      var rest := Pieces(t[1..]);
      if IsSep(t[0]) {
        assert Pieces(t) == [""] + rest;
        assert Seps(t) == [t[0]] + Seps(t[1..]);
        assert t == [t[0]] + t[1..];
      } else {
        assert Seps(t) == Seps(t[1..]);
        var cs := Seps(t);
        var ps := Pieces(t);
        assert ps == [[t[0]] + rest[0]] + rest[1..];
        if cs == [] {
          assert t == [t[0]] + rest[0];
        } else {
          assert rest == [rest[0]] + rest[1..];
          assert Interleave(rest, cs) == rest[0] + [cs[0]] + Interleave(rest[1..], cs[1..]);
          assert t == [t[0]] + t[1..];
        }
      }
    }
  }

  /** A string with no separator is a single piece. */
  lemma {:induction false} PiecesOfPlain(t: string)
    requires NoSep(t)
    ensures Pieces(t) == [t]
  {
    if t != [] {
      PiecesOfPlain(t[1..]);
      assert [t[0]] + t[1..] == t;
    }
  }

  /** A non-empty string with no whitespace is a single word. */
  lemma WordsOfWord(s: string)
    requires s != [] && forall i :: 0 <= i < |s| ==> !IsSpace(s[i])
    ensures Words(s) == [s]
  {
    assert RunLen(s) == |s|;
    assert s[..|s|] == s;
  }

  /** A word followed by a space and the rest splits into that word and
      the words of the rest. */
  lemma WordsCons(a: string, b: string)
    requires a != [] && forall i :: 0 <= i < |a| ==> !IsSpace(a[i])
    ensures Words(a + [' '] + b) == [a] + Words(b)
  {
    WordsConsAt(a, ' ', b);
  }

  lemma WordsConsAt(a: string, c: char, b: string)
    requires IsSpace(c)
    requires a != [] && forall i :: 0 <= i < |a| ==> !IsSpace(a[i])
    ensures Words(a + [c] + b) == [a] + Words(b)
  {
    var s := a + [c] + b;
    var n := RunLen(s);
    assert s[|a|] == c;
    assert n == |a|;
    assert s[..n] == a;
    assert s[n..] == [c] + b;
    assert s[n..][1..] == b;
  }

  /** Whitespace separates: the words on either side of a whitespace
      character are the words of the two sides. With `WordsOfWord` and the
      blank case of `Words`, this pins the words as the maximal runs of
      non-whitespace. */
  lemma {:induction false} WordsSplitAtSpace(a: string, c: char, b: string)
    requires IsSpace(c)
    ensures Words(a + [c] + b) == Words(a) + Words(b)
    decreases |a|
  {
    if a == [] {
      SplitEmptyStep(c, b);
    } else if IsSpace(a[0]) {
      WordsSplitAtSpace(a[1..], c, b);
      SplitSpaceStep(a, c, b);
    } else if RunLen(a) < |a| {
      WordsSplitAtSpace(a[RunLen(a)..], c, b);
      SplitRunStep(a, c, b);
    } else {
      SplitWholeStep(a, c, b);
    }
  }

  lemma SplitEmptyStep(c: char, b: string)
    requires IsSpace(c)
    ensures Words([] + [c] + b) == Words([]) + Words(b)
  {
    var s := [] + [c] + b;
    assert s == [c] + b;
    WordsSpaceHead(s);
    assert s[1..] == b;
  }

  lemma SplitSpaceStep(a: string, c: char, b: string)
    requires a != [] && IsSpace(a[0])
    requires Words(a[1..] + [c] + b) == Words(a[1..]) + Words(b)
    ensures Words(a + [c] + b) == Words(a) + Words(b)
  {
    var s := a + [c] + b;
    WordsSpaceHead(a);
    assert s[0] == a[0];
    WordsSpaceHead(s);
    assert s[1..] == a[1..] + [c] + b;
  }

  lemma SplitRunStep(a: string, c: char, b: string)
    requires IsSpace(c) && a != [] && !IsSpace(a[0]) && RunLen(a) < |a|
    requires Words(a[RunLen(a)..] + [c] + b) == Words(a[RunLen(a)..]) + Words(b)
    ensures Words(a + [c] + b) == Words(a) + Words(b)
  {
    var s := a + [c] + b;
    var m := RunLen(a);
    WordsRunHead(a);
    assert s[..|a|] == a && s[|a|] == c;
    RunLenPrefix(a, s, m);
    assert s[0] == a[0];
    WordsRunHead(s);
    SplitAfterRun(a, c, b, m);
    AppendAssoc([a[..m]], Words(a[m..]), Words(b));
  }

  lemma SplitWholeStep(a: string, c: char, b: string)
    requires IsSpace(c) && a != [] && !IsSpace(a[0]) && RunLen(a) == |a|
    ensures Words(a + [c] + b) == Words(a) + Words(b)
  {
    WordsOfWord(a);
    WordsConsAt(a, c, b);
  }

  lemma WordsSpaceHead(s: string)
    requires s != [] && IsSpace(s[0])
    ensures Words(s) == Words(s[1..])
  {
  }

  lemma WordsRunHead(s: string)
    requires s != [] && !IsSpace(s[0])
    ensures Words(s) == [s[..RunLen(s)]] + Words(s[RunLen(s)..])
  {
  }

  /** Cutting `a + [c] + b` after a leading run of `a` of length `m`. */
  lemma SplitAfterRun(a: string, c: char, b: string, m: nat)
    requires m <= |a|
    ensures (a + [c] + b)[..m] == a[..m]
    ensures (a + [c] + b)[m..] == a[m..] + [c] + b
  {
  }

  /** The leading run of `s` is that of `a` when `s` extends `a` with a
      whitespace character next. */
  lemma RunLenPrefix(a: string, s: string, m: nat)
    requires m == RunLen(a)
    requires |a| < |s| && a == s[..|a|] && IsSpace(s[|a|])
    ensures RunLen(s) == m
  {
    assert forall i :: 0 <= i < |a| ==> s[i] == a[i];
  }

  lemma LowerAppend(a: string, b: string)
    ensures Lower(a + b) == Lower(a) + Lower(b)
  {
  }

  /** A word of lower-case letters: lowering keeps it, and it has no
      whitespace and no separator. */
  lemma LowercaseWord(s: string)
    requires forall i :: 0 <= i < |s| ==> 'a' <= s[i] <= 'z'
    ensures Lower(s) == s && NoSep(s)
    ensures forall i :: 0 <= i < |s| ==> !IsSpace(s[i])
  {
  }

  /** The fragments of a query or name: every word cut at separators, all
      pieces concatenated (`sum([...], [])`). */
  function Fragments(s: string): seq<string>
  {
    Flatten(PiecesOf(Words(s)))
  }

  function PiecesOf(ws: seq<string>): (r: seq<seq<string>>)
    ensures |r| == |ws|
    ensures forall k :: 0 <= k < |ws| ==> r[k] == Pieces(ws[k])
  {
    seq(|ws|, k requires 0 <= k < |ws| => Pieces(ws[k]))
  }

  lemma {:induction false} FlattenEmpty(ss: seq<seq<string>>)
    requires forall k :: 0 <= k < |ss| ==> |ss[k]| > 0
    ensures Flatten(ss) == [] <==> ss == []
  {
    if ss != [] {
      assert |Flatten(ss)| >= |ss[0]|;
    }
  }

  /** A query has no fragment exactly when it is blank; a non-blank query
      keeps its empty pieces. */
  lemma FragmentsEmptyIffBlank(s: string)
    ensures Fragments(s) == [] <==> Blank(s)
  {
    var ps := PiecesOf(Words(s));
    FlattenEmpty(ps);
  }

  /** A single lower-case word is its own only fragment. */
  lemma FragmentsOfWord(q: string)
    requires q != [] && forall i :: 0 <= i < |q| ==> 'a' <= q[i] <= 'z'
    ensures Fragments(q) == [q]
  {
    LowercaseWord(q);
    WordsOfWord(q);
    PiecesOfPlain(q);
    var ps := PiecesOf([q]);
    assert ps == [[q]];
    assert Flatten(ps) == [q] + Flatten(ps[1..]);
  }

  /** Two lower-case words separated by a space are its two fragments. */
  lemma FragmentsOfTwoWords(a: string, b: string)
    requires a != [] && forall i :: 0 <= i < |a| ==> 'a' <= a[i] <= 'z'
    requires b != [] && forall i :: 0 <= i < |b| ==> 'a' <= b[i] <= 'z'
    ensures Fragments(a + [' '] + b) == [a, b]
  {
    TwoWords(a, b);
    LowercaseWord(a);
    LowercaseWord(b);
    PiecesOfPlain(a);
    PiecesOfPlain(b);
    assert PiecesOf([a, b]) == [[a], [b]];
    FlattenTwo(a, b);
  }

  lemma TwoWords(a: string, b: string)
    requires a != [] && forall i :: 0 <= i < |a| ==> 'a' <= a[i] <= 'z'
    requires b != [] && forall i :: 0 <= i < |b| ==> 'a' <= b[i] <= 'z'
    ensures Words(a + [' '] + b) == [a, b]
  {
    LowercaseWord(a);
    LowercaseWord(b);
    WordsOfWord(b);
    WordsCons(a, b);
  }

  lemma FlattenTwo(a: string, b: string)
    ensures Flatten([[a], [b]]) == [a, b]
  {
    var ps := [[a], [b]];
    assert ps[1..] == [[b]];
    assert ps[1..][1..] == [];
    assert Flatten(ps[1..]) == [b] + Flatten(ps[1..][1..]);
    assert Flatten(ps) == [a] + Flatten(ps[1..]);
  }

  /** A query of one lower-case word picks a name that lowers to it. */
  lemma WordPicksItself(sim: (string, string) -> bool, a: string, name: string)
    requires Reflexive(sim)
    requires a != [] && forall i :: 0 <= i < |a| ==> 'a' <= a[i] <= 'z'
    requires Lower(name) == a
    ensures Matches(sim, a, name)
  {
    FragmentsOfWord(a);
    SharedFragmentMatches(sim, a, name, 0, 0);
  }

  /** A query of one lower-case word picks a name that lowers to two
      lower-case words, the second of them that word. */
  lemma WordPicksSecondWord(sim: (string, string) -> bool, a: string, b: string, name: string)
    requires Reflexive(sim)
    requires a != [] && forall i :: 0 <= i < |a| ==> 'a' <= a[i] <= 'z'
    requires b != [] && forall i :: 0 <= i < |b| ==> 'a' <= b[i] <= 'z'
    requires Lower(name) == a + [' '] + b
    ensures Matches(sim, b, name)
  {
    FragmentsOfWord(b);
    FragmentsOfTwoWords(a, b);
    SharedFragmentMatches(sim, b, name, 0, 1);
  }

  /** Some query fragment is similar to some name fragment. */
  predicate Matches(sim: (string, string) -> bool, args: string, name: string)
  {
    var qs := Fragments(args);
    var ns := Fragments(Lower(name));
    exists i, j :: 0 <= i < |qs| && 0 <= j < |ns| && sim(qs[i], ns[j])
  }

  /** `get_match(args, item_list)`: the candidates whose lower-cased name
      matches the query (which is not lower-cased), without repeats, in
      the order they first appear among the candidates. */
  function GetMatch<T(==,!new)>(sim: (string, string) -> bool, args: string,
                                 cands: seq<T>, name: T -> string): (r: seq<T>)
    ensures NoDup(r)
    ensures forall x :: x in r <==> x in cands && Matches(sim, args, name(x))
    ensures forall i, j :: 0 <= i < j < |r| ==> IndexOf(cands, r[i]) < IndexOf(cands, r[j])
    ensures Blank(args) ==> r == []
  {
    FragmentsEmptyIffBlank(args);
    var r := Keep(cands, x => Matches(sim, args, name(x)));
    KeepOrder(cands, x => Matches(sim, args, name(x)));
    assert Blank(args) ==> r == [] by {
      if Blank(args) {
        KeepNone(cands, x => Matches(sim, args, name(x)));
      }
    }
    r
  }

  /** Two name functions that agree on the candidates give the same match. */
  lemma GetMatchNames<T(!new)>(sim: (string, string) -> bool, args: string, cands: seq<T>,
                               name: T -> string, name': T -> string)
    requires forall x :: x in cands ==> name(x) == name'(x)
    ensures GetMatch(sim, args, cands, name) == GetMatch(sim, args, cands, name')
  {
    KeepCongruent(cands, x => Matches(sim, args, name(x)), x => Matches(sim, args, name'(x)));
  }

  /** When every candidate matches and none repeats, the match is the
      candidate list itself. */
  lemma GetMatchAll<T(!new)>(sim: (string, string) -> bool, args: string, cands: seq<T>,
                             name: T -> string)
    requires NoDup(cands)
    requires forall x :: x in cands ==> Matches(sim, args, name(x))
    ensures GetMatch(sim, args, cands, name) == cands
  {
    KeepAll(cands, x => Matches(sim, args, name(x)));
  }

  /** `SequenceMatcher(None, a, a).ratio()` is 1.0 for every string. */
  ghost predicate Reflexive(sim: (string, string) -> bool)
  {
    forall a :: sim(a, a)
  }

  /** A query sharing a fragment with a candidate's lower-cased name picks
      that candidate, whatever else the ratio does. */
  lemma SharedFragmentMatches(sim: (string, string) -> bool, args: string, name: string, i: nat, j: nat)
    requires Reflexive(sim)
    requires i < |Fragments(args)| && j < |Fragments(Lower(name))|
    requires Fragments(args)[i] == Fragments(Lower(name))[j]
    ensures Matches(sim, args, name)
  {
    assert sim(Fragments(args)[i], Fragments(Lower(name))[j]);
  }
}
