/**
  `updateDerivedData` (src/app/p4/models/compendium.ts:150-189): the skills nobody learns are
  demoted to rank 99 and left out of the skill list, and each race gets the sorted levels of
  its fusion ingredients and of its fusion results.
 */
module Aggregation {
  import opened Dicts
  import opened Sorting
  import opened Records

  // ===================================================================== skills

  /** `skill.rank = 99` for a skill with no learners. */
  function Demote(sk: Skill): (r: Skill)
    ensures |sk.learnedBy| < 1 ==> r == sk.(rank := 99)
    ensures |sk.learnedBy| >= 1 ==> r == sk
  {
    if |sk.learnedBy| < 1 then sk.(rank := 99) else sk
  }

  /** The skill object after the loop at compendium.ts:155-161, which updates the skills in place. */
  function Demoted(skills: Dict<string, Skill>): (r: Dict<string, Skill>)
    requires skills.Valid()
    ensures r.Valid() && r.keys == skills.keys && r.vals.Keys == skills.vals.Keys
  {
    Dict(skills.keys, map k | k in skills.vals :: Demote(skills.vals[k]))
  }

  /** The skills that some demon learns, in enumeration order. */
  function Learnable(vs: seq<Skill>): (r: seq<Skill>)
    decreases |vs|
  {
    if vs == [] then []
    else
      var n := |vs| - 1;
      Learnable(vs[..n]) + (if |vs[n].learnedBy| < 1 then [] else [vs[n]])
  }

  /** The skill list keeps exactly the skills with a learner, each as often as it occurs. */
  lemma {:induction false} LearnableSpec(vs: seq<Skill>, sk: Skill)
    ensures multiset(Learnable(vs))[sk] == if |sk.learnedBy| >= 1 then multiset(vs)[sk] else 0
    ensures sk in Learnable(vs) <==> sk in vs && |sk.learnedBy| >= 1
    decreases |vs|
  {
    if vs != [] {
      var n := |vs| - 1;
      LearnableSpec(vs[..n], sk);
      SnocLast(vs);
      assert multiset(vs) == multiset(vs[..n]) + multiset{vs[n]};
    }
  }

  /** The skill list of one more skill. */
  lemma LearnableSnoc(vs: seq<Skill>, i: int)
    requires 0 <= i < |vs|
    ensures Learnable(vs[..i + 1]) == Learnable(vs[..i]) + if |vs[i].learnedBy| < 1 then [] else [vs[i]]
  {
    assert vs[..i + 1][..i] == vs[..i];
  }

  /** Demoting a skill twice is demoting it once. */
  lemma DemoteIdempotent()
    ensures forall sk :: Demote(Demote(sk)) == Demote(sk)
  {
  }

  /** The skill object once the loop at compendium.ts:155-161 has visited its first `n` skills. */
  function DemotedThrough(skills: Dict<string, Skill>, n: int): (r: Dict<string, Skill>)
    requires skills.Valid() && 0 <= n <= |skills.keys|
    ensures r.Valid() && r.keys == skills.keys && r.vals.Keys == skills.vals.Keys
  {
    UpdateEach(skills, skills.keys[..n], Demote)
  }

  lemma DemoteStep(skills: Dict<string, Skill>, i: int)
    requires skills.Valid() && 0 <= i < |skills.keys|
    ensures var k := skills.keys[i]; var sk := skills.vals[k];
      DemotedThrough(skills, i + 1) ==
        if |sk.learnedBy| < 1 then DemotedThrough(skills, i).Put(k, sk.(rank := 99)) else DemotedThrough(skills, i)
  {
    var k := skills.keys[i];
    var m := DemotedThrough(skills, i);
    PrefixSnoc(skills.keys, i);
    UpdateEachSnoc(skills, skills.keys[..i], k, Demote);
    assert k !in skills.keys[..i];
    DemoteIdempotent();
    UpdateEachSpec(skills, skills.keys[..i], Demote, k);
    if |skills.vals[k].learnedBy| >= 1 {
      assert m.vals[k := skills.vals[k]] == m.vals;
    }
  }

  /** Once every skill has been visited, every skill is demoted as `Demote` says. */
  lemma DemotedAll(skills: Dict<string, Skill>)
    requires skills.Valid()
    ensures DemotedThrough(skills, |skills.keys|) == Demoted(skills)
  {
    assert skills.keys[..|skills.keys|] == skills.keys;
    var m := DemotedThrough(skills, |skills.keys|);
    DemoteIdempotent();
    forall k | k in skills.vals
      ensures m.vals[k] == Demote(skills.vals[k])
    {
      UpdateEachSpec(skills, skills.keys, Demote, k);
    }
    assert m.vals == Demoted(skills).vals;
  }

  /** compendium.ts:155-161. */
  method PartitionSkills(skills: Dict<string, Skill>) returns (demoted: Dict<string, Skill>, learnable: seq<Skill>)
    requires skills.Valid()
    ensures demoted == Demoted(skills)
    ensures learnable == Learnable(skills.Values())
  {
    var vs := skills.Values();
    learnable := [];
    assert skills.keys[..0] == [];
    demoted := skills;
    for i := 0 to |vs|
      invariant demoted == DemotedThrough(skills, i)
      invariant learnable == Learnable(vs[..i])
    {
      LearnableSnoc(vs, i);
      DemoteStep(skills, i);
      var skill := vs[i];
      if |skill.learnedBy| < 1 {
        demoted := demoted.Put(skills.keys[i], skill.(rank := 99));
      } else {
        learnable := learnable + [skill];
      }
    }
    assert vs[..|vs|] == vs;
    DemotedAll(skills);
  }

  // ===================================================================== levels

  /** The levels pushed onto `race`'s list by the loop at compendium.ts:168-176, skipping the names in `excluded`. */
  function Levels(es: seq<(string, Demon)>, race: string, excluded: set<string>): seq<int>
    decreases |es|
  {
    if es == [] then []
    else
      var n := |es| - 1;
      Levels(es[..n], race, excluded) + LevelOf(es[n], race, excluded)
  }

  function LevelOf(e: (string, Demon), race: string, excluded: set<string>): seq<int> {
    if NonParty(e.1) && e.1.race == race && e.0 !in excluded then [e.1.lvl] else []
  }

  /** A level is listed for `race` exactly when a fusable demon of that race, not excluded, has it. */
  lemma {:induction false} LevelsMember(es: seq<(string, Demon)>, race: string, excluded: set<string>, x: int)
    ensures x in Levels(es, race, excluded) <==>
      exists i :: 0 <= i < |es| && NonParty(es[i].1) && es[i].1.race == race && es[i].1.lvl == x && es[i].0 !in excluded
    decreases |es|
  {
    if es != [] {
      var n := |es| - 1;
      var prefix := es[..n];
      LevelsMember(prefix, race, excluded, x);
      assert forall i :: 0 <= i < n ==> prefix[i] == es[i];
    }
  }

  /** Excluding names only removes levels: every result level is also an ingredient level, as often. */
  lemma {:induction false} LevelsExcluded(es: seq<(string, Demon)>, race: string, excluded: set<string>)
    ensures multiset(Levels(es, race, excluded)) <= multiset(Levels(es, race, {}))
    decreases |es|
  {
    if es != [] {
      var n := |es| - 1;
      LevelsExcluded(es[..n], race, excluded);
    }
  }

  /** The names of the entries that push a level onto `race`'s list. */
  ghost function PushedNames(es: seq<(string, Demon)>, race: string, excluded: set<string>): set<string> {
    set i | 0 <= i < |es| && LevelOf(es[i], race, excluded) != [] :: es[i].0
  }

  /** The names of the entries that push level `x` onto `race`'s list. */
  ghost function PushedNamesAt(es: seq<(string, Demon)>, race: string, excluded: set<string>, x: int): set<string> {
    set i | 0 <= i < |es| && LevelOf(es[i], race, excluded) == [x] :: es[i].0
  }

  /** The names pushing onto a list, one entry more. */
  lemma PushedNamesSnoc(es: seq<(string, Demon)>, race: string, excluded: set<string>, x: int)
    requires DistinctKeys(es) && es != []
    ensures var n := |es| - 1; var e := es[n];
      && e.0 !in PushedNames(es[..n], race, excluded)
      && PushedNames(es, race, excluded) == PushedNames(es[..n], race, excluded) + (if LevelOf(e, race, excluded) != [] then {e.0} else {})
      && PushedNamesAt(es, race, excluded, x) == PushedNamesAt(es[..n], race, excluded, x) + (if LevelOf(e, race, excluded) == [x] then {e.0} else {})
  {
    var n := |es| - 1;
    var prefix := es[..n];
    assert forall i :: 0 <= i < n ==> prefix[i] == es[i];
  }

  /**
    Over the entries of an object (distinct names), each level occurs in `race`'s list once per
    entry that pushes it, and the list has one level per entry that pushes onto it.
   */
  lemma {:induction false} LevelsCount(es: seq<(string, Demon)>, race: string, excluded: set<string>, x: int)
    requires DistinctKeys(es)
    ensures multiset(Levels(es, race, excluded))[x] == |PushedNamesAt(es, race, excluded, x)|
    ensures |Levels(es, race, excluded)| == |PushedNames(es, race, excluded)|
    decreases |es|
  {
    if es != [] {
      var n := |es| - 1;
      LevelsCount(es[..n], race, excluded, x);
      PushedNamesSnoc(es, race, excluded, x);
    }
  }

  /** The per-race lists after the push loop over the first `i` entries. */
  ghost predicate Pushed(m: map<string, seq<int>>, races: seq<string>, es: seq<(string, Demon)>, excluded: set<string>) {
    && m.Keys == set r | r in races
    && forall r :: r in m ==> m[r] == Levels(es, r, excluded)
  }

  lemma PushStep(m: map<string, seq<int>>, races: seq<string>, es: seq<(string, Demon)>, i: int, excluded: set<string>)
    requires 0 <= i < |es| && Pushed(m, races, es[..i], excluded)
    requires NonParty(es[i].1) ==> es[i].1.race in races
    ensures var e := es[i];
      Pushed(if NonParty(e.1) && e.0 !in excluded then m[e.1.race := m[e.1.race] + [e.1.lvl]] else m,
        races, es[..i + 1], excluded)
  {
    assert es[..i + 1][..i] == es[..i];
  }

  /** The unsorted list of each race. */
  function LevelsFor(es: seq<(string, Demon)>, excluded: set<string>): string -> seq<int> {
    r => Levels(es, r, excluded)
  }

  /** The per-race lists after sorting the lists of the first `i` races. */
  ghost predicate SortedUpTo(m: map<string, seq<int>>, races: seq<string>, i: int, lists: string -> seq<int>)
    requires 0 <= i <= |races|
  {
    && m.Keys == set r | r in races
    && forall r :: r in m ==> m[r] == if r in races[..i] then SortBy(lists(r), Id) else lists(r)
  }

  lemma SortStep(m: map<string, seq<int>>, races: seq<string>, i: int, lists: string -> seq<int>)
    requires 0 <= i < |races| && SortedUpTo(m, races, i, lists)
    ensures SortedUpTo(m[races[i] := SortBy(m[races[i]], Id)], races, i + 1, lists)
  {
    var m' := m[races[i] := SortBy(m[races[i]], Id)];
    assert races[..i + 1] == races[..i] + [races[i]];
    forall r | r in m'
      ensures m'[r] == if r in races[..i + 1] then SortBy(lists(r), Id) else lists(r)
    {
      if r == races[i] {
        SortTwice(lists(r), Id);
      } else {
        assert r in races[..i + 1] <==> r in races[..i];
      }
    }
  }

  /** The final per-race lists: the sorted levels of each race. */
  ghost predicate Ranked(m: map<string, seq<int>>, races: seq<string>, es: seq<(string, Demon)>, excluded: set<string>) {
    && m.Keys == set r | r in races
    && forall r :: r in m ==> m[r] == SortBy(Levels(es, r, excluded), Id)
  }

  /** Before the sort loop no list is sorted yet. */
  lemma SortStart(m: map<string, seq<int>>, races: seq<string>, es: seq<(string, Demon)>, excluded: set<string>)
    requires Pushed(m, races, es, excluded)
    ensures SortedUpTo(m, races, 0, LevelsFor(es, excluded))
  {
    assert races[..0] == [];
  }

  /** After the sort loop every list is sorted. */
  lemma SortEnd(m: map<string, seq<int>>, races: seq<string>, es: seq<(string, Demon)>, excluded: set<string>)
    requires SortedUpTo(m, races, |races|, LevelsFor(es, excluded))
    ensures Ranked(m, races, es, excluded)
  {
    assert races[..|races|] == races;
  }

  /** The loop at compendium.ts:163-166: an empty ingredient and result list for every race. */
  method EmptyLists(races: seq<string>, specials: set<string>)
      returns (ingredients: map<string, seq<int>>, results: map<string, seq<int>>)
    ensures Pushed(ingredients, races, [], {})
    ensures Pushed(results, races, [], specials)
  {
    ingredients, results := map[], map[];
    for i := 0 to |races|
      invariant ingredients.Keys == results.Keys
      invariant forall r :: r in ingredients <==> r in races[..i]
      invariant forall r :: r in ingredients ==> ingredients[r] == [] && results[r] == []
    {
      assert races[..i + 1] == races[..i] + [races[i]];
      ingredients, results := ingredients[races[i] := []], results[races[i] := []];
    }
    assert races[..|races|] == races;
  }

  /** The loop at compendium.ts:168-176: each fusable demon's level is pushed onto its race's lists. */
  method PushLevels(races: seq<string>, es: seq<(string, Demon)>, specials: set<string>,
                    ingredients0: map<string, seq<int>>, results0: map<string, seq<int>>)
      returns (ingredients: map<string, seq<int>>, results: map<string, seq<int>>)
    requires forall i :: 0 <= i < |es| && NonParty(es[i].1) ==> es[i].1.race in races
    requires Pushed(ingredients0, races, [], {}) && Pushed(results0, races, [], specials)
    ensures Pushed(ingredients, races, es, {})
    ensures Pushed(results, races, es, specials)
  {
    ingredients, results := ingredients0, results0;
    assert es[..0] == [];
    for i := 0 to |es|
      invariant Pushed(ingredients, races, es[..i], {})
      invariant Pushed(results, races, es[..i], specials)
    {
      var name, demon := es[i].0, es[i].1;
      PushStep(ingredients, races, es, i, {});
      PushStep(results, races, es, i, specials);
      if demon.fusion != "party" {
        ingredients := ingredients[demon.race := ingredients[demon.race] + [demon.lvl]];
        if name !in specials {
          results := results[demon.race := results[demon.race] + [demon.lvl]];
        }
      }
    }
    assert es[..|es|] == es;
  }

  /** The loop at compendium.ts:178-181: every race's two lists are sorted by level. */
  method SortLists(races: seq<string>, es: seq<(string, Demon)>, specials: set<string>,
                   ingredients0: map<string, seq<int>>, results0: map<string, seq<int>>)
      returns (ingredients: map<string, seq<int>>, results: map<string, seq<int>>)
    requires Pushed(ingredients0, races, es, {}) && Pushed(results0, races, es, specials)
    ensures Ranked(ingredients, races, es, {})
    ensures Ranked(results, races, es, specials)
  {
    ingredients, results := ingredients0, results0;
    SortStart(ingredients, races, es, {});
    SortStart(results, races, es, specials);
    for i := 0 to |races|
      invariant SortedUpTo(ingredients, races, i, LevelsFor(es, {}))
      invariant SortedUpTo(results, races, i, LevelsFor(es, specials))
    {
      SortStep(ingredients, races, i, LevelsFor(es, {}));
      SortStep(results, races, i, LevelsFor(es, specials));
      ingredients := ingredients[races[i] := SortBy(ingredients[races[i]], Id)];
      results := results[races[i] := SortBy(results[races[i]], Id)];
    }
    SortEnd(ingredients, races, es, {});
    SortEnd(results, races, es, specials);
  }

  /** compendium.ts:163-181. */
  method RankArrays(races: seq<string>, es: seq<(string, Demon)>, specials: set<string>)
      returns (ingredients: map<string, seq<int>>, results: map<string, seq<int>>)
    requires forall i :: 0 <= i < |es| && NonParty(es[i].1) ==> es[i].1.race in races
    ensures Ranked(ingredients, races, es, {})
    ensures Ranked(results, races, es, specials)
  {
    ingredients, results := EmptyLists(races, specials);
    ingredients, results := PushLevels(races, es, specials, ingredients, results);
    ingredients, results := SortLists(races, es, specials, ingredients, results);
  }
}
