/**
  What a P4 compendium holds, as functions of its configuration: the state that
  `initImportedData` and `updateDerivedData` (src/app/p4/models/compendium.ts:25-189) compute,
  and the facts about it that the accessors rely on.
 */
module Derivation {
  import opened Options
  import opened Dicts
  import opened Sorting
  import opened Records
  import opened Ingestion
  import opened Indexing
  import opened Aggregation

  /**
    The part of a `CompendiumConfig` the compendium reads, with the game's own data sets already
    selected; every JavaScript object is given as its `Object.entries`.
   */
  datatype Config = Config(
    races: seq<string>,
    resistCodes: map<char, int>,
    inheritTypes: seq<(string, seq<int>)>,
    elemOrder: map<string, int>,
    demonData: seq<seq<(string, RawDemon)>>,
    enemyData: seq<seq<(string, RawEnemy)>>,
    skillData: seq<seq<(string, RawSkill)>>,
    specialRecipes: seq<(string, seq<string>)>)

  function Tables(c: Config): InheritTable {
    InheritTables(c.inheritTypes, InheritThreshold(c.races))
  }

  function LoadedDemons(c: Config): (d: Dict<string, Demon>)
    ensures d.Valid()
  {
    Loaded(c.demonData, DemonNormalizer(Tables(c).codes, c.resistCodes))
  }

  function Enemies(c: Config): (d: Dict<string, Enemy>)
    ensures d.Valid()
  {
    Loaded(c.enemyData, EnemyNormalizer(c.resistCodes))
  }

  function LoadedSkills(c: Config): (d: Dict<string, Skill>)
    ensures d.Valid()
  {
    Loaded(c.skillData, SkillNormalizer(LoadedDemons(c)))
  }

  function Specials(c: Config): (d: Dict<string, seq<string>>)
    ensures d.Valid()
  {
    PutAll(Empty(), c.specialRecipes)
  }

  /** Every recipe result is a loaded demon (compendium.ts:117 writes to it). */
  ghost predicate RecipesKnown(c: Config) {
    forall i :: 0 <= i < |c.specialRecipes| ==> c.specialRecipes[i].0 in LoadedDemons(c).vals
  }

  function Demons(c: Config): (d: Dict<string, Demon>)
    requires RecipesKnown(c)
    ensures d.Valid() && d.keys == LoadedDemons(c).keys
  {
    MarkSpecials(LoadedDemons(c), Names(c.specialRecipes))
  }

  /** The demons in the order of the loop at compendium.ts:131. */
  function ByLevel(c: Config): seq<Demon>
    requires RecipesKnown(c)
  {
    SortBy(Demons(c).Values(), Level)
  }

  /**
    The configurations the compendium can be built from without a `TypeError`: recipe results
    are demons, fusable demons have listed races (compendium.ts:133, 170) and every skill a demon
    learns is a known skill (compendium.ts:138).
   */
  ghost predicate WellFormed(c: Config) {
    && RecipesKnown(c)
    && RacesKnown(Demons(c).Values(), RaceSet(c.races))
    && SkillsKnown(Demons(c).Values(), LoadedSkills(c).vals.Keys)
  }

  function InvertedDemons(c: Config): map<string, map<int, string>>
    requires WellFormed(c)
  {
    ReverseIndex(RaceBuckets(c.races), ByLevel(c))
  }

  function LearnedSkills(c: Config): (d: Dict<string, Skill>)
    requires WellFormed(c)
    ensures d.Valid()
  {
    AddLearners(LoadedSkills(c), ByLevel(c))
  }

  function Skills(c: Config): (d: Dict<string, Skill>)
    requires WellFormed(c)
    ensures d.Valid()
  {
    Demoted(LearnedSkills(c))
  }

  function SkillList(c: Config): seq<Skill>
    requires WellFormed(c)
  {
    Learnable(LearnedSkills(c).Values())
  }

  function DemonList(c: Config): seq<BaseDemon>
    requires RecipesKnown(c)
  {
    Enemies(c).Values() + Demons(c).Values()
  }

  // ============================================================ loaded records

  /** A loaded demon is stored under its own name and its record is the last one given for that name. */
  lemma LoadedDemonLookup(c: Config, k: string)
    ensures k in LoadedDemons(c).vals <==> LastWrite(Flatten(c.demonData), k).Some?
    ensures k in LoadedDemons(c).vals ==>
      LoadedDemons(c).vals[k] == NormalizeDemon(k, LastWrite(Flatten(c.demonData), k).value, Tables(c).codes, c.resistCodes)
  {
    LoadedLookupLast(c.demonData, DemonNormalizer(Tables(c).codes, c.resistCodes), k);
  }

  lemma EnemyLookup(c: Config, k: string)
    ensures k in Enemies(c).vals <==> LastWrite(Flatten(c.enemyData), k).Some?
    ensures k in Enemies(c).vals ==>
      Enemies(c).vals[k] == NormalizeEnemy(k, LastWrite(Flatten(c.enemyData), k).value, c.resistCodes)
  {
    LoadedLookupLast(c.enemyData, EnemyNormalizer(c.resistCodes), k);
  }

  lemma LoadedSkillLookup(c: Config, k: string)
    ensures k in LoadedSkills(c).vals <==> LastWrite(Flatten(c.skillData), k).Some?
    ensures k in LoadedSkills(c).vals ==>
      LoadedSkills(c).vals[k] == NormalizeSkill(k, LastWrite(Flatten(c.skillData), k).value, LoadedDemons(c))
  {
    LoadedLookupLast(c.skillData, SkillNormalizer(LoadedDemons(c)), k);
  }

  /** The demons after the special recipes are applied: same names, same records, tagged "special" when some recipe makes them. */
  lemma DemonLookup(c: Config, k: string)
    requires RecipesKnown(c)
    ensures k in Demons(c).vals <==> k in LoadedDemons(c).vals
    ensures k in Demons(c).vals ==>
      Demons(c).vals[k] == if k in Names(c.specialRecipes) then MarkedSpecial(LoadedDemons(c).vals[k]) else LoadedDemons(c).vals[k]
    ensures k in Demons(c).vals ==> Demons(c).vals[k].name == k
  {
    if k in LoadedDemons(c).vals {
      MarkSpecialsSpec(LoadedDemons(c), Names(c.specialRecipes), k);
      LoadedDemonLookup(c, k);
    }
  }

  /** A recipe result is a demon tagged "special". */
  lemma SpecialIsMarked(c: Config, k: string)
    requires RecipesKnown(c) && k in Specials(c).vals
    ensures k in Demons(c).vals && Demons(c).vals[k].fusion == "special"
  {
    PutAllLookup(Empty(), c.specialRecipes, k);
    LastWriteIndex(c.specialRecipes, k);
    var i :| 0 <= i < |c.specialRecipes| && c.specialRecipes[i].0 == k;
    assert Names(c.specialRecipes)[i] == k;
    DemonLookup(c, k);
  }

  /** `specialRecipes[name]` is the last recipe given for `name`. */
  lemma SpecialsLookup(c: Config, k: string)
    ensures Specials(c).Get(k) == LastWrite(c.specialRecipes, k)
  {
    PutAllLookup(Empty(), c.specialRecipes, k);
  }

  /** Every demon of the level-ordered list is one of the demons, under its own name. */
  lemma ByLevelMember(c: Config, d: Demon)
    requires RecipesKnown(c)
    ensures d in ByLevel(c) <==> d.name in Demons(c).vals && Demons(c).vals[d.name] == d
  {
    var ds := Demons(c);
    forall k | k in ds.vals ensures ds.vals[k].name == k {
      DemonLookup(c, k);
    }
    SortedNamedMember(ds, d);
  }

  /** In an object whose records sit under their own names, a record is among the sorted values exactly when it is stored under its name. */
  lemma SortedNamedMember(ds: Dict<string, Demon>, d: Demon)
    requires ds.Valid() && forall k :: k in ds.vals ==> ds.vals[k].name == k
    ensures d in SortBy(ds.Values(), Level) <==> d.name in ds.vals && ds.vals[d.name] == d
  {
    var vs := ds.Values();
    if d in vs {
      var i :| 0 <= i < |vs| && vs[i] == d;
      assert ds.vals[ds.keys[i]] == d;
    }
    if d.name in ds.vals && ds.vals[d.name] == d {
      var i :| 0 <= i < |ds.keys| && ds.keys[i] == d.name;
      assert vs[i] == d;
    }
  }

  // ================================================================== skills

  /** A skill's learners are exactly those the reference definition gives, over the level-ordered demons. */
  lemma LearnedSkillLookup(c: Config, k: string)
    requires WellFormed(c)
    ensures k in LearnedSkills(c).vals <==> k in LoadedSkills(c).vals
    ensures k in LearnedSkills(c).vals ==>
      LearnedSkills(c).vals[k] == LoadedSkills(c).vals[k].(learnedBy := Learners(ByLevel(c), k))
  {
    if k in LoadedSkills(c).vals {
      ByLevelKnown(c);
      AddLearnersSpec(LoadedSkills(c), ByLevel(c), k);
      LoadedSkillLookup(c, k);
    }
  }

  lemma ByLevelKnown(c: Config)
    requires WellFormed(c)
    ensures RacesKnown(ByLevel(c), RaceSet(c.races)) && SkillsKnown(ByLevel(c), LoadedSkills(c).vals.Keys)
  {
  }

  /**
    A skill as the compendium finally holds it: stored under its own name, learnt by exactly the
    reference learners, and demoted to rank 99 when nobody learns it.
   */
  lemma SkillLookup(c: Config, k: string)
    requires WellFormed(c)
    ensures k in Skills(c).vals <==> LastWrite(Flatten(c.skillData), k).Some?
    ensures k in Skills(c).vals ==>
      Skills(c).vals[k] == Demote(LoadedSkills(c).vals[k].(learnedBy := Learners(ByLevel(c), k)))
    ensures k in Skills(c).vals ==>
      Skills(c).vals[k].name == k && Skills(c).vals[k].learnedBy == Learners(ByLevel(c), k)
  {
    LoadedSkillLookup(c, k);
    LearnedSkillLookup(c, k);
  }

  /** The skill list holds exactly the learnt skills of the compendium, with their learners. */
  lemma SkillListMember(c: Config, sk: Skill)
    requires WellFormed(c)
    ensures sk in SkillList(c) <==> sk.name in Skills(c).vals && Skills(c).vals[sk.name] == sk && |sk.learnedBy| >= 1
  {
    var ls := LearnedSkills(c);
    var vs := ls.Values();
    LearnableSpec(vs, sk);
    if sk in vs {
      var i :| 0 <= i < |vs| && vs[i] == sk;
      SkillLookup(c, ls.keys[i]);
    }
    if sk.name in Skills(c).vals && Skills(c).vals[sk.name] == sk && |sk.learnedBy| >= 1 {
      SkillLookup(c, sk.name);
      var i :| 0 <= i < |ls.keys| && ls.keys[i] == sk.name;
      assert vs[i] == sk;
    }
  }

  /** Demoting the skill object again changes nothing, so `updateDerivedData` may be re-run. */
  lemma DemotedTwice(skills: Dict<string, Skill>)
    requires skills.Valid()
    ensures Demoted(Demoted(skills)) == Demoted(skills)
    ensures Learnable(Demoted(skills).Values()) == Learnable(skills.Values())
  {
    DemotedLearnable(skills.Values(), Demoted(skills).Values(), skills.keys, skills.vals);
  }

  lemma {:induction false} DemotedLearnable(vs: seq<Skill>, ws: seq<Skill>, keys: seq<string>, vals: map<string, Skill>)
    requires |vs| == |ws| == |keys|
    requires forall i :: 0 <= i < |keys| ==> keys[i] in vals && vs[i] == vals[keys[i]] && ws[i] == Demote(vals[keys[i]])
    ensures Learnable(ws) == Learnable(vs)
    decreases |vs|
  {
    if vs != [] {
      var n := |vs| - 1;
      DemotedLearnable(vs[..n], ws[..n], keys[..n], vals);
    }
  }
}
