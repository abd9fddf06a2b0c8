/**
  The `Compendium` class of src/app/p4/models/compendium.ts: its constructor runs the two
  passes, which fill the fields, and its accessors answer the fusion chart's queries.
 */
module P4Compendium {
  import opened Options
  import opened Dicts
  import opened Sorting
  import opened Records
  import opened Ingestion
  import opened Indexing
  import opened Aggregation
  import opened Derivation

  /** The sort key of the comparator at compendium.ts:218: element order first, then rank. */
  function SkillOrder(elemOrder: map<string, int>): Skill -> int {
    (sk: Skill) => (if sk.element in elemOrder then elemOrder[sk.element] else 0) * 10000 + sk.rank
  }

  /** With ranks in [0, 10000), the key orders skills by element order and then by rank. */
  lemma SkillOrderLexicographic(elemOrder: map<string, int>, a: Skill, b: Skill)
    requires a.element in elemOrder && b.element in elemOrder
    requires 0 <= a.rank < 10000 && 0 <= b.rank < 10000
    ensures SkillOrder(elemOrder)(a) <= SkillOrder(elemOrder)(b) <==>
      elemOrder[a.element] < elemOrder[b.element] ||
      (elemOrder[a.element] == elemOrder[b.element] && a.rank <= b.rank)
  {
    var ea, eb := elemOrder[a.element], elemOrder[b.element];
    if ea < eb {
      assert ea * 10000 + a.rank < (ea + 1) * 10000 <= eb * 10000 + b.rank;
    } else if ea > eb {
      assert eb * 10000 + b.rank < (eb + 1) * 10000 <= ea * 10000 + a.rank;
    }
  }

  class Compendium {
    const config: Config

    var demons: Dict<string, Demon>
    var enemies: Dict<string, Enemy>
    var skills: Dict<string, Skill>
    var specialRecipes: Dict<string, seq<string>>
    var invertedDemons: map<string, map<int, string>>
    var invertedSpecials: map<string, seq<string>>
    var allIngredients: map<string, seq<int>>
    var allResults: map<string, seq<int>>
    var demonList: seq<BaseDemon>
    var skillList: seq<Skill>
    var inheritTypes: Dict<nat, seq<int>>

    /** The state `initImportedData` leaves: every imported field is what the configuration determines. */
    ghost predicate Imported()
      reads this
    {
      && WellFormed(config)
      && inheritTypes == Tables(config).types
      && demons == Demons(config)
      && enemies == Enemies(config)
      && specialRecipes == Specials(config)
      && invertedDemons == InvertedDemons(config)
      && invertedSpecials == InvertSpecials(config.specialRecipes)
    }

    /** The state after both passes. */
    ghost predicate Valid()
      reads this
    {
      && Imported()
      && skills == Skills(config)
      && skillList == SkillList(config)
      && demonList == DemonList(config)
      && Ranked(allIngredients, config.races, demons.Entries(), {})
      && Ranked(allResults, config.races, demons.Entries(), specialRecipes.vals.Keys)
    }

    /** compendium.ts:20-23. */
    constructor (c: Config)
      requires WellFormed(c)
      ensures config == c && Valid()
    {
      config := c;
      new;
      InitImportedData();
      label imported:
      UpdateDerivedData();
      ImportedKept@imported();
      DemonListOf(config, enemies, demons);
    }

    /** compendium.ts:25-148. */
    method InitImportedData()
      requires WellFormed(config)
      modifies this
      ensures Imported() && skills == LearnedSkills(config)
      ensures unchanged(this`allIngredients, this`allResults, this`demonList, this`skillList)
    {
      var t, ds, es, ss := LoadData(config);
      var specials, marked, inverted := ApplyRecipes(config, ds);
      var inverses, learned := IndexAll(config, marked, ss);
      demons, enemies, skills, specialRecipes := marked, es, learned, specials;
      invertedDemons, invertedSpecials, inheritTypes := inverses, inverted, t.types;
    }

    /**
      compendium.ts:150-189. It reads the demons and the special recipes and rewrites the skill
      object in place, so running it again changes nothing (see `DemotedTwice`).
     */
    method UpdateDerivedData()
      requires demons.Valid() && enemies.Valid() && skills.Valid()
      requires RacesKnown(demons.Values(), RaceSet(config.races))
      modifies this
      ensures demons == old(demons) && enemies == old(enemies) && specialRecipes == old(specialRecipes)
      ensures inheritTypes == old(inheritTypes) && invertedDemons == old(invertedDemons)
      ensures invertedSpecials == old(invertedSpecials)
      ensures skills == Demoted(old(skills)) && skillList == Learnable(old(skills).Values())
      ensures demonList == enemies.Values() + demons.Values()
      ensures Ranked(allIngredients, config.races, demons.Entries(), {})
      ensures Ranked(allResults, config.races, demons.Entries(), specialRecipes.vals.Keys)
    {
      var demoted, learnable, list, ingredients, results :=
        DeriveData(config.races, demons, enemies, specialRecipes.vals.Keys, skills);
      demonList, skillList, allIngredients, allResults, skills := list, learnable, ingredients, results, demoted;
    }

    /** `updateDerivedData` leaves the imported fields alone, so what `initImportedData` established still holds. */
    twostate lemma ImportedKept()
      requires old(Imported())
      requires demons == old(demons) && enemies == old(enemies) && specialRecipes == old(specialRecipes)
      requires inheritTypes == old(inheritTypes) && invertedDemons == old(invertedDemons)
      requires invertedSpecials == old(invertedSpecials)
      ensures Imported()
    {
    }

    /**
      What `get allDemons` and `get specialDemons` rely on: the list built by `updateDerivedData`
      is the enemies followed by the demons (party ones included), every record sits under its own name, and
      every recipe result is a demon tagged "special". `Valid()` implies it (see `ValidListed`).
     */
    ghost predicate Listed()
      reads this
    {
      && enemies.Valid() && demons.Valid() && specialRecipes.Valid()
      && demonList == enemies.Values() + demons.Values()
      && (forall k :: k in enemies.vals ==> enemies.vals[k].name == k)
      && (forall k :: k in demons.vals ==> demons.vals[k].name == k)
      && (forall k :: k in specialRecipes.keys ==> k in demons.vals && demons.vals[k].fusion == "special")
    }

    lemma ValidListed()
      requires Valid()
      ensures Listed()
    {
      AllDemonsNamed();
      SpecialsMarked();
    }

    /** `get allDemons`: the enemies, then the demons (party ones included), each in loading order and under its own name. */
    function AllDemons(): (r: seq<BaseDemon>)
      reads this
      requires Listed()
      ensures |r| == |enemies.keys| + |demons.keys|
      ensures forall i :: 0 <= i < |enemies.keys| ==> r[i] == enemies.vals[enemies.keys[i]] && r[i].name == enemies.keys[i]
      ensures forall i :: |enemies.keys| <= i < |r| ==>
        r[i] == demons.vals[demons.keys[i - |enemies.keys|]] && r[i].name == demons.keys[i - |enemies.keys|]
    {
      ConcatLayout(enemies, demons, demonList);
      demonList
    }

    lemma AllDemonsNamed()
      requires Valid()
      ensures forall k :: k in enemies.vals ==> enemies.vals[k].name == k
      ensures forall k :: k in demons.vals ==> demons.vals[k].name == k
    {
      forall k | k in enemies.vals ensures enemies.vals[k].name == k {
        EnemyLookup(config, k);
      }
      forall k | k in demons.vals ensures demons.vals[k].name == k {
        DemonLookup(config, k);
      }
    }

    /** `get allSkills`: exactly the skills that some demon learns, with their learners. */
    function AllSkills(): (r: seq<Skill>)
      reads this
      requires Valid()
      ensures forall sk :: sk in r <==> sk.name in skills.vals && skills.vals[sk.name] == sk && |sk.learnedBy| >= 1
    {
      AllSkillsMembers();
      skillList
    }

    lemma AllSkillsMembers()
      requires Valid()
      ensures forall sk :: sk in skillList <==> sk.name in skills.vals && skills.vals[sk.name] == sk && |sk.learnedBy| >= 1
    {
      forall sk {
        SkillListMember(config, sk);
      }
    }

    /** `get specialDemons`: the demon of each special recipe, in recipe order, tagged "special". */
    function SpecialDemons(): (r: seq<Demon>)
      reads this
      requires Listed()
      ensures |r| == |specialRecipes.keys|
      ensures forall i :: 0 <= i < |r| ==>
        specialRecipes.keys[i] in demons.vals && r[i] == demons.vals[specialRecipes.keys[i]] && r[i].fusion == "special"
    {
      Pick(demons.vals, specialRecipes.keys)
    }

    lemma SpecialsMarked()
      requires Valid()
      ensures forall k :: k in specialRecipes.keys ==> k in demons.vals && demons.vals[k].fusion == "special"
    {
      forall k | k in specialRecipes.keys ensures k in demons.vals && demons.vals[k].fusion == "special" {
        SpecialIsMarked(config, k);
      }
    }

    /** `getDemon`: the demon of that name (party ones included), else the enemy of that name, else `undefined`. */
    function GetDemon(name: string): (r: Option<BaseDemon>)
      reads this
      requires Valid()
      ensures r.Some? <==> name in demons.vals || name in enemies.vals
      ensures r.Some? ==> r.value.name == name
      ensures name in demons.vals ==> r == Some(demons.vals[name])
      ensures name !in demons.vals && name in enemies.vals ==> r == Some(enemies.vals[name])
    {
      AllDemonsNamed();
      if name in demons.vals then Some(demons.vals[name])
      else if name in enemies.vals then Some(enemies.vals[name])
      else None
    }

    /** `getSkill`: the skill of that name, learnt by exactly the reference learners, rank 99 if by nobody. */
    function GetSkill(name: string): (r: Option<Skill>)
      reads this
      requires Valid()
      ensures r.Some? <==> LastWrite(Flatten(config.skillData), name).Some?
      ensures r.Some? ==> r.value.name == name && r.value.learnedBy == Learners(ByLevel(config), name)
      ensures r.Some? && r.value.learnedBy == [] ==> r.value.rank == 99
    {
      SkillLookup(config, name);
      skills.Get(name)
    }

    /**
      `getSkills`: the looked-up skills sorted by element order, then rank, with one `undefined`
      (`None`) per unknown name at the end, where the sort puts undefined elements.
     */
    function GetSkills(names: seq<string>): (r: seq<Option<Skill>>)
      reads this
      requires forall i :: 0 <= i < |names| && names[i] in skills.vals ==> skills.vals[names[i]].element in config.elemOrder
      ensures |r| == |names|
      ensures multiset(r) == multiset(Lookup(skills.vals, names))
      ensures forall i, j :: 0 <= i < j < |r| && r[j].Some? ==> r[i].Some?
      ensures forall i, j :: 0 <= i < j < |r| && r[i].Some? && r[j].Some? ==>
        SkillOrder(config.elemOrder)(r[i].value) <= SkillOrder(config.elemOrder)(r[j].value)
    {
      var looked := Found(skills.vals, names);
      var sorted := SortBy(looked, SkillOrder(config.elemOrder));
      LookupSplit(skills.vals, names);
      SomesPermutation(sorted, looked);
      SomesThenNones(sorted, Missing(skills.vals, names), SkillOrder(config.elemOrder));
      assert |sorted| == |multiset(sorted)| == |multiset(looked)| == |looked|;
      Somes(sorted) + Nones(Missing(skills.vals, names))
    }

    /** `getIngredientDemonLvls`: the levels of the race's fusable demons, ascending, one per demon. */
    function GetIngredientDemonLvls(race: string): (r: seq<int>)
      reads this
      requires Valid()
      ensures SortedBy(r, Id)
      ensures forall x :: x in r <==> (race in config.races &&
        exists k :: k in demons.vals && NonParty(demons.vals[k]) && demons.vals[k].race == race && demons.vals[k].lvl == x)
      ensures race in config.races ==> forall x :: multiset(r)[x] == |set k | k in demons.vals && InSlot(demons.vals[k], race, x)|
      ensures race in config.races ==> |r| == |set k | k in demons.vals && NonParty(demons.vals[k]) && demons.vals[k].race == race|
      ensures race !in config.races ==> r == []
    {
      RankedLevels(allIngredients, config.races, demons, {}, race);
      if race in allIngredients then IngredientLevels(race); allIngredients[race] else []
    }

    /** A race's ingredient list holds one level per fusable demon of that race. */
    lemma IngredientLevels(race: string)
      requires Valid() && race in config.races
      ensures race in allIngredients
      ensures forall x :: multiset(allIngredients[race])[x] == |set k | k in demons.vals && InSlot(demons.vals[k], race, x)|
      ensures |allIngredients[race]| == |set k | k in demons.vals && NonParty(demons.vals[k]) && demons.vals[k].race == race|
    {
      UnexcludedCounts(allIngredients, config.races, demons, race);
    }

    /** `getResultDemonLvls`: the same, without the demons that a special recipe makes. */
    function GetResultDemonLvls(race: string): (r: seq<int>)
      reads this
      requires Valid()
      ensures SortedBy(r, Id)
      ensures forall x :: x in r <==> (race in config.races &&
        exists k :: k in demons.vals && k !in specialRecipes.vals &&
          NonParty(demons.vals[k]) && demons.vals[k].race == race && demons.vals[k].lvl == x)
      ensures race in config.races ==> forall x ::
        multiset(r)[x] == |set k | k in demons.vals && k !in specialRecipes.vals && InSlot(demons.vals[k], race, x)|
      ensures race in config.races ==>
        |r| == |set k | k in demons.vals && k !in specialRecipes.vals && NonParty(demons.vals[k]) && demons.vals[k].race == race|
      ensures race !in config.races ==> r == []
      ensures multiset(r) <= multiset(GetIngredientDemonLvls(race))
    {
      RankedLevels(allResults, config.races, demons, specialRecipes.vals.Keys, race);
      RankedResults(allIngredients, allResults, config.races, demons, specialRecipes.vals.Keys, race);
      if race in allResults then allResults[race] else []
    }

    /** `getSpecialNameEntries`: the ingredients of the last recipe given for the demon, or none. */
    function GetSpecialNameEntries(name: string): (r: seq<string>)
      reads this
      requires Valid()
      ensures r == if LastWrite(config.specialRecipes, name).Some? then LastWrite(config.specialRecipes, name).value else []
    {
      SpecialsLookup(config, name);
      if name in specialRecipes.vals then specialRecipes.vals[name] else []
    }

    /** `getInheritElems`: the ratio vector of the last inheritance category with that code. */
    function GetInheritElems(code: int): (r: Option<seq<int>>)
      reads this
      requires Valid()
      ensures r.Some? <==> (code >= 0 &&
        exists i :: 0 <= i < |config.inheritTypes| && InheritCode(config.inheritTypes[i].1, InheritThreshold(config.races)) == Some(code))
      ensures forall i :: code >= 0 && LastWithCode(config.inheritTypes, InheritThreshold(config.races), code, i) ==>
        r == Some(config.inheritTypes[i].1)
    {
      if code < 0 then None
      else
        InheritTypesLastWriter(config.inheritTypes, InheritThreshold(config.races), code);
        inheritTypes.Get(code)
    }

    /** `reverseLookupDemon`: the last fusable demon of that race and level in level-sorted order, if there is one. */
    function ReverseLookupDemon(race: string, lvl: int): (r: Option<string>)
      reads this
      requires Valid() && race in config.races
      ensures r.Some? <==> exists k :: k in demons.vals && InSlot(demons.vals[k], race, lvl)
      ensures r.Some? ==> r.value in demons.vals && InSlot(demons.vals[r.value], race, lvl)
      ensures forall i :: LastInSlot(ByLevel(config), race, lvl, i) ==> r == Some(ByLevel(config)[i].name)
    {
      ReverseLookupSpec(race, lvl);
      if lvl in invertedDemons[race] then Some(invertedDemons[race][lvl]) else None
    }

    lemma ReverseLookupSpec(race: string, lvl: int)
      requires Valid() && race in config.races
      ensures race in invertedDemons
      ensures lvl in invertedDemons[race] <==> exists k :: k in demons.vals && InSlot(demons.vals[k], race, lvl)
      ensures lvl in invertedDemons[race] ==>
        invertedDemons[race][lvl] in demons.vals && InSlot(demons.vals[invertedDemons[race][lvl]], race, lvl)
      ensures forall i :: LastInSlot(ByLevel(config), race, lvl, i) ==>
        lvl in invertedDemons[race] && invertedDemons[race][lvl] == ByLevel(config)[i].name
    {
      var ds := ByLevel(config);
      var buckets := RaceBuckets(config.races);
      ReverseIndexDomain(buckets, ds, race, lvl);
      forall i | LastInSlot(ds, race, lvl, i)
        ensures lvl in invertedDemons[race] && invertedDemons[race][lvl] == ds[i].name
      {
        ReverseIndexLast(buckets, ds, race, lvl, i);
      }
      if exists i :: 0 <= i < |ds| && InSlot(ds[i], race, lvl) {
        var i := LastSlot(ds, race, lvl);
        ReverseIndexLast(buckets, ds, race, lvl, i);
        ByLevelMember(config, ds[i]);
      }
      if exists k :: k in demons.vals && InSlot(demons.vals[k], race, lvl) {
        var k :| k in demons.vals && InSlot(demons.vals[k], race, lvl);
        DemonLookup(config, k);
        ByLevelMember(config, demons.vals[k]);
        var j :| 0 <= j < |ds| && ds[j] == demons.vals[k];
      }
    }

    /** `reverseLookupSpecial`: every two-ingredient recipe result with that ingredient, in recipe order. */
    function ReverseLookupSpecial(ingredient: string): (r: seq<string>)
      reads this
      requires Valid()
      ensures r == Producers(config.specialRecipes, ingredient)
      ensures forall name :: name in r <==>
        (exists i :: 0 <= i < |config.specialRecipes| &&
          config.specialRecipes[i].0 == name && |config.specialRecipes[i].1| == 2 && ingredient in config.specialRecipes[i].1)
    {
      InvertSpecialsSpec(config.specialRecipes, ingredient);
      ProducersAll(config.specialRecipes, ingredient);
      if ingredient in invertedSpecials then invertedSpecials[ingredient] else []
    }
  }

  /** compendium.ts:34-112: the inheritance tables, then the demon, enemy and skill records. */
  method LoadData(c: Config) returns (t: InheritTable, ds: Dict<string, Demon>, es: Dict<string, Enemy>, ss: Dict<string, Skill>)
    ensures t == Tables(c) && ds == LoadedDemons(c) && es == Enemies(c) && ss == LoadedSkills(c)
  {
    t := ComputeInheritTypes(c.races, c.inheritTypes);
    ds := LoadRecords(c.demonData, DemonNormalizer(t.codes, c.resistCodes));
    es := LoadRecords(c.enemyData, EnemyNormalizer(c.resistCodes));
    ss := LoadRecords(c.skillData, SkillNormalizer(ds));
  }

  /** compendium.ts:114-125: the special recipes, read back as the configuration's definitions. */
  method ApplyRecipes(c: Config, ds: Dict<string, Demon>)
      returns (specials: Dict<string, seq<string>>, marked: Dict<string, Demon>, inverted: map<string, seq<string>>)
    requires RecipesKnown(c) && ds == LoadedDemons(c)
    ensures specials == Specials(c) && marked == Demons(c) && inverted == InvertSpecials(c.specialRecipes)
  {
    specials, marked, inverted := ApplySpecials(c.specialRecipes, ds);
  }

  /** compendium.ts:127-139: the reverse index and the learners, read back as the configuration's definitions. */
  method IndexAll(c: Config, demons: Dict<string, Demon>, skills: Dict<string, Skill>)
      returns (inverses: map<string, map<int, string>>, learned: Dict<string, Skill>)
    requires WellFormed(c) && demons == Demons(c) && skills == LoadedSkills(c)
    ensures inverses == InvertedDemons(c) && learned == LearnedSkills(c)
  {
    inverses, learned := IndexDemons(c.races, demons, skills);
  }

  /** compendium.ts:150-189 on values: the demoted skills, the learnable ones, the demon list and the level arrays. */
  method DeriveData(races: seq<string>, demons: Dict<string, Demon>, enemies: Dict<string, Enemy>,
                    specials: set<string>, skills: Dict<string, Skill>)
      returns (demoted: Dict<string, Skill>, learnable: seq<Skill>, list: seq<BaseDemon>,
               ingredients: map<string, seq<int>>, results: map<string, seq<int>>)
    requires demons.Valid() && enemies.Valid() && skills.Valid()
    requires RacesKnown(demons.Values(), RaceSet(races))
    ensures demoted == Demoted(skills) && learnable == Learnable(skills.Values())
    ensures list == enemies.Values() + demons.Values()
    ensures Ranked(ingredients, races, demons.Entries(), {})
    ensures Ranked(results, races, demons.Entries(), specials)
  {
    demoted, learnable := PartitionSkills(skills);
    EntriesKnown(demons, RaceSet(races));
    ingredients, results := RankArrays(races, demons.Entries(), specials);
    var allies := demons.Values();
    var foes := enemies.Values();
    list := foes + allies;
  }

  /** The list `updateDerivedData` builds from the imported enemies and demons. */
  lemma DemonListOf(c: Config, enemies: Dict<string, Enemy>, demons: Dict<string, Demon>)
    requires RecipesKnown(c) && enemies == Enemies(c) && demons == Demons(c)
    ensures enemies.Values() + demons.Values() == DemonList(c)
  {
  }

  lemma ProducersAll(recipes: seq<(string, seq<string>)>, x: string)
    ensures forall name :: name in Producers(recipes, x) <==>
      (exists i :: 0 <= i < |recipes| && recipes[i].0 == name && |recipes[i].1| == 2 && x in recipes[i].1)
  {
    forall name {
      ProducersMember(recipes, x, name);
    }
  }

  /** The index of the last demon in a slot, when the slot has one. */
  lemma {:induction false} LastSlot(ds: seq<Demon>, race: string, lvl: int) returns (i: int)
    requires exists i :: 0 <= i < |ds| && InSlot(ds[i], race, lvl)
    ensures LastInSlot(ds, race, lvl, i)
    decreases |ds|
  {
    var n := |ds| - 1;
    if InSlot(ds[n], race, lvl) {
      i := n;
    } else {
      var prefix := ds[..n];
      var j :| 0 <= j < |ds| && InSlot(ds[j], race, lvl);
      assert prefix[j] == ds[j];
      i := LastSlot(prefix, race, lvl);
      assert prefix[i] == ds[i];
    }
  }

  /** The entries of the demon object inherit its values' race constraint. */
  lemma EntriesKnown(demons: Dict<string, Demon>, races: set<string>)
    requires demons.Valid() && RacesKnown(demons.Values(), races)
    ensures forall i :: 0 <= i < |demons.Entries()| && NonParty(demons.Entries()[i].1) ==> demons.Entries()[i].1.race in races
  {
    var es, vs := demons.Entries(), demons.Values();
    forall i | 0 <= i < |es| && NonParty(es[i].1) ensures es[i].1.race in races {
      assert es[i].1 == vs[i];
    }
  }

  /** The value stored under each name, in the order of the names. */
  function Pick<V(!new)>(vals: map<string, V>, names: seq<string>): (r: seq<V>)
    requires forall k :: k in names ==> k in vals
    ensures |r| == |names| && forall i :: 0 <= i < |names| ==> r[i] == vals[names[i]]
    ensures forall v :: v in r <==> exists i :: 0 <= i < |names| && v == vals[names[i]]
  {
    var r := seq(|names|, i requires 0 <= i < |names| => vals[names[i]]);
    assert forall i :: 0 <= i < |names| ==> r[i] == vals[names[i]];
    r
  }

  /** The values of the names that have one, in the order of the names. */
  function Found<V>(vals: map<string, V>, names: seq<string>): seq<V>
    decreases |names|
  {
    if names == [] then []
    else
      var n := |names| - 1;
      Found(vals, names[..n]) + (if names[n] in vals then [vals[names[n]]] else [])
  }

  /** The number of names without a value. */
  function Missing<V>(vals: map<string, V>, names: seq<string>): nat
    decreases |names|
  {
    if names == [] then 0
    else
      var n := |names| - 1;
      Missing(vals, names[..n]) + (if names[n] in vals then 0 else 1)
  }

  /** The value stored under each name, `None` standing for `undefined`, in the order of the names. */
  function Lookup<V>(vals: map<string, V>, names: seq<string>): (r: seq<Option<V>>)
    ensures |r| == |names|
    ensures forall i :: 0 <= i < |names| ==> r[i] == if names[i] in vals then Some(vals[names[i]]) else None
  {
    seq(|names|, i requires 0 <= i < |names| => if names[i] in vals then Some(vals[names[i]]) else None)
  }

  function Somes<V>(s: seq<V>): (r: seq<Option<V>>)
    ensures |r| == |s| && forall i :: 0 <= i < |s| ==> r[i] == Some(s[i])
  {
    seq(|s|, i requires 0 <= i < |s| => Some(s[i]))
  }

  function Nones<V>(n: nat): (r: seq<Option<V>>)
    ensures |r| == n && forall i :: 0 <= i < n ==> r[i] == None
  {
    seq(n, i => None)
  }

  /** Each value occurs among its `Some`s as often as in the sequence, and `None` never does. */
  lemma {:induction false} SomesCount<V>(s: seq<V>, o: Option<V>)
    ensures multiset(Somes(s))[o] == if o.Some? then multiset(s)[o.value] else 0
    decreases |s|
  {
    if s != [] {
      var n := |s| - 1;
      SomesCount(s[..n], o);
      assert Somes(s) == Somes(s[..n]) + [Some(s[n])];
      assert s == s[..n] + [s[n]];
    }
  }

  /** Wrapping a permutation in `Some` gives a permutation. */
  lemma SomesPermutation<V>(a: seq<V>, b: seq<V>)
    requires multiset(a) == multiset(b)
    ensures multiset(Somes(a)) == multiset(Somes(b))
  {
    forall o ensures multiset(Somes(a))[o] == multiset(Somes(b))[o] {
      SomesCount(a, o);
      SomesCount(b, o);
    }
  }

  /** The lookups of some names are the values of the known names, and one `undefined` per unknown name. */
  lemma {:induction false} LookupSplit<V>(vals: map<string, V>, names: seq<string>)
    ensures multiset(Lookup(vals, names)) == multiset(Somes(Found(vals, names))) + multiset(Nones<V>(Missing(vals, names)))
    ensures |Found(vals, names)| + Missing(vals, names) == |names|
    decreases |names|
  {
    if names != [] {
      var n := |names| - 1;
      LookupSplit(vals, names[..n]);
      LookupSnoc(vals, names);
      if names[n] in vals {
        FoundStep(vals, names);
      } else {
        MissingStep(vals, names);
      }
    }
  }

  /** A known last name adds its value to the found ones. */
  lemma FoundStep<V>(vals: map<string, V>, names: seq<string>)
    requires names != [] && names[|names| - 1] in vals
    requires var n := |names| - 1;
      multiset(Lookup(vals, names[..n])) == multiset(Somes(Found(vals, names[..n]))) + multiset(Nones<V>(Missing(vals, names[..n])))
    requires var n := |names| - 1; Lookup(vals, names) == Lookup(vals, names[..n]) + [Some(vals[names[n]])]
    ensures multiset(Lookup(vals, names)) == multiset(Somes(Found(vals, names))) + multiset(Nones<V>(Missing(vals, names)))
  {
    var n := |names| - 1;
    var found := Found(vals, names[..n]);
    var u := Missing(vals, names[..n]);
    var o := Some(vals[names[n]]);
    SomesSnoc(found, vals[names[n]]);
    calc {
      multiset(Lookup(vals, names));
      multiset(Lookup(vals, names[..n]) + [o]);
      multiset(Somes(found)) + multiset(Nones<V>(u)) + multiset{o};
      multiset(Somes(found) + [o]) + multiset(Nones<V>(u));
      { assert Found(vals, names) == found + [vals[names[n]]] && Missing(vals, names) == u; }
      multiset(Somes(Found(vals, names))) + multiset(Nones<V>(Missing(vals, names)));
    }
  }

  /** An unknown last name adds one `undefined`. */
  lemma MissingStep<V>(vals: map<string, V>, names: seq<string>)
    requires names != [] && names[|names| - 1] !in vals
    requires var n := |names| - 1;
      multiset(Lookup(vals, names[..n])) == multiset(Somes(Found(vals, names[..n]))) + multiset(Nones<V>(Missing(vals, names[..n])))
    requires var n := |names| - 1; Lookup(vals, names) == Lookup(vals, names[..n]) + [None]
    ensures multiset(Lookup(vals, names)) == multiset(Somes(Found(vals, names))) + multiset(Nones<V>(Missing(vals, names)))
  {
    var n := |names| - 1;
    var found := Found(vals, names[..n]);
    var u := Missing(vals, names[..n]);
    NonesSnoc<V>(u);
    calc {
      multiset(Lookup(vals, names));
      multiset(Lookup(vals, names[..n]) + [None]);
      multiset(Somes(found)) + multiset(Nones<V>(u)) + multiset{None};
      multiset(Somes(found)) + multiset(Nones<V>(u) + [None]);
      { assert Found(vals, names) == found && Missing(vals, names) == u + 1; }
      multiset(Somes(Found(vals, names))) + multiset(Nones<V>(Missing(vals, names)));
    }
  }

  lemma LookupSnoc<V>(vals: map<string, V>, names: seq<string>)
    requires names != []
    ensures var n := |names| - 1;
      Lookup(vals, names) == Lookup(vals, names[..n]) + [if names[n] in vals then Some(vals[names[n]]) else None]
  {
  }

  lemma SomesSnoc<V>(s: seq<V>, x: V)
    ensures Somes(s + [x]) == Somes(s) + [Some(x)]
  {
  }

  lemma NonesSnoc<V>(n: nat)
    ensures Nones<V>(n + 1) == Nones<V>(n) + [None]
  {
  }

  /** Sorted values followed by `undefined`s: every `undefined` comes last and the values keep their order. */
  lemma SomesThenNones<V>(s: seq<V>, u: nat, key: V -> int)
    requires SortedBy(s, key)
    ensures var r := Somes(s) + Nones<V>(u);
      && (forall i, j :: 0 <= i < j < |r| && r[j].Some? ==> r[i].Some?)
      && (forall i, j :: 0 <= i < j < |r| && r[i].Some? && r[j].Some? ==> key(r[i].value) <= key(r[j].value))
  {
    var r := Somes(s) + Nones<V>(u);
    assert forall i :: 0 <= i < |r| ==> (r[i].Some? <==> i < |s|) && (i < |s| ==> r[i] == Some(s[i]));
  }

  /** The levels listed for a race from the entries of the demon object, described by its values. */
  lemma EntriesLevels(demons: Dict<string, Demon>, race: string, excluded: set<string>)
    requires demons.Valid()
    ensures forall x :: x in Levels(demons.Entries(), race, excluded) <==>
      exists k :: k in demons.vals && k !in excluded && NonParty(demons.vals[k]) && demons.vals[k].race == race && demons.vals[k].lvl == x
  {
    var es := demons.Entries();
    forall x ensures x in Levels(es, race, excluded) <==>
      exists k :: k in demons.vals && k !in excluded && NonParty(demons.vals[k]) && demons.vals[k].race == race && demons.vals[k].lvl == x
    {
      LevelsMember(es, race, excluded, x);
      if exists k :: k in demons.vals && k !in excluded && NonParty(demons.vals[k]) && demons.vals[k].race == race && demons.vals[k].lvl == x {
        var k :| k in demons.vals && k !in excluded && NonParty(demons.vals[k]) && demons.vals[k].race == race && demons.vals[k].lvl == x;
        var i :| 0 <= i < |demons.keys| && demons.keys[i] == k;
        assert es[i] == (k, demons.vals[k]);
      }
    }
  }

  /** How often a level is listed for a race, and how many levels are, counted over the demons' names. */
  lemma EntriesCount(demons: Dict<string, Demon>, race: string, excluded: set<string>, x: int)
    requires demons.Valid()
    ensures multiset(Levels(demons.Entries(), race, excluded))[x] ==
      |set k | k in demons.vals && k !in excluded && InSlot(demons.vals[k], race, x)|
    ensures |Levels(demons.Entries(), race, excluded)| ==
      |set k | k in demons.vals && k !in excluded && NonParty(demons.vals[k]) && demons.vals[k].race == race|
  {
    LevelsCount(demons.Entries(), race, excluded, x);
    PushedAtNamed(demons, race, excluded, x);
    PushedNamed(demons, race, excluded);
  }

  lemma PushedAtNamed(demons: Dict<string, Demon>, race: string, excluded: set<string>, x: int)
    requires demons.Valid()
    ensures PushedNamesAt(demons.Entries(), race, excluded, x) ==
      set k | k in demons.vals && k !in excluded && InSlot(demons.vals[k], race, x)
  {
    var es := demons.Entries();
    forall k | k in demons.vals && k !in excluded && InSlot(demons.vals[k], race, x)
      ensures k in PushedNamesAt(es, race, excluded, x)
    {
      var i :| 0 <= i < |demons.keys| && demons.keys[i] == k;
      assert es[i] == (k, demons.vals[k]);
    }
  }

  lemma PushedNamed(demons: Dict<string, Demon>, race: string, excluded: set<string>)
    requires demons.Valid()
    ensures PushedNames(demons.Entries(), race, excluded) ==
      set k | k in demons.vals && k !in excluded && NonParty(demons.vals[k]) && demons.vals[k].race == race
  {
    var es := demons.Entries();
    forall k | k in demons.vals && k !in excluded && NonParty(demons.vals[k]) && demons.vals[k].race == race
      ensures k in PushedNames(es, race, excluded)
    {
      var i :| 0 <= i < |demons.keys| && demons.keys[i] == k;
      assert es[i] == (k, demons.vals[k]);
    }
  }

  /** The counts of a ranked map's lists: one level per fitting demon. */
  lemma RankedCounts(m: map<string, seq<int>>, races: seq<string>, demons: Dict<string, Demon>, excluded: set<string>, race: string)
    requires demons.Valid() && Ranked(m, races, demons.Entries(), excluded) && race in m
    ensures forall x :: multiset(m[race])[x] == |set k | k in demons.vals && k !in excluded && InSlot(demons.vals[k], race, x)|
    ensures |m[race]| == |set k | k in demons.vals && k !in excluded && NonParty(demons.vals[k]) && demons.vals[k].race == race|
  {
    var levels := Levels(demons.Entries(), race, excluded);
    assert m[race] == SortBy(levels, Id);
    assert |m[race]| == |multiset(m[race])| == |multiset(levels)| == |levels|;
    EntriesCount(demons, race, excluded, 0);
    forall x ensures multiset(m[race])[x] == |set k | k in demons.vals && k !in excluded && InSlot(demons.vals[k], race, x)| {
      EntriesCount(demons, race, excluded, x);
    }
  }

  /** With nothing excluded, a ranked list holds one level per fusable demon of the race. */
  lemma UnexcludedCounts(m: map<string, seq<int>>, races: seq<string>, demons: Dict<string, Demon>, race: string)
    requires demons.Valid() && Ranked(m, races, demons.Entries(), {}) && race in races
    ensures race in m
    ensures forall x :: multiset(m[race])[x] == |set k | k in demons.vals && InSlot(demons.vals[k], race, x)|
    ensures |m[race]| == |set k | k in demons.vals && NonParty(demons.vals[k]) && demons.vals[k].race == race|
  {
    var none: set<string> := {};
    RankedCounts(m, races, demons, none, race);
    forall x ensures multiset(m[race])[x] == |set k | k in demons.vals && InSlot(demons.vals[k], race, x)| {
      NoneExcluded(demons.vals, none, race, x);
    }
    NoneExcluded(demons.vals, none, race, 0);
  }

  /** Excluding no name selects the same demons. */
  lemma NoneExcluded(vals: map<string, Demon>, none: set<string>, race: string, x: int)
    requires none == {}
    ensures (set k | k in vals && k !in none && InSlot(vals[k], race, x)) == (set k | k in vals && InSlot(vals[k], race, x))
    ensures (set k | k in vals && k !in none && NonParty(vals[k]) && vals[k].race == race) ==
      (set k | k in vals && NonParty(vals[k]) && vals[k].race == race)
  {
  }

  /** The per-race lists of a ranked map, described by the demons' values. */
  lemma RankedLevels(m: map<string, seq<int>>, races: seq<string>, demons: Dict<string, Demon>, excluded: set<string>, race: string)
    requires demons.Valid() && Ranked(m, races, demons.Entries(), excluded)
    ensures race in m <==> race in races
    ensures race in m ==> SortedBy(m[race], Id)
    ensures race in m ==> forall x :: x in m[race] <==>
      exists k :: k in demons.vals && k !in excluded && NonParty(demons.vals[k]) && demons.vals[k].race == race && demons.vals[k].lvl == x
    ensures race in m ==> forall x :: multiset(m[race])[x] == |set k | k in demons.vals && k !in excluded && InSlot(demons.vals[k], race, x)|
    ensures race in m ==> |m[race]| == |set k | k in demons.vals && k !in excluded && NonParty(demons.vals[k]) && demons.vals[k].race == race|
  {
    if race in m {
      RankedMembers(m, races, demons, excluded, race);
      RankedCounts(m, races, demons, excluded, race);
    }
  }

  lemma RankedMembers(m: map<string, seq<int>>, races: seq<string>, demons: Dict<string, Demon>, excluded: set<string>, race: string)
    requires demons.Valid() && Ranked(m, races, demons.Entries(), excluded) && race in m
    ensures forall x :: x in m[race] <==>
      exists k :: k in demons.vals && k !in excluded && NonParty(demons.vals[k]) && demons.vals[k].race == race && demons.vals[k].lvl == x
  {
    var levels := Levels(demons.Entries(), race, excluded);
    assert m[race] == SortBy(levels, Id);
    EntriesLevels(demons, race, excluded);
  }

  /** Every result level of a race is one of its ingredient levels, as often. */
  lemma RankedResults(ingredients: map<string, seq<int>>, results: map<string, seq<int>>, races: seq<string>,
                      demons: Dict<string, Demon>, specials: set<string>, race: string)
    requires demons.Valid()
    requires Ranked(ingredients, races, demons.Entries(), {}) && Ranked(results, races, demons.Entries(), specials)
    ensures multiset(if race in results then results[race] else []) <= multiset(if race in ingredients then ingredients[race] else [])
  {
    if race in results {
      LevelsExcluded(demons.Entries(), race, specials);
    }
  }

  /** `enemies.concat(allies)`, indexed, with every record under its own name. */
  lemma ConcatLayout(enemies: Dict<string, Enemy>, demons: Dict<string, Demon>, r: seq<BaseDemon>)
    requires enemies.Valid() && demons.Valid() && r == enemies.Values() + demons.Values()
    requires forall k :: k in enemies.vals ==> enemies.vals[k].name == k
    requires forall k :: k in demons.vals ==> demons.vals[k].name == k
    ensures |r| == |enemies.keys| + |demons.keys|
    ensures forall i :: 0 <= i < |enemies.keys| ==> r[i] == enemies.vals[enemies.keys[i]] && r[i].name == enemies.keys[i]
    ensures forall i :: |enemies.keys| <= i < |r| ==>
      r[i] == demons.vals[demons.keys[i - |enemies.keys|]] && r[i].name == demons.keys[i - |enemies.keys|]
  {
  }
}
