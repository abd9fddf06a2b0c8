/**
  The last two loops of `initImportedData` (src/app/p4/models/compendium.ts:127-139): the
  reverse lookup from race and level to a demon's name, and the learners of every skill.
 */
module Indexing {
  import opened Options
  import opened Dicts
  import opened Sorting
  import opened Records

  /** The sort key of `(a, b) => a.lvl - b.lvl`. */
  function Level(d: Demon): int { d.lvl }

  /** The listed races, as a set. */
  function RaceSet(races: seq<string>): set<string> {
    set r | r in races
  }

  /** Every demon that takes part in fusion has a race the configuration lists. */
  ghost predicate RacesKnown(ds: seq<Demon>, races: set<string>) {
    forall d :: d in ds && NonParty(d) ==> d.race in races
  }

  /** Every skill a demon learns is a known skill. */
  ghost predicate SkillsKnown(ds: seq<Demon>, skills: set<string>) {
    forall d, j :: d in ds && 0 <= j < |d.skills| ==> d.skills[j].0 in skills
  }

  lemma PrefixKnown(ds: seq<Demon>, n: int, races: set<string>, skills: set<string>)
    requires 0 <= n <= |ds|
    ensures RacesKnown(ds, races) ==> RacesKnown(ds[..n], races)
    ensures SkillsKnown(ds, skills) ==> SkillsKnown(ds[..n], skills)
  {
    assert forall d :: d in ds[..n] ==> d in ds;
  }

  // ============================================================== reverse index

  /** `inverses[race] = {}` for each race in turn (compendium.ts:127-129). */
  function RaceBuckets(races: seq<string>): (m: map<string, map<int, string>>)
    ensures m.Keys == set r | r in races
    ensures forall r :: r in m ==> m[r] == map[]
    decreases |races|
  {
    if races == [] then map[]
    else
      var n := |races| - 1;
      assert forall r :: r in races <==> r in races[..n] || r == races[n] by {
        SnocLast(races);
      }
      RaceBuckets(races[..n])[races[n] := map[]]
  }

  /** Each fusable demon in turn writes its name into the slot of its race and level (compendium.ts:131-134). */
  function ReverseIndex(inv: map<string, map<int, string>>, ds: seq<Demon>): (r: map<string, map<int, string>>)
    requires RacesKnown(ds, inv.Keys)
    ensures r.Keys == inv.Keys
    decreases |ds|
  {
    if ds == [] then inv
    else
      var n := |ds| - 1;
      PrefixKnown(ds, n, inv.Keys, {});
      var m := ReverseIndex(inv, ds[..n]);
      var d := ds[n];
      if NonParty(d) then m[d.race := m[d.race][d.lvl := d.name]] else m
  }

  /** Demon `i` is the last fusable demon of `race` at level `lvl`. */
  ghost predicate LastInSlot(ds: seq<Demon>, race: string, lvl: int, i: int) {
    && 0 <= i < |ds| && InSlot(ds[i], race, lvl)
    && forall j :: i < j < |ds| ==> !InSlot(ds[j], race, lvl)
  }

  predicate InSlot(d: Demon, race: string, lvl: int) {
    NonParty(d) && d.race == race && d.lvl == lvl
  }

  /** A slot of the reverse index is filled exactly when it was before or some fusable demon has that race and level. */
  lemma {:induction false} ReverseIndexDomain(inv: map<string, map<int, string>>, ds: seq<Demon>, race: string, lvl: int)
    requires RacesKnown(ds, inv.Keys) && race in inv
    ensures lvl in ReverseIndex(inv, ds)[race] <==>
      lvl in inv[race] || exists i :: 0 <= i < |ds| && InSlot(ds[i], race, lvl)
    decreases |ds|
  {
    if ds != [] {
      var n := |ds| - 1;
      var prefix := ds[..n];
      PrefixKnown(ds, n, inv.Keys, {});
      ReverseIndexDomain(inv, prefix, race, lvl);
      assert forall i :: 0 <= i < n ==> prefix[i] == ds[i];
    }
  }

  /** A filled slot names the last fusable demon of that race and level. */
  lemma {:induction false} ReverseIndexLast(inv: map<string, map<int, string>>, ds: seq<Demon>, race: string, lvl: int, i: int)
    requires RacesKnown(ds, inv.Keys) && race in inv
    requires LastInSlot(ds, race, lvl, i)
    ensures lvl in ReverseIndex(inv, ds)[race] && ReverseIndex(inv, ds)[race][lvl] == ds[i].name
    decreases |ds|
  {
    var n := |ds| - 1;
    var prefix := ds[..n];
    PrefixKnown(ds, n, inv.Keys, {});
    if i < n {
      assert !InSlot(ds[n], race, lvl);
      assert LastInSlot(prefix, race, lvl, i);
      ReverseIndexLast(inv, prefix, race, lvl, i);
    }
  }

  // =================================================================== learners

  /** The learner records a demon contributes to skill `s`: one per entry of its skill table naming `s`. */
  function LearnedFrom(name: string, entries: seq<(string, int)>, s: string): seq<DemonLevel>
    decreases |entries|
  {
    if entries == [] then []
    else
      var n := |entries| - 1;
      LearnedFrom(name, entries[..n], s) + (if entries[n].0 == s then [DemonLevel(name, entries[n].1)] else [])
  }

  /** The reference definition of `skill.learnedBy`: the learners of `s`, demon by demon in the order visited. */
  function Learners(ds: seq<Demon>, s: string): seq<DemonLevel>
    decreases |ds|
  {
    if ds == [] then []
    else
      var n := |ds| - 1;
      Learners(ds[..n], s) + LearnedFrom(ds[n].name, ds[n].skills, s)
  }

  /** The skill with `extra` appended to its learners, and nothing else changed. */
  function WithLearners(sk: Skill, extra: seq<DemonLevel>): Skill {
    sk.(learnedBy := sk.learnedBy + extra)
  }

  lemma WithLearnersTwice(sk: Skill, a: seq<DemonLevel>, b: seq<DemonLevel>)
    ensures WithLearners(WithLearners(sk, a), b) == WithLearners(sk, a + b)
  {
    assert sk.learnedBy + a + b == sk.learnedBy + (a + b);
  }

  /** `skills[name].learnedBy` with one more record. */
  function AddLearner(skills: Dict<string, Skill>, s: string, dl: DemonLevel): (r: Dict<string, Skill>)
    requires skills.Valid() && s in skills.vals
    ensures r.Valid() && r.keys == skills.keys && r.vals.Keys == skills.vals.Keys
  {
    skills.Put(s, WithLearners(skills.vals[s], [dl]))
  }

  /** The pushes for one demon's skill table (compendium.ts:137-139). */
  function AddEntries(skills: Dict<string, Skill>, name: string, entries: seq<(string, int)>): (r: Dict<string, Skill>)
    requires skills.Valid() && forall j :: 0 <= j < |entries| ==> entries[j].0 in skills.vals
    ensures r.Valid() && r.keys == skills.keys && r.vals.Keys == skills.vals.Keys
    decreases |entries|
  {
    if entries == [] then skills
    else
      var n := |entries| - 1;
      AddLearner(AddEntries(skills, name, entries[..n]), entries[n].0, DemonLevel(name, entries[n].1))
  }

  /** The pushes for every demon in turn. */
  function AddLearners(skills: Dict<string, Skill>, ds: seq<Demon>): (r: Dict<string, Skill>)
    requires skills.Valid() && SkillsKnown(ds, skills.vals.Keys)
    ensures r.Valid() && r.keys == skills.keys && r.vals.Keys == skills.vals.Keys
    decreases |ds|
  {
    if ds == [] then skills
    else
      var n := |ds| - 1;
      PrefixKnown(ds, n, {}, skills.vals.Keys);
      assert ds[n] in ds;
      AddEntries(AddLearners(skills, ds[..n]), ds[n].name, ds[n].skills)
  }

  lemma {:induction false} AddEntriesSpec(skills: Dict<string, Skill>, name: string, entries: seq<(string, int)>, k: string)
    requires skills.Valid() && forall j :: 0 <= j < |entries| ==> entries[j].0 in skills.vals
    requires k in skills.vals
    ensures AddEntries(skills, name, entries).vals[k] == WithLearners(skills.vals[k], LearnedFrom(name, entries, k))
    decreases |entries|
  {
    if entries != [] {
      var n := |entries| - 1;
      AddEntriesSpec(skills, name, entries[..n], k);
      var before := LearnedFrom(name, entries[..n], k);
      if entries[n].0 == k {
        WithLearnersTwice(skills.vals[k], before, [DemonLevel(name, entries[n].1)]);
      } else {
        assert before + [] == before;
      }
    }
  }

  /**
    After the pushes, each skill's learners are its old learners followed by the reference
    learners; every other field of the skill and the order of the skills stay as they were.
   */
  lemma {:induction false} AddLearnersSpec(skills: Dict<string, Skill>, ds: seq<Demon>, k: string)
    requires skills.Valid() && SkillsKnown(ds, skills.vals.Keys) && k in skills.vals
    ensures AddLearners(skills, ds).vals[k] == WithLearners(skills.vals[k], Learners(ds, k))
    decreases |ds|
  {
    if ds != [] {
      var n := |ds| - 1;
      PrefixKnown(ds, n, {}, skills.vals.Keys);
      assert ds[n] in ds;
      AddLearnersSpec(skills, ds[..n], k);
      AddEntriesSpec(AddLearners(skills, ds[..n]), ds[n].name, ds[n].skills, k);
      WithLearnersTwice(skills.vals[k], Learners(ds[..n], k), LearnedFrom(ds[n].name, ds[n].skills, k));
    }
  }

  lemma {:induction false} LearnedFromMember(name: string, entries: seq<(string, int)>, s: string, dl: DemonLevel)
    ensures dl in LearnedFrom(name, entries, s) <==> dl.demon == name && (s, dl.level) in entries
    decreases |entries|
  {
    if entries != [] {
      var n := |entries| - 1;
      LearnedFromMember(name, entries[..n], s, dl);
      SnocLast(entries);
    }
  }

  /** A learner record names a visited demon whose skill table lists the skill at that level. */
  lemma {:induction false} LearnersMember(ds: seq<Demon>, s: string, dl: DemonLevel)
    ensures dl in Learners(ds, s) <==>
      exists i :: 0 <= i < |ds| && ds[i].name == dl.demon && (s, dl.level) in ds[i].skills
    decreases |ds|
  {
    if ds != [] {
      var n := |ds| - 1;
      var prefix := ds[..n];
      LearnersMember(prefix, s, dl);
      LearnedFromMember(ds[n].name, ds[n].skills, s, dl);
      assert forall i :: 0 <= i < n ==> prefix[i] == ds[i];
    }
  }

  // ===================================================================== the loop

  /** The inner loop at compendium.ts:137-139: the demon is pushed onto the learners of each skill it lists. */
  method AddSkillsOf(skills: Dict<string, Skill>, name: string, entries: seq<(string, int)>) returns (r: Dict<string, Skill>)
    requires skills.Valid() && forall j :: 0 <= j < |entries| ==> entries[j].0 in skills.vals
    ensures r == AddEntries(skills, name, entries)
  {
    r := skills;
    for j := 0 to |entries|
      invariant r == AddEntries(skills, name, entries[..j])
    {
      assert entries[..j + 1][..j] == entries[..j];
      var sk := r.vals[entries[j].0];
      r := r.Put(entries[j].0, WithLearners(sk, [DemonLevel(name, entries[j].1)]));
    }
    assert entries[..|entries|] == entries;
  }

  /** One iteration of the loop at compendium.ts:131-139. */
  lemma IndexStep(inv: map<string, map<int, string>>, skills: Dict<string, Skill>, ds: seq<Demon>, i: int)
    requires skills.Valid() && RacesKnown(ds, inv.Keys) && SkillsKnown(ds, skills.vals.Keys) && 0 <= i < |ds|
    ensures RacesKnown(ds[..i], inv.Keys) && SkillsKnown(ds[..i], skills.vals.Keys)
    ensures RacesKnown(ds[..i + 1], inv.Keys) && SkillsKnown(ds[..i + 1], skills.vals.Keys)
    ensures var m := ReverseIndex(inv, ds[..i]); var d := ds[i];
      ReverseIndex(inv, ds[..i + 1]) == if NonParty(d) then m[d.race := m[d.race][d.lvl := d.name]] else m
    ensures AddLearners(skills, ds[..i + 1]) == AddEntries(AddLearners(skills, ds[..i]), ds[i].name, ds[i].skills)
  {
    PrefixKnown(ds, i, inv.Keys, skills.vals.Keys);
    PrefixKnown(ds, i + 1, inv.Keys, skills.vals.Keys);
    assert ds[..i + 1][..i] == ds[..i];
    assert ds[i] in ds;
  }

  /** The loop at compendium.ts:127-129: an empty bucket for every race. */
  method MakeBuckets(races: seq<string>) returns (inverses: map<string, map<int, string>>)
    ensures inverses == RaceBuckets(races)
  {
    inverses := map[];
    for i := 0 to |races|
      invariant inverses == RaceBuckets(races[..i])
    {
      assert races[..i + 1][..i] == races[..i];
      inverses := inverses[races[i] := map[]];
    }
    assert races[..|races|] == races;
  }

  /** The loop at compendium.ts:131-139 over demons already sorted by level. */
  method IndexSorted(buckets: map<string, map<int, string>>, skills: Dict<string, Skill>, ds: seq<Demon>)
      returns (inverses: map<string, map<int, string>>, learned: Dict<string, Skill>)
    requires skills.Valid() && RacesKnown(ds, buckets.Keys) && SkillsKnown(ds, skills.vals.Keys)
    ensures inverses == ReverseIndex(buckets, ds)
    ensures learned == AddLearners(skills, ds)
  {
    inverses := buckets;
    learned := skills;
    for i := 0 to |ds|
      invariant inverses == ReverseIndex(buckets, ds[..i])
      invariant learned == AddLearners(skills, ds[..i])
    {
      var demon := ds[i];
      IndexStep(buckets, skills, ds, i);
      assert demon in ds;
      if demon.fusion != "party" {
        inverses := inverses[demon.race := inverses[demon.race][demon.lvl := demon.name]];
      }
      learned := AddSkillsOf(learned, demon.name, demon.skills);
    }
    assert ds[..|ds|] == ds;
  }

  /** Sorting keeps the demons, so it keeps their races and skills known. */
  lemma SortedKnown(ds: seq<Demon>, races: seq<string>, skills: set<string>)
    requires RacesKnown(ds, RaceSet(races)) && SkillsKnown(ds, skills)
    ensures RacesKnown(SortBy(ds, Level), RaceBuckets(races).Keys)
    ensures SkillsKnown(SortBy(ds, Level), skills)
  {
  }

  /** compendium.ts:127-139. */
  method IndexDemons(races: seq<string>, demons: Dict<string, Demon>, skills: Dict<string, Skill>)
      returns (inverses: map<string, map<int, string>>, learned: Dict<string, Skill>)
    requires demons.Valid() && skills.Valid()
    requires RacesKnown(demons.Values(), RaceSet(races))
    requires SkillsKnown(demons.Values(), skills.vals.Keys)
    ensures inverses == ReverseIndex(RaceBuckets(races), SortBy(demons.Values(), Level))
    ensures learned == AddLearners(skills, SortBy(demons.Values(), Level))
  {
    var buckets := MakeBuckets(races);
    var ds := SortBy(demons.Values(), Level);
    SortedKnown(demons.Values(), races, skills.vals.Keys);
    inverses, learned := IndexSorted(buckets, skills, ds);
  }
}
