# P4 compendium index engine, in Dafny

This project models the `Compendium` class of the Persona 4 fusion calculator
(`src/app/p4/models/compendium.ts`). The class turns a game's static data into the
indexes the fusion chart queries. That data is:

- the inheritance categories and their elemental ratios;
- the demon, enemy and skill records, spread over several data files;
- the special fusion recipes.

It works in two passes, both run by the constructor:

- `initImportedData` does four things:
  - it computes each inheritance category's bitmask code and the code → ratios table;
  - it normalises every demon, enemy and skill record (last file wins);
  - it records the special recipes, tags their results as `special` and inverts the two-ingredient ones;
  - it builds the race → level → demon reverse index, and lists every demon that learns a skill as one of the skill's learners.
- `updateDerivedData`:
  - gives rank 99 to each skill no demon learns, and collects the others into the skill list;
  - builds the per-race sorted level lists, where results leave out special demons;
  - concatenates enemies and demons into a single list.

The accessors read those fields.

The modules follow that structure:

| module | file | contents |
|---|---|---|
| `Options`, `Dicts` | options.dfy, dicts.dfy | JS objects as an insertion-ordered key list plus a map; assignment, lookup and enumeration order; last writer wins |
| `Text` | text.dfy | `join`/`split`, decimal rendering of integers, ASCII lowercasing, JS truthiness of `||` defaults |
| `Sorting` | sorting.dfy | `Array.prototype.sort` with a `key(a) - key(b)` comparator, as a stable sort by key |
| `Records` | records.dfy | raw and normalised records; inheritance codes; the per-record normalisation of demons, enemies and skills |
| `Ingestion` | ingestion.dfy | the loops of `initImportedData` up to the special recipes (inheritance tables, record loading, recipes) |
| `Indexing` | indexing.dfy | the reverse index and the learner lists (the level-sorted loop) |
| `Aggregation` | aggregation.dfy | the loops of `updateDerivedData` (rank 99 / skill list, level lists) |
| `Derivation` | derivation.dfy | every field, as a function of the configuration, with lookup lemmas |
| `P4Compendium` | compendium.dfy | the `Compendium` class: its fields, constructor, the two passes and the accessors |

Each loop of the source is a `method` with loop invariants. Each method is proved equal to a
function on values. That function is characterised by lemmas:

- an independent reference definition (for example `Producers` for the inverted special
  recipes, `Learners` for `learnedBy`);
- or a lookup property (last writer wins, membership iff some record has it).

The class invariant `Valid()` holds after the constructor. It ties every field to those functions
of the configuration. The accessors' contracts are stated in terms of the configuration.

The inheritance threshold works as follows:

- A ratio `r` gives bit 0 when `r <= thresh` and bit 1 otherwise.
- `thresh` is 0 when "World" is a race and 1 otherwise.
- So under "World" the ratios `[0, 0]` give code 0 (`InheritCodeUnderWorld`).

Below, a *fusable* demon is one whose fusion tag is not `party`. `allDemons` and `getDemon` cover
every demon, party ones included; the level lists and the reverse index cover fusable demons only.

## Model

| member | source | states |
|---|---|---|
| Records.InheritCodeBits | src/app/p4/models/compendium.ts:34-37 | bit `k` of a category's code is set iff `k` < the vector length and the ratio at position `len-1-k` exceeds the threshold (first ratio = most significant bit) |
| Records.InheritCodeUnderWorld | src/app/p4/models/compendium.ts:34-37 | threshold is 0 with "World" among the races, 1 otherwise; `[0,0]` gives 0 and `[1,1]` gives 3 under "World", `[1,1]` gives 0 without it |
| Ingestion.ComputeInheritTypes | src/app/p4/models/compendium.ts:34-40 | the loop produces exactly the code and type tables of `InheritTables` |
| Ingestion.InheritTypesLastWriter | src/app/p4/models/compendium.ts:36-40 | `inheritTypes[code]` is defined iff some category has that code, and then holds the ratios of the last category with it (collisions: last writer wins) |
| Ingestion.InheritCodesLookup | src/app/p4/models/compendium.ts:38 | every category's stored code is the code of its own ratio vector |
| Records.NormalizeDemon | src/app/p4/models/compendium.ts:44-57 | name, race, level, `currLvl = lvl`, `cardLvl` default 0, price = (sum of stats)² + 2000 ≥ 2000, inheritance code looked up, resistances mapped character by character, fusion default "normal" (empty string counts as missing), prereq default "" |
| Records.DropList | src/app/p4/models/compendium.ts:63-73 | the drop list is never empty (a lone "-" when nothing qualifies) |
| Records.NormalizeEnemy | src/app/p4/models/compendium.ts:75-90 | price 0, inherits 0, `isEnemy`, fusion "normal"; stats split at 2 into stats and estats; resistances lowercased then mapped; drop text is the drop list joined by ", "; skills at level 0 |
| Records.EnemySkillsSpec | src/app/p4/models/compendium.ts:85 | the enemy's skill object holds exactly the listed skills, each once, all at level 0 |
| Records.DropTextSplits | src/app/p4/models/compendium.ts:88 | splitting the drop text on ", " gives back the drop list when no drop contains ", " |
| Records.DropScenarios | src/app/p4/models/compendium.ts:65-73 | a "-" material is skipped and an empty drops array adds nothing; with nothing qualifying the drop text is "-" |
| Records.EffectScenarios | src/app/p4/models/compendium.ts:101 | power 40 with effect "Burn" gives "40 power, Burn"; no effect gives "40 power"; power 0 is falsy and leaves the effect |
| Records.Transfer | src/app/p4/models/compendium.ts:109 | one transfer per comma-separated card name, in order, with that demon's card level or -100 for an unknown demon |
| Records.NormalizeSkill | src/app/p4/models/compendium.ts:96-110 | cost default 0, rank default 99 (a 0 rank counts as missing), target default "Self", effect text, no learners, level 0, transfers only for a non-empty card |
| Records.MarkedSpecial | src/app/p4/models/compendium.ts:117 | the fusion tag becomes "special" and no other field changes |
| Text.JoinSplit | src/app/p4/models/compendium.ts:88 | joining the pieces of a split with the separator gives the string back |
| Text.SplitJoin | src/app/p4/models/compendium.ts:109 | splitting a join gives the parts back when no part contains the separator and the separator has no border |
| Text.IntToStringRoundTrip | src/app/p4/models/compendium.ts:101 | the decimal rendering of an integer parses back to it |
| Text.ToLower | src/app/p4/models/compendium.ts:84 | same length, each character lowercased, no upper-case ASCII letter left |
| Text.OrZeroIsGetOr | src/app/p4/models/compendium.ts:49 | `x \|\| 0` and `x \|\| ''` are the missing-field defaults |
| Sorting.SortBy | src/app/p4/models/compendium.ts:131 | the result is sorted by the key and is a permutation of the input |
| Sorting.SortTwice | src/app/p4/models/compendium.ts:179-180 | sorting is idempotent |
| Sorting.SortStable | src/app/p4/models/compendium.ts:131 | the sort is stable: the elements with any one key keep their input order |
| Dicts.PutAllLookup | src/app/p4/models/compendium.ts:38-39 | after a run of assignments a key holds the last value written to it, else its old value |
| Dicts.LastWriteIndex | src/app/p4/models/compendium.ts:44 | a key is written iff some entry has it, and the last such entry is its value |
| Dicts.UpdateEachSpec | src/app/p4/models/compendium.ts:117 | updating the listed keys in turn by an idempotent update changes exactly the listed keys |
| Ingestion.LoadRecords | src/app/p4/models/compendium.ts:42-59 | the nested file/entry loops build exactly the object `Loaded` describes (used for the demon, enemy and skill loops) |
| Ingestion.LoadedLookupLast | src/app/p4/models/compendium.ts:42-112 | a name is loaded iff some file has it, and holds its last record, normalised |
| Ingestion.MarkSpecialsSpec | src/app/p4/models/compendium.ts:117 | a recipe result is tagged special with nothing else changed; other demons are untouched |
| Ingestion.AppendEachSpec | src/app/p4/models/compendium.ts:120-123 | each ingredient's list gains the recipe's name once per occurrence; a list exists iff it did or the ingredient occurs |
| Ingestion.InvertSpecialsSpec | src/app/p4/models/compendium.ts:114-125 | the inverted index equals the reference definition `Producers` and has a key only for a non-empty list |
| Ingestion.ProducersMember | src/app/p4/models/compendium.ts:119 | a name is listed under an ingredient iff one of its recipes has exactly two ingredients, one of them that ingredient |
| Ingestion.AppendToEach | src/app/p4/models/compendium.ts:120-123 | the inner loop computes `AppendEach` |
| Ingestion.ApplySpecials | src/app/p4/models/compendium.ts:114-125 | the recipe loop records the recipes (last writer wins), tags every result special, and builds `InvertSpecials` |
| Indexing.RaceBuckets | src/app/p4/models/compendium.ts:127-129 | one empty bucket for each listed race and no other |
| Indexing.ReverseIndexDomain | src/app/p4/models/compendium.ts:131-134 | a slot is filled iff it was before or some fusable demon of that race has that level; party demons never fill one |
| Indexing.ReverseIndexLast | src/app/p4/models/compendium.ts:131-134 | a filled slot names the last fusable demon of that race and level in visiting order |
| Indexing.AddEntriesSpec | src/app/p4/models/compendium.ts:137-139 | one demon's pushes append to each skill exactly its entries naming that skill |
| Indexing.AddLearnersSpec | src/app/p4/models/compendium.ts:131-139 | after the loop each skill's learners are its old learners followed by the reference `Learners`; nothing else about the skill changes |
| Indexing.LearnersMember | src/app/p4/models/compendium.ts:137-138 | a learner record names a visited demon whose skill table lists the skill at that level |
| Indexing.AddSkillsOf | src/app/p4/models/compendium.ts:137-139 | the inner loop computes `AddEntries` |
| Indexing.MakeBuckets | src/app/p4/models/compendium.ts:127-129 | the loop computes `RaceBuckets` |
| Indexing.IndexSorted | src/app/p4/models/compendium.ts:131-139 | the loop over sorted demons computes the reverse index and the learners |
| Indexing.IndexDemons | src/app/p4/models/compendium.ts:127-139 | buckets, then the level-sorted loop: `ReverseIndex` and `AddLearners` over the demons sorted by level |
| Aggregation.Demote | src/app/p4/models/compendium.ts:156-157 | a skill without learners gets rank 99, any other is unchanged |
| Aggregation.LearnableSpec | src/app/p4/models/compendium.ts:155-161 | the skill list keeps exactly the skills with a learner, each as often as it occurs |
| Aggregation.DemotedAll | src/app/p4/models/compendium.ts:155-161 | after visiting every skill, each skill is demoted as `Demote` says |
| Aggregation.PartitionSkills | src/app/p4/models/compendium.ts:155-161 | the loop computes the demoted skill object and the skill list |
| Aggregation.LevelsMember | src/app/p4/models/compendium.ts:168-176 | a level is listed for a race iff a fusable, non-excluded demon of that race has it |
| Aggregation.LevelsCount | src/app/p4/models/compendium.ts:168-176 | a race's list holds each level exactly as often as there are fusable, non-excluded demons of that race and level, and its length is the number of such demons of the race |
| Aggregation.LevelsExcluded | src/app/p4/models/compendium.ts:172-174 | every result level is an ingredient level, as often |
| Aggregation.EmptyLists | src/app/p4/models/compendium.ts:163-166 | both maps hold an empty list per race |
| Aggregation.PushLevels | src/app/p4/models/compendium.ts:168-176 | each race's lists hold the levels of its fusable demons in enumeration order; results skip special demons |
| Aggregation.SortLists | src/app/p4/models/compendium.ts:178-181 | each list is replaced by its sorted version |
| Aggregation.RankArrays | src/app/p4/models/compendium.ts:163-181 | the level maps are exactly the sorted per-race level lists |
| Derivation.LoadedDemonLookup | src/app/p4/models/compendium.ts:42-59 | a demon is loaded iff some file has it, and holds its last record, normalised |
| Derivation.EnemyLookup | src/app/p4/models/compendium.ts:61-92 | an enemy is loaded iff some file has it, and holds its last record, normalised |
| Derivation.LoadedSkillLookup | src/app/p4/models/compendium.ts:94-112 | a skill is loaded iff some file has it, and holds its last record, normalised |
| Derivation.DemonLookup | src/app/p4/models/compendium.ts:114-117 | after the recipes the demons have the same names and records, tagged special exactly when some recipe makes them; each under its own name |
| Derivation.SpecialIsMarked | src/app/p4/models/compendium.ts:117 | every recipe result is a demon tagged special |
| Derivation.SpecialsLookup | src/app/p4/models/compendium.ts:116 | `specialRecipes[name]` is the last recipe given for it |
| Derivation.ByLevelMember | src/app/p4/models/compendium.ts:131 | the level-sorted list holds exactly the demons, each under its own name |
| Derivation.LearnedSkillLookup | src/app/p4/models/compendium.ts:136-139 | the learnt skills have the loaded names, and each skill's learners are the reference `Learners` over the level-sorted demons |
| Derivation.SkillLookup | src/app/p4/models/compendium.ts:155-161 | a skill exists iff some file has it; its learners are the reference ones; with no learner its rank is 99 |
| Derivation.SkillListMember | src/app/p4/models/compendium.ts:155-161 | the skill list holds exactly the skills with a learner, as stored |
| Derivation.DemotedTwice | src/app/p4/models/compendium.ts:150-161 | demoting again changes nothing and keeps the skill list, so the second pass can be re-run |
| P4Compendium.SkillOrderLexicographic | src/app/p4/models/compendium.ts:218 | with ranks in [0, 10000) the ×10000 key orders by element order, then by rank |
| P4Compendium.LoadData | src/app/p4/models/compendium.ts:34-112 | the loading loops give the inheritance tables and the three loaded objects |
| P4Compendium.ApplyRecipes | src/app/p4/models/compendium.ts:114-125 | the recipe loop gives the recipes, the tagged demons and the inverted recipes of the configuration |
| P4Compendium.IndexAll | src/app/p4/models/compendium.ts:127-139 | the index loops give the configuration's reverse index and learnt skills |
| P4Compendium.DeriveData | src/app/p4/models/compendium.ts:150-189 | the second pass gives the demoted skills, the skill list, the enemies-then-demons list and the ranked level maps |
| P4Compendium.RankedLevels | src/app/p4/models/compendium.ts:163-181 | a ranked map has exactly the races as keys; each list is sorted and holds each level as often as the race's fusable, non-excluded demons have it |
| P4Compendium.EntriesCount | src/app/p4/models/compendium.ts:168-176 | over a demon object, each level occurs once per fusable, non-excluded demon of the race with that level; the length is the number of such demons |
| P4Compendium.RankedCounts | src/app/p4/models/compendium.ts:163-181 | a ranked list holds each level once per fusable, non-excluded demon of the race with that level |
| P4Compendium.LookupSplit | src/app/p4/models/compendium.ts:217 | the name-by-name lookups are, as a multiset, the found values plus one `undefined` per unknown name |
| P4Compendium.SomesThenNones | src/app/p4/models/compendium.ts:218 | the sorted known values followed by the `undefined`s put every `undefined` last and keep the known values sorted |
| P4Compendium.RankedMembers | src/app/p4/models/compendium.ts:168-176 | a level is in a race's list iff a fusable, non-excluded demon of that race has it |
| P4Compendium.RankedResults | src/app/p4/models/compendium.ts:172-174 | every result level of a race is one of its ingredient levels, as often |
| P4Compendium.ConcatLayout | src/app/p4/models/compendium.ts:183-185 | the list is the enemies in loading order, then the demons, each under its own name |
| P4Compendium.Compendium.constructor | src/app/p4/models/compendium.ts:20-23 | running both passes establishes `Valid()`: every field is the configuration's |
| P4Compendium.Compendium.InitImportedData | src/app/p4/models/compendium.ts:25-148 | the first pass sets every imported field to its definition from the configuration |
| P4Compendium.Compendium.UpdateDerivedData | src/app/p4/models/compendium.ts:150-189 | the second pass leaves the imported fields alone, demotes unlearnt skills in place, and sets the skill list, the demon list and the level maps |
| P4Compendium.Compendium.ImportedKept | src/app/p4/models/compendium.ts:150-189 | what the first pass established survives the second |
| P4Compendium.Compendium.AllDemons | src/app/p4/models/compendium.ts:191-193 | the enemies in loading order, then the demons (party ones included), each under its own name |
| P4Compendium.Compendium.AllDemonsNamed | src/app/p4/models/compendium.ts:183-185 | every stored enemy and demon is stored under its own name |
| P4Compendium.Compendium.AllSkills | src/app/p4/models/compendium.ts:195-197 | exactly the stored skills that some demon learns |
| P4Compendium.Compendium.SpecialDemons | src/app/p4/models/compendium.ts:199-201 | the demon of each recipe, in recipe order, each tagged special |
| P4Compendium.Compendium.GetDemon | src/app/p4/models/compendium.ts:207-209 | the demon of that name (party ones included) if there is one, else the enemy of that name, else nothing |
| P4Compendium.Compendium.GetSkill | src/app/p4/models/compendium.ts:211-213 | defined iff some skill file has the name; learners are the reference ones; rank 99 without learners |
| P4Compendium.Compendium.GetSkills | src/app/p4/models/compendium.ts:215-220 | one entry per name, a permutation of the name-by-name lookups: the known skills first, sorted by element order then rank, then every `undefined` for an unknown name |
| P4Compendium.Compendium.GetIngredientDemonLvls | src/app/p4/models/compendium.ts:222-224 | the race's levels, ascending, one per fusable demon: each level as often as such demons have it, the length their number; [] for an unknown race |
| P4Compendium.Compendium.IngredientLevels | src/app/p4/models/compendium.ts:163-181 | a listed race has an ingredient list, holding each level once per fusable demon of the race with that level |
| P4Compendium.Compendium.GetResultDemonLvls | src/app/p4/models/compendium.ts:226-228 | the same for the fusable demons no special recipe makes: each level as often as such demons have it, the length their number; a sub-multiset of the ingredient levels; [] for an unknown race |
| P4Compendium.Compendium.GetSpecialNameEntries | src/app/p4/models/compendium.ts:230-232 | the last recipe given for the name, or [] |
| P4Compendium.Compendium.GetInheritElems | src/app/p4/models/compendium.ts:238-240 | defined iff some category has that code; then the ratios of the last category with it |
| P4Compendium.Compendium.ReverseLookupDemon | src/app/p4/models/compendium.ts:242-244 | defined iff some fusable demon has that race and level, and then names the last such demon in level-sorted order |
| P4Compendium.Compendium.ReverseLookupSpec | src/app/p4/models/compendium.ts:242-244 | the race has a bucket; a slot is filled iff a fusable demon fits it, and names the last such demon in level-sorted order |
| P4Compendium.Compendium.ReverseLookupSpecial | src/app/p4/models/compendium.ts:246-248 | the reference `Producers` list: every two-ingredient recipe with that ingredient, in recipe order; [] for none |

## Left out

- The fusion chart (`src/app/krao/models/fusion-chart.ts`) and the other compendium classes are not part of this model.
- Selecting the data sets by `gameAbbr` and loading the JSON files: the configuration is given with the game's data sets already selected, and each JavaScript object as its entry list.
- The empty ratio vector: its code is JavaScript's NaN, modelled as `None` and left out of the code → ratios table. The table's string key "NaN" is not modelled.
- Lowercasing covers ASCII letters only; Unicode case mapping is not modelled.
- Numbers are integers: floating-point ratios, stats and levels and their rendering are not modelled.
- `Array.prototype.sort` is modelled on values as a stable insertion sort by key, not in place on an array. All the comparators here subtract integer keys.
- The stubs `inheritHeaders`, `getSpecialNamePairs` and `isElementDemon` and the unused `dlcDemons` field compute nothing.
- Object aliasing: a skill object is shared between the skill table and the skill list, and records are mutated in place (fusion tag, learners, rank). The model updates copies, so each field is stated on values.
- JavaScript's enumeration of integer-like keys first, in numeric order, is not modelled: object keys enumerate in insertion order.
- Inputs that make the source throw a `TypeError` are excluded by `WellFormed` (the constructor's precondition). These are a recipe for an unknown demon (line 117), a fusable demon of an unlisted race (lines 133 and 170), and a demon learning an unknown skill (line 137).
- P4Compendium.Compendium.ReverseLookupDemon: requires a listed race, because an unlisted one throws.
- P4Compendium.Compendium.GetSkills: requires every known skill's element to be in `elemOrder`, because a missing element makes the comparator return NaN, which leaves the order implementation-defined. Unknown names are modelled: `sort` moves their `undefined` entries to the end without calling the comparator.
- P4Compendium.Compendium.GetInheritElems: a negative code is `None`. A non-integer or NaN argument is not modelled.
- P4Compendium.Compendium.AllDemons: requires `Listed()`, which every valid compendium satisfies (`ValidListed`).
- P4Compendium.Compendium.SpecialDemons: requires `Listed()`, which every valid compendium satisfies (`ValidListed`).
