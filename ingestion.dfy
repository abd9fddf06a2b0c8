/**
  The ingestion pass `initImportedData` (src/app/p4/models/compendium.ts:25-148): each of
  its loops as a method, proved equal to a fold that specifies it, with the properties
  the compendium relies on proved about the folds.
 */
module Ingestion {
  import opened Options
  import opened Dicts
  import opened Sorting
  import opened Records

  // ============================================================ inheritance codes

  /** `inheritCodes` and `inheritTypes`, both JavaScript objects. */
  datatype InheritTable = InheritTable(codes: Dict<string, Option<nat>>, types: Dict<nat, seq<int>>)

  function InheritCoder(thresh: int): (string, seq<int>) -> Option<nat> {
    (elem: string, ratios: seq<int>) => InheritCode(ratios, thresh)
  }

  /** Each category's ratio vector paired with its code. */
  function Coded(entries: seq<(string, seq<int>)>, thresh: int): (cs: seq<(Option<nat>, seq<int>)>)
    ensures |cs| == |entries|
    ensures forall i :: 0 <= i < |entries| ==> cs[i] == (InheritCode(entries[i].1, thresh), entries[i].1)
  {
    seq(|entries|, i requires 0 <= i < |entries| => (InheritCode(entries[i].1, thresh), entries[i].1))
  }

  /** The assignments `obj[code] = v` of the pairs whose code is a number; a NaN code writes no numeric key. */
  function SomeWrites<V>(cs: seq<(Option<nat>, V)>): (ws: seq<(nat, V)>)
    decreases |cs|
  {
    if cs == [] then []
    else
      var n := |cs| - 1;
      SomeWrites(cs[..n]) + (if cs[n].0.Some? then [(cs[n].0.value, cs[n].1)] else [])
  }

  /** Dropping the NaN writes does not change what any numeric key ends up holding. */
  lemma {:induction false} SomeWritesLast<V>(cs: seq<(Option<nat>, V)>, code: nat)
    ensures LastWrite(SomeWrites(cs), code) == LastWrite(cs, Some(code))
    decreases |cs|
  {
    if cs != [] {
      var n := |cs| - 1;
      var w := SomeWrites(cs[..n]);
      SomeWritesLast(cs[..n], code);
      if cs[n].0.Some? {
        assert (w + [(cs[n].0.value, cs[n].1)])[..|w|] == w;
      } else {
        assert SomeWrites(cs) == w;
      }
    }
  }

  function TypeWrites(entries: seq<(string, seq<int>)>, thresh: int): seq<(nat, seq<int>)> {
    SomeWrites(Coded(entries, thresh))
  }

  /** The two tables after the loop at compendium.ts:36-40. */
  function InheritTables(entries: seq<(string, seq<int>)>, thresh: int): (t: InheritTable)
    ensures t.codes.Valid() && t.types.Valid()
  {
    InheritTable(PutAll(Empty(), MapEntries(entries, InheritCoder(thresh))), PutAll(Empty(), TypeWrites(entries, thresh)))
  }

  /** compendium.ts:34-40. */
  method ComputeInheritTypes(races: seq<string>, entries: seq<(string, seq<int>)>) returns (t: InheritTable)
    ensures t == InheritTables(entries, InheritThreshold(races))
  {
    var thresh := if "World" in races then 0 else 1;
    var codes: Dict<string, Option<nat>> := Empty();
    var types: Dict<nat, seq<int>> := Empty();
    for i := 0 to |entries|
      invariant codes == PutAll(Empty(), MapEntries(entries[..i], InheritCoder(thresh)))
      invariant types == PutAll(Empty(), TypeWrites(entries[..i], thresh))
    {
      var ratios := entries[i].1;
      var code := InheritCode(ratios, thresh);
      CodesStep(entries, i, thresh);
      TypesStep(entries, i, thresh);
      codes := codes.Put(entries[i].0, code);
      if code.Some? {
        types := types.Put(code.value, ratios);
      }
    }
    assert entries[..|entries|] == entries;
    t := InheritTable(codes, types);
  }

  /** One iteration of the loop at compendium.ts:36-40: the category's code is recorded under its name. */
  lemma CodesStep(entries: seq<(string, seq<int>)>, i: int, thresh: int)
    requires 0 <= i < |entries|
    ensures PutAll(Empty(), MapEntries(entries[..i + 1], InheritCoder(thresh))) ==
      PutAll(Empty(), MapEntries(entries[..i], InheritCoder(thresh))).Put(entries[i].0, InheritCode(entries[i].1, thresh))
  {
    assert entries[..i + 1] == entries[..i] + [entries[i]];
    LoadSnoc(entries[..i], entries[i], InheritCoder(thresh));
  }

  lemma CodedSnoc(entries: seq<(string, seq<int>)>, i: int, thresh: int)
    requires 0 <= i < |entries|
    ensures Coded(entries[..i + 1], thresh) == Coded(entries[..i], thresh) + [(InheritCode(entries[i].1, thresh), entries[i].1)]
  {
  }

  /** One iteration of the loop at compendium.ts:36-40: a numeric code records the category's ratios under it. */
  lemma TypesStep(entries: seq<(string, seq<int>)>, i: int, thresh: int)
    requires 0 <= i < |entries|
    ensures var code, before := InheritCode(entries[i].1, thresh), PutAll(Empty(), TypeWrites(entries[..i], thresh));
      PutAll(Empty(), TypeWrites(entries[..i + 1], thresh)) ==
        if code.Some? then before.Put(code.value, entries[i].1) else before
  {
    CodedSnoc(entries, i, thresh);
    SomeWritesSnoc(Coded(entries[..i], thresh), InheritCode(entries[i].1, thresh), entries[i].1);
  }

  lemma SomeWritesSnoc<V>(cs: seq<(Option<nat>, V)>, c: Option<nat>, v: V)
    ensures PutAll(Empty(), SomeWrites(cs + [(c, v)])) ==
      if c.Some? then PutAll(Empty(), SomeWrites(cs)).Put(c.value, v) else PutAll(Empty(), SomeWrites(cs))
  {
    assert (cs + [(c, v)])[..|cs|] == cs;
    var w := SomeWrites(cs);
    if c.Some? {
      assert SomeWrites(cs + [(c, v)]) == w + [(c.value, v)];
      PutAllSnoc(Empty(), w, c.value, v);
    } else {
      assert SomeWrites(cs + [(c, v)]) == w + [];
      assert w + [] == w;
    }
  }

  /** Entry `i` is the last category whose ratios give `code`. */
  ghost predicate LastWithCode(entries: seq<(string, seq<int>)>, thresh: int, code: nat, i: int) {
    && 0 <= i < |entries|
    && InheritCode(entries[i].1, thresh) == Some(code)
    && forall j :: i < j < |entries| ==> InheritCode(entries[j].1, thresh) != Some(code)
  }

  /**
    `inheritTypes[code]` is defined exactly when some category has that code, and then holds
    the ratio vector of the last category enumerated with it (codes may collide).
   */
  lemma InheritTypesLastWriter(entries: seq<(string, seq<int>)>, thresh: int, code: nat)
    ensures InheritTables(entries, thresh).types.Get(code).Some? <==>
      exists i :: 0 <= i < |entries| && InheritCode(entries[i].1, thresh) == Some(code)
    ensures forall i :: LastWithCode(entries, thresh, code, i) ==> InheritTables(entries, thresh).types.Get(code) == Some(entries[i].1)
  {
    var cs := Coded(entries, thresh);
    PutAllLookup(Empty(), SomeWrites(cs), code);
    SomeWritesLast(cs, code);
    LastWriteIndex(cs, Some(code));
  }

  /** A category's code is looked up under its name; the entries of an object have distinct names. */
  lemma InheritCodesLookup(entries: seq<(string, seq<int>)>, thresh: int, i: int)
    requires DistinctKeys(entries) && 0 <= i < |entries|
    ensures CodeOf(InheritTables(entries, thresh).codes, entries[i].0) == InheritCode(entries[i].1, thresh)
  {
    LoadedLookup(entries, InheritCoder(thresh), entries[i].0);
    DistinctLastWrite(entries, i);
  }

  // ============================================================= record loading

  /** The object built by visiting every file, and every entry of each file, in order, storing each normalised record under its name. */
  function Loaded<R, V>(files: seq<seq<(string, R)>>, f: (string, R) -> V): (d: Dict<string, V>)
    ensures d.Valid()
  {
    PutAll(Empty(), MapEntries(Flatten(files), f))
  }

  /** The loading loops of compendium.ts:42-59, 61-92 and 94-112. */
  method LoadRecords<R, V>(files: seq<seq<(string, R)>>, f: (string, R) -> V) returns (d: Dict<string, V>)
    ensures d == Loaded(files, f)
  {
    d := Empty();
    for i := 0 to |files|
      invariant d == PutAll(Empty(), MapEntries(Flatten(files[..i]), f))
    {
      var file := files[i];
      ghost var done := Flatten(files[..i]);
      assert done + file[..0] == done;
      for j := 0 to |file|
        invariant d == PutAll(Empty(), MapEntries(done + file[..j], f))
      {
        LoadFileStep(done, file, j, f);
        d := d.Put(file[j].0, f(file[j].0, file[j].1));
      }
      assert file[..|file|] == file;
      FlattenSnoc(files, i);
    }
    assert files[..|files|] == files;
  }

  /** One iteration of an inner loading loop. */
  lemma LoadFileStep<R, V>(done: seq<(string, R)>, file: seq<(string, R)>, j: int, f: (string, R) -> V)
    requires 0 <= j < |file|
    ensures PutAll(Empty(), MapEntries(done + file[..j + 1], f)) ==
      PutAll(Empty(), MapEntries(done + file[..j], f)).Put(file[j].0, f(file[j].0, file[j].1))
  {
    assert done + file[..j + 1] == (done + file[..j]) + [file[j]];
    LoadSnoc(done + file[..j], file[j], f);
  }

  /** Every loaded name holds its last record, normalised; a name no file mentions is absent. */
  lemma LoadedLookupLast<R, V>(files: seq<seq<(string, R)>>, f: (string, R) -> V, k: string)
    ensures Loaded(files, f).Get(k) ==
      if LastWrite(Flatten(files), k).Some? then Some(f(k, LastWrite(Flatten(files), k).value)) else None
    ensures k in Loaded(files, f).vals <==> exists i :: 0 <= i < |Flatten(files)| && Flatten(files)[i].0 == k
  {
    LoadedLookup(Flatten(files), f, k);
    LastWriteIndex(Flatten(files), k);
  }

  // ============================================================ special recipes

  /** The result names of the recipes, in declaration order. */
  function Names<V>(kvs: seq<(string, V)>): (ns: seq<string>)
    ensures |ns| == |kvs| && forall i :: 0 <= i < |kvs| ==> ns[i] == kvs[i].0
  {
    seq(|kvs|, i requires 0 <= i < |kvs| => kvs[i].0)
  }

  /** Each recipe result in turn has its fusion tag set to "special" (compendium.ts:116-117). */
  function MarkSpecials(demons: Dict<string, Demon>, names: seq<string>): (r: Dict<string, Demon>)
    requires demons.Valid() && forall i :: 0 <= i < |names| ==> names[i] in demons.vals
    ensures r.Valid() && r.keys == demons.keys && r.vals.Keys == demons.vals.Keys
  {
    UpdateEach(demons, names, MarkedSpecial)
  }

  /** A recipe result ends up tagged "special" with nothing else about it changed; other demons are untouched. */
  lemma MarkSpecialsSpec(demons: Dict<string, Demon>, names: seq<string>, k: string)
    requires demons.Valid() && forall i :: 0 <= i < |names| ==> names[i] in demons.vals
    requires k in demons.vals
    ensures MarkSpecials(demons, names).vals[k] ==
      if k in names then MarkedSpecial(demons.vals[k]) else demons.vals[k]
  {
    UpdateEachSpec(demons, names, MarkedSpecial, k);
  }

  /** Appends `name` to `m[x]` for each ingredient `x`, creating the list when absent (compendium.ts:120-123). */
  function AppendEach(m: map<string, seq<string>>, ingreds: seq<string>, name: string): map<string, seq<string>>
    decreases |ingreds|
  {
    if ingreds == [] then m
    else
      var n := |ingreds| - 1;
      var m' := AppendEach(m, ingreds[..n], name);
      var x := ingreds[n];
      m'[x := ListAt(m', x) + [name]]
  }

  /** `m[x] || []`. */
  function ListAt(m: map<string, seq<string>>, x: string): seq<string> {
    if x in m then m[x] else []
  }

  /** `invertedSpecials` after the loop at compendium.ts:114-125. */
  function InvertSpecials(recipes: seq<(string, seq<string>)>): map<string, seq<string>>
    decreases |recipes|
  {
    if recipes == [] then map[]
    else
      var n := |recipes| - 1;
      var m := InvertSpecials(recipes[..n]);
      if |recipes[n].1| == 2 then AppendEach(m, recipes[n].1, recipes[n].0) else m
  }

  function Count(s: seq<string>, x: string): nat
    decreases |s|
  {
    if s == [] then 0 else Count(s[..|s| - 1], x) + (if s[|s| - 1] == x then 1 else 0)
  }

  function Repeat(name: string, n: nat): (r: seq<string>)
    ensures |r| == n && forall i :: 0 <= i < n ==> r[i] == name
  {
    seq(n, i => name)
  }

  /**
    The reference definition of the inverted index: for ingredient `x`, the result of every
    two-ingredient recipe, in declaration order, once per occurrence of `x` among its ingredients.
   */
  function Producers(recipes: seq<(string, seq<string>)>, x: string): seq<string>
    decreases |recipes|
  {
    if recipes == [] then []
    else
      var n := |recipes| - 1;
      Producers(recipes[..n], x) +
        (if |recipes[n].1| == 2 then Repeat(recipes[n].0, Count(recipes[n].1, x)) else [])
  }

  lemma {:induction false} AppendEachSpec(m: map<string, seq<string>>, ingreds: seq<string>, name: string, x: string)
    ensures ListAt(AppendEach(m, ingreds, name), x) == ListAt(m, x) + Repeat(name, Count(ingreds, x))
    ensures x in AppendEach(m, ingreds, name) <==> x in m || Count(ingreds, x) > 0
    decreases |ingreds|
  {
    if ingreds != [] {
      var n := |ingreds| - 1;
      AppendEachSpec(m, ingreds[..n], name, x);
      var c := Count(ingreds[..n], x);
      if ingreds[n] == x {
        assert Repeat(name, c) + [name] == Repeat(name, c + 1);
      }
    }
  }

  /** The inverted map agrees with the reference definition, and holds a key only for a non-empty list. */
  lemma {:induction false} InvertSpecialsSpec(recipes: seq<(string, seq<string>)>, x: string)
    ensures ListAt(InvertSpecials(recipes), x) == Producers(recipes, x)
    ensures x in InvertSpecials(recipes) <==> Producers(recipes, x) != []
    decreases |recipes|
  {
    if recipes != [] {
      var n := |recipes| - 1;
      InvertSpecialsSpec(recipes[..n], x);
      if |recipes[n].1| == 2 {
        AppendEachSpec(InvertSpecials(recipes[..n]), recipes[n].1, recipes[n].0, x);
      }
    }
  }

  lemma {:induction false} CountPositive(s: seq<string>, x: string)
    ensures Count(s, x) > 0 <==> x in s
    decreases |s|
  {
    if s != [] {
      CountPositive(s[..|s| - 1], x);
      SnocLast(s);
    }
  }

  /**
    `name` can be made from ingredient `x` exactly when some recipe for `name` has exactly two
    ingredients, one of them `x`: recipes of any other length never contribute.
   */
  lemma {:induction false} ProducersMember(recipes: seq<(string, seq<string>)>, x: string, name: string)
    ensures name in Producers(recipes, x) <==>
      exists i :: 0 <= i < |recipes| && recipes[i].0 == name && |recipes[i].1| == 2 && x in recipes[i].1
    decreases |recipes|
  {
    if recipes != [] {
      var n := |recipes| - 1;
      var prefix := recipes[..n];
      ProducersMember(prefix, x, name);
      CountPositive(recipes[n].1, x);
      assert forall i :: 0 <= i < n ==> prefix[i] == recipes[i];
      var tail := if |recipes[n].1| == 2 then Repeat(recipes[n].0, Count(recipes[n].1, x)) else [];
      assert name in tail <==> recipes[n].0 == name && |recipes[n].1| == 2 && x in recipes[n].1 by {
        if name in tail {
          var k :| 0 <= k < |tail| && tail[k] == name;
        }
        if recipes[n].0 == name && |recipes[n].1| == 2 && x in recipes[n].1 {
          assert tail[0] == name;
        }
      }
    }
  }

  /** The inner loop at compendium.ts:120-123: `name` is pushed onto the list of each ingredient. */
  method AppendToEach(m: map<string, seq<string>>, ingreds: seq<string>, name: string) returns (r: map<string, seq<string>>)
    ensures r == AppendEach(m, ingreds, name)
  {
    r := m;
    for j := 0 to |ingreds|
      invariant r == AppendEach(m, ingreds[..j], name)
    {
      var ingred := ingreds[j];
      AppendStep(m, ingreds, j, name);
      if ingred !in r {
        r := r[ingred := []];
      }
      r := r[ingred := r[ingred] + [name]];
    }
    assert ingreds[..|ingreds|] == ingreds;
  }

  /** One iteration of the loop at compendium.ts:114-125, for each of the three objects it writes. */
  lemma RecipeStep(recipes: seq<(string, seq<string>)>, i: int)
    requires 0 <= i < |recipes|
    ensures PutAll(Empty(), recipes[..i + 1]) == PutAll(Empty(), recipes[..i]).Put(recipes[i].0, recipes[i].1)
    ensures InvertSpecials(recipes[..i + 1]) ==
      if |recipes[i].1| == 2 then AppendEach(InvertSpecials(recipes[..i]), recipes[i].1, recipes[i].0)
      else InvertSpecials(recipes[..i])
  {
    PrefixSnoc(recipes, i);
    PutAllSnoc(Empty(), recipes[..i], recipes[i].0, recipes[i].1);
    assert recipes[..i + 1][..i] == recipes[..i];
  }

  /** The demon object once the loop at compendium.ts:114-125 has visited its first `i` recipes. */
  function MarkedThrough(recipes: seq<(string, seq<string>)>, i: int, demons: Dict<string, Demon>): (r: Dict<string, Demon>)
    requires demons.Valid() && 0 <= i <= |recipes|
    requires forall j :: 0 <= j < |recipes| ==> recipes[j].0 in demons.vals
    ensures r.Valid() && r.keys == demons.keys && r.vals.Keys == demons.vals.Keys
  {
    MarkSpecials(demons, Names(recipes[..i]))
  }

  lemma MarkStep(recipes: seq<(string, seq<string>)>, i: int, demons: Dict<string, Demon>)
    requires demons.Valid() && 0 <= i < |recipes|
    requires forall j :: 0 <= j < |recipes| ==> recipes[j].0 in demons.vals
    ensures var m := MarkedThrough(recipes, i, demons);
      MarkedThrough(recipes, i + 1, demons) == m.Put(recipes[i].0, MarkedSpecial(m.vals[recipes[i].0]))
  {
    assert Names(recipes[..i + 1]) == Names(recipes[..i]) + [recipes[i].0];
    UpdateEachSnoc(demons, Names(recipes[..i]), recipes[i].0, MarkedSpecial);
  }

  /** Before the loop no demon is marked; after it, every recipe result is. */
  lemma MarkEnds(recipes: seq<(string, seq<string>)>, demons: Dict<string, Demon>)
    requires demons.Valid()
    requires forall j :: 0 <= j < |recipes| ==> recipes[j].0 in demons.vals
    ensures MarkedThrough(recipes, 0, demons) == demons
    ensures MarkedThrough(recipes, |recipes|, demons) == MarkSpecials(demons, Names(recipes))
  {
    assert Names(recipes[..0]) == [];
    assert recipes[..|recipes|] == recipes;
  }

  lemma AppendStep(m: map<string, seq<string>>, ingreds: seq<string>, j: int, name: string)
    requires 0 <= j < |ingreds|
    ensures var m' := AppendEach(m, ingreds[..j], name);
      AppendEach(m, ingreds[..j + 1], name) == m'[ingreds[j] := ListAt(m', ingreds[j]) + [name]]
  {
    assert ingreds[..j + 1][..j] == ingreds[..j];
  }

  /** compendium.ts:114-125. Every result must name a loaded demon, since `demons[name].fusion` is written. */
  method ApplySpecials(recipes: seq<(string, seq<string>)>, demons: Dict<string, Demon>)
      returns (specials: Dict<string, seq<string>>, marked: Dict<string, Demon>, inverted: map<string, seq<string>>)
    requires demons.Valid()
    requires forall i :: 0 <= i < |recipes| ==> recipes[i].0 in demons.vals
    ensures specials == PutAll(Empty(), recipes)
    ensures marked == MarkSpecials(demons, Names(recipes))
    ensures inverted == InvertSpecials(recipes)
  {
    specials, marked, inverted := Empty(), demons, map[];
    MarkEnds(recipes, demons);
    assert recipes[..0] == [];
    for i := 0 to |recipes|
      invariant specials == PutAll(Empty(), recipes[..i])
      invariant marked == MarkedThrough(recipes, i, demons)
      invariant inverted == InvertSpecials(recipes[..i])
    {
      var name, ingreds := recipes[i].0, recipes[i].1;
      RecipeStep(recipes, i);
      MarkStep(recipes, i, demons);
      specials := specials.Put(name, ingreds);
      marked := marked.Put(name, MarkedSpecial(marked.vals[name]));
      if |ingreds| == 2 {
        inverted := AppendToEach(inverted, ingreds, name);
      }
    }
    assert recipes[..|recipes|] == recipes;
  }
}
