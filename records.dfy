/**
  The raw records of the data files, the normalised records the compendium keeps,
  and the per-record normalisation of `initImportedData`
  (src/app/p4/models/compendium.ts:34-112).
 */
module Records {
  import opened Options
  import opened Dicts
  import opened Text

  // ------------------------------------------------------------------ raw records

  /** A demon record of the demon data files; absent optional fields are `None`. */
  datatype RawDemon = RawDemon(
    race: string, lvl: int, cardlvl: Option<int>, stats: seq<int>, inherits: string,
    resists: string, skills: seq<(string, int)>, fusion: Option<string>, prereq: Option<string>)

  /** An enemy record of the enemy data files. */
  datatype RawEnemy = RawEnemy(
    race: string, lvl: int, stats: seq<int>, resists: string, skills: seq<string>, area: string,
    material: Option<string>, gem: Option<string>, drops: Option<seq<string>>)

  /** A skill record of the skill data files. */
  datatype RawSkill = RawSkill(
    element: string, cost: Option<int>, rank: Option<int>, power: Option<int>,
    effect: Option<string>, target: Option<string>, card: Option<string>)

  // ------------------------------------------------------------ normalised records

  /** A demon as the compendium lists it: a fusable demon, or an enemy. */
  datatype BaseDemon =
    | AllyDemon(
        name: string, race: string, lvl: int, currLvl: int, cardLvl: int, price: int,
        inherits: Option<nat>, stats: seq<int>, resists: seq<Option<int>>,
        skills: seq<(string, int)>, fusion: string, prereq: string)
    | EnemyDemon(
        name: string, race: string, lvl: int, currLvl: int, price: int,
        inherits: Option<nat>, stats: seq<int>, estats: seq<int>, resists: seq<Option<int>>,
        skills: seq<(string, int)>, fusion: string, area: string, drop: string, isEnemy: bool)

  type Demon = d: BaseDemon | d.AllyDemon?
    witness AllyDemon("", "", 0, 0, 0, 0, None, [], [], [], "", "")

  type Enemy = d: BaseDemon | d.EnemyDemon?
    witness EnemyDemon("", "", 0, 0, 0, None, [], [], [], [], "", "", "", true)

  /** The demon with its fusion tag set to "special"; nothing else about it changes. */
  function MarkedSpecial(d: Demon): (r: Demon)
    ensures r.fusion == "special"
    ensures r.name == d.name && r.race == d.race && r.lvl == d.lvl && r.currLvl == d.currLvl
    ensures r.cardLvl == d.cardLvl && r.price == d.price && r.inherits == d.inherits
    ensures r.stats == d.stats && r.resists == d.resists && r.skills == d.skills && r.prereq == d.prereq
  {
    AllyDemon(d.name, d.race, d.lvl, d.currLvl, d.cardLvl, d.price, d.inherits,
      d.stats, d.resists, d.skills, "special", d.prereq)
  }

  /** A `{ demon, level }` pair: a learner of a skill, or a card transfer. */
  datatype DemonLevel = DemonLevel(demon: string, level: int)

  datatype Skill = Skill(
    name: string, element: string, cost: int, rank: int, effect: Option<string>, target: string,
    learnedBy: seq<DemonLevel>, transfer: seq<DemonLevel>, level: int)

  /** Demons whose fusion tag is "party" are left out of the fusion indices. */
  predicate NonParty(d: BaseDemon) {
    d.fusion != "party"
  }

  // ----------------------------------------------------------- inheritance codes

  /** The ratio threshold: 0 when "World" is one of the races, 1 otherwise. */
  function InheritThreshold(races: seq<string>): int {
    if "World" in races then 0 else 1
  }

  /** The value of a bit string, most significant bit first. */
  function BitsToNat(bits: seq<bool>): nat
    decreases |bits|
  {
    if bits == [] then 0 else 2 * BitsToNat(bits[..|bits| - 1]) + (if bits[|bits| - 1] then 1 else 0)
  }

  /** Bit `k` of `v`, counting from the least significant bit. */
  function TestBit(v: nat, k: nat): bool
    decreases k
  {
    if k == 0 then v % 2 == 1 else TestBit(v / 2, k - 1)
  }

  /** Bit i of the value is the i-th entry counted from the end, and there are no higher bits. */
  lemma {:induction false} BitsToNatBits(bits: seq<bool>, k: nat)
    ensures TestBit(BitsToNat(bits), k) <==> k < |bits| && bits[|bits| - 1 - k]
    decreases |bits|
  {
    if bits == [] {
      ZeroHasNoBits(k);
    } else {
      var n := |bits| - 1;
      var v' := BitsToNat(bits[..n]);
      assert BitsToNat(bits) / 2 == v';
      if k > 0 {
        BitsToNatBits(bits[..n], k - 1);
      }
    }
  }

  lemma {:induction false} ZeroHasNoBits(k: nat)
    ensures !TestBit(0, k)
    decreases k
  {
    if k > 0 {
      ZeroHasNoBits(k - 1);
    }
  }

  /** One bit per ratio, first ratio first: set exactly when the ratio exceeds the threshold. */
  function InheritBits(ratios: seq<int>, thresh: int): (bits: seq<bool>)
    ensures |bits| == |ratios|
  {
    seq(|ratios|, i requires 0 <= i < |ratios| => ratios[i] > thresh)
  }

  /**
    `parseInt(bits.join(''), 2)`; an empty ratio vector gives the empty string, which
    parses to NaN, written here as `None`.
   */
  function InheritCode(ratios: seq<int>, thresh: int): Option<nat> {
    if ratios == [] then None else Some(BitsToNat(InheritBits(ratios, thresh)))
  }

  /**
    The code of a ratio vector has bit `|ratios| - 1 - i` set exactly when `ratios[i]`
    exceeds the threshold (the first ratio is the most significant bit), and no bit
    beyond the vector's length.
   */
  lemma InheritCodeBits(ratios: seq<int>, thresh: int, k: nat)
    requires ratios != []
    ensures InheritCode(ratios, thresh).Some?
    ensures TestBit(InheritCode(ratios, thresh).value, k) <==>
      k < |ratios| && ratios[|ratios| - 1 - k] > thresh
  {
    BitsToNatBits(InheritBits(ratios, thresh), k);
  }

  /** With "World" among the races the threshold is 0, and ratios [0, 0] give code 0 (0 <= 0 is a '0' bit). */
  lemma InheritCodeUnderWorld()
    ensures InheritThreshold(["Fire", "World"]) == 0
    ensures InheritCode([0, 0], InheritThreshold(["Fire", "World"])) == Some(0)
    ensures InheritCode([1, 1], InheritThreshold(["Fire", "World"])) == Some(3)
    ensures InheritCode([1, 1], InheritThreshold(["Fire"])) == Some(0)
  {
    assert InheritBits([1, 1], 0) == [true, true];
    assert InheritBits([0, 0], 0) == [false, false];
    assert InheritBits([1, 1], 1) == [false, false];
    assert [true, true][..1] == [true] && [true][..0] == [];
    assert [false, false][..1] == [false] && [false][..0] == [];
  }

  // ------------------------------------------------------------------- demons

  function Sum(s: seq<int>): int
    decreases |s|
  {
    if s == [] then 0 else Sum(s[..|s| - 1]) + s[|s| - 1]
  }

  /** `resistCodes[char]`, `undefined` for a character the table lacks. */
  function ResistCode(resistCodes: map<char, int>, c: char): Option<int> {
    if c in resistCodes then Some(resistCodes[c]) else None
  }

  /** Each character of the resistance string looked up in the resistance-code table. */
  function Resists(resistCodes: map<char, int>, s: string): (r: seq<Option<int>>)
    ensures |r| == |s|
    ensures forall i :: 0 <= i < |s| ==> r[i] == ResistCode(resistCodes, s[i])
  {
    seq(|s|, i requires 0 <= i < |s| => ResistCode(resistCodes, s[i]))
  }

  /** `inheritCodes[elem]`: `undefined` for an unknown category, and NaN (also `None`) for an empty ratio vector. */
  function CodeOf(codes: Dict<string, Option<nat>>, elem: string): Option<nat> {
    if elem in codes.vals then codes.vals[elem] else None
  }

  /** The demon record built at compendium.ts:44-57. */
  function NormalizeDemon(name: string, raw: RawDemon, codes: Dict<string, Option<nat>>, resistCodes: map<char, int>): (d: Demon)
    ensures d.name == name && d.race == raw.race && d.lvl == raw.lvl && d.currLvl == d.lvl
    ensures d.price == Sum(raw.stats) * Sum(raw.stats) + 2000 && d.price >= 2000
    ensures d.cardLvl == raw.cardlvl.GetOr(0) && d.prereq == raw.prereq.GetOr("")
    ensures d.fusion == if raw.fusion.Some? && raw.fusion.value != "" then raw.fusion.value else "normal"
    ensures d.inherits == CodeOf(codes, raw.inherits)
    ensures |d.resists| == |raw.resists|
    ensures forall i :: 0 <= i < |raw.resists| ==> d.resists[i] == ResistCode(resistCodes, raw.resists[i])
    ensures d.stats == raw.stats && d.skills == raw.skills
  {
    OrZeroIsGetOr(raw.cardlvl, raw.prereq);
    var total := Sum(raw.stats);
    AllyDemon(
      name, raw.race, raw.lvl, raw.lvl, OrInt(raw.cardlvl, 0), total * total + 2000,
      CodeOf(codes, raw.inherits), raw.stats, Resists(resistCodes, raw.resists),
      raw.skills, OrStr(raw.fusion, "normal"), OrStr(raw.prereq, ""))
  }

  /** `NormalizeDemon` with the inheritance codes and resistance table fixed, as the loading loop applies it. */
  function DemonNormalizer(codes: Dict<string, Option<nat>>, resistCodes: map<char, int>): (string, RawDemon) -> Demon {
    (name: string, raw: RawDemon) => NormalizeDemon(name, raw, codes, resistCodes)
  }

  // -------------------------------------------------------------------- enemies

  /** A material or gem field counts as a drop when present, non-empty and not the placeholder "-". */
  predicate Qualifies(o: Option<string>) {
    TruthyStr(o) && o.value != "-"
  }

  /** The drop list of compendium.ts:63-73: material, gem, then the explicit drops, or the single placeholder "-". */
  function DropList(raw: RawEnemy): (ds: seq<string>)
    ensures ds != []
  {
    var found :=
      (if Qualifies(raw.material) then [raw.material.value] else []) +
      (if Qualifies(raw.gem) then [raw.gem.value] else []) +
      (if raw.drops.Some? then raw.drops.value else []);
    if found == [] then ["-"] else found
  }

  /** The enemy's skill object, as its entries: every listed skill at level 0, each name once. */
  function EnemySkills(names: seq<string>): seq<(string, int)> {
    PutAll(Empty(), seq(|names|, i requires 0 <= i < |names| => (names[i], 0))).Entries()
  }

  /** The enemy record built at compendium.ts:75-90. */
  function NormalizeEnemy(name: string, raw: RawEnemy, resistCodes: map<char, int>): (e: Enemy)
    ensures e.name == name && e.race == raw.race && e.lvl == raw.lvl && e.currLvl == e.lvl
    ensures e.price == 0 && e.inherits == Some(0) && e.isEnemy && e.fusion == "normal" && e.area == raw.area
    ensures e.stats + e.estats == raw.stats && |e.stats| <= 2 && (|raw.stats| >= 2 ==> |e.stats| == 2)
    ensures |e.resists| == |raw.resists|
    ensures forall i :: 0 <= i < |raw.resists| ==> e.resists[i] == ResistCode(resistCodes, LowerChar(raw.resists[i]))
    ensures e.drop == Join(DropList(raw), ", ")
    ensures e.skills == EnemySkills(raw.skills)
  {
    var cut := if |raw.stats| < 2 then |raw.stats| else 2;
    var stats, estats := raw.stats[..cut], raw.stats[cut..];
    assert raw.stats == stats + estats;
    var resists := Resists(resistCodes, ToLower(raw.resists));
    var skills := EnemySkills(raw.skills);
    var drop := Join(DropList(raw), ", ");
    EnemyDemon(name, raw.race, raw.lvl, raw.lvl, 0, Some(0), stats, estats, resists, skills, "normal", raw.area, drop, true)
  }

  function EnemyNormalizer(resistCodes: map<char, int>): (string, RawEnemy) -> Enemy {
    (name: string, raw: RawEnemy) => NormalizeEnemy(name, raw, resistCodes)
  }

  /** Every skill of an enemy maps to 0, each named skill appears once, and no other does. */
  lemma EnemySkillsSpec(names: seq<string>)
    ensures forall i :: 0 <= i < |EnemySkills(names)| ==> EnemySkills(names)[i].1 == 0 && EnemySkills(names)[i].0 in names
    ensures forall n :: n in names ==> (n, 0) in EnemySkills(names)
    ensures DistinctKeys(EnemySkills(names))
  {
    var kvs := seq(|names|, i requires 0 <= i < |names| => (names[i], 0));
    var d := PutAll(Empty(), kvs);
    var es := d.Entries();
    forall n ensures d.Get(n) == if n in names then Some(0) else None {
      PutAllLookup(Empty(), kvs, n);
      LastWriteIndex(kvs, n);
      if n in names {
        var i :| 0 <= i < |names| && names[i] == n;
        assert kvs[i].0 == n;
      }
      if LastWrite(kvs, n).Some? {
        LastWriteZero(kvs, n);
      }
    }
    forall i | 0 <= i < |es| ensures es[i].1 == 0 && es[i].0 in names {
      assert d.Get(es[i].0) == Some(es[i].1);
    }
    forall n | n in names ensures (n, 0) in es {
      assert n in d.vals;
      var i :| 0 <= i < |d.keys| && d.keys[i] == n;
      assert es[i] == (n, 0);
    }
  }

  /** A sequence of assignments that all write 0 leaves 0 behind. */
  lemma {:induction false} LastWriteZero(kvs: seq<(string, int)>, n: string)
    requires forall i :: 0 <= i < |kvs| ==> kvs[i].1 == 0
    ensures LastWrite(kvs, n).Some? ==> LastWrite(kvs, n) == Some(0)
    decreases |kvs|
  {
    if kvs != [] {
      LastWriteZero(kvs[..|kvs| - 1], n);
    }
  }

  /** The drop text splits back into the drop list when no entry contains the separator. */
  lemma DropTextSplits(raw: RawEnemy)
    requires forall i :: 0 <= i < |DropList(raw)| ==> !Contains(DropList(raw)[i], ", ")
    ensures Split(Join(DropList(raw), ", "), ", ") == DropList(raw)
  {
    forall n ensures !IsBorder(", ", n) {
      if 0 < n < 2 {
        assert ", "[..n] == [','] && ", "[2 - n..] == [' '];
      }
    }
    SplitJoin(DropList(raw), ", ");
  }

  /** A placeholder material with a gem and no drops yields just the gem; nothing that qualifies yields "-". */
  lemma DropScenarios()
    ensures Join(DropList(RawEnemy("", 0, [], "", [], "", Some("-"), Some("Ice Gem"), Some([]))), ", ") == "Ice Gem"
    ensures Join(DropList(RawEnemy("", 0, [], "", [], "", None, Some("-"), None)), ", ") == "-"
  {
  }

  // --------------------------------------------------------------------- skills

  /** The effect text: with a non-zero power, the power, " power" and, when there is an effect, ", " and the effect; otherwise the effect. */
  function EffectText(power: Option<int>, effect: Option<string>): Option<string> {
    if TruthyInt(power) then
      Some(IntToString(power.value) + " power" + (if TruthyStr(effect) then ", " + effect.value else ""))
    else effect
  }

  /** A power of 40 with effect "Burn" reads "40 power, Burn"; a power of 40 alone reads "40 power". */
  lemma EffectScenarios()
    ensures EffectText(Some(40), Some("Burn")) == Some("40 power, Burn")
    ensures EffectText(Some(40), None) == Some("40 power")
    ensures EffectText(Some(0), Some("Burn")) == Some("Burn")
  {
    assert DigitChar(4) == '4' && DigitChar(0) == '0';
    assert NatToString(40) == NatToString(4) + [DigitChar(0)] == "40";
    assert IntToString(40) == "40";
    assert "40" + " power" == "40 power";
    assert ", " + "Burn" == ", Burn";
    assert "40 power" + ", Burn" == "40 power, Burn";
    assert "40 power" + "" == "40 power";
  }

  /** The card's demon names, comma-separated, each paired with that demon's card level, or -100 for an unknown demon. */
  function Transfer(card: string, demons: Dict<string, Demon>): (t: seq<DemonLevel>)
    ensures |t| == |Split(card, ", ")|
    ensures forall i :: 0 <= i < |t| ==>
      && t[i].demon == Split(card, ", ")[i]
      && t[i].level == (if t[i].demon in demons.vals then demons.vals[t[i].demon].cardLvl else -100)
  {
    var names := Split(card, ", ");
    seq(|names|, i requires 0 <= i < |names| =>
      DemonLevel(names[i], if names[i] in demons.vals then demons.vals[names[i]].cardLvl else -100))
  }

  /** The skill record built at compendium.ts:96-110. */
  function NormalizeSkill(name: string, raw: RawSkill, demons: Dict<string, Demon>): (s: Skill)
    ensures s.name == name && s.element == raw.element && s.cost == raw.cost.GetOr(0)
    ensures s.rank == if raw.rank.Some? && raw.rank.value != 0 then raw.rank.value else 99
    ensures s.target == if raw.target.Some? && raw.target.value != "" then raw.target.value else "Self"
    ensures s.effect == EffectText(raw.power, raw.effect)
    ensures s.learnedBy == [] && s.level == 0
    ensures s.transfer == if raw.card.Some? && raw.card.value != "" then Transfer(raw.card.value, demons) else []
  {
    OrZeroIsGetOr(raw.cost, None);
    Skill(
      name, raw.element, OrInt(raw.cost, 0), OrInt(raw.rank, 99), EffectText(raw.power, raw.effect),
      OrStr(raw.target, "Self"), [], if TruthyStr(raw.card) then Transfer(raw.card.value, demons) else [], 0)
  }

  function SkillNormalizer(demons: Dict<string, Demon>): (string, RawSkill) -> Skill {
    (name: string, raw: RawSkill) => NormalizeSkill(name, raw, demons)
  }
}
