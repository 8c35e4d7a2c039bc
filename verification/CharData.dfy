/**
 Hit points and mana by class, level and stats, in the integer arithmetic of the
 formulas they follow, and the character built from its tables.
 */
module CharData {
  import opened Arithmetic
  import opened Options
  import opened Reals

  const BASE: int := 10
  const MIN_MANA: real := 20.0

  function HpLevelFactor(cls: string, level: int): (f: int)
    ensures 120 <= f <= 311
  {
    if cls == "Warrior" then
      if level < 20 then 220 else if level < 30 then 230 else if level < 40 then 250
      else if level < 53 then 270 else if level < 57 then 280 else if level < 60 then 290
      else if level < 70 then 300 else 311
    else if cls in ["Cleric", "Druid", "Shaman"] then
      if level < 70 then 150 else 157
    else if cls in ["Paladin", "Shadow Knight"] then
      if level < 35 then 210 else if level < 45 then 220 else if level < 51 then 230
      else if level < 56 then 240 else if level < 60 then 250 else if level < 68 then 260 else 270
    else if cls in ["Monk", "Bard", "Rogue", "Beast Master"] then
      if level < 51 then 180 else if level < 58 then 190 else if level < 70 then 200 else 210
    else if cls in ["Ranger", "Witch Hunter"] then
      if level < 58 then 200 else if level < 70 then 210 else 220
    else if cls in ["Magician", "Wizard", "Necromancer", "Enchanter", "Sorcerer", "Blood Mage"] then
      if level < 70 then 120 else 127
    else
      if level < 35 then 210 else if level < 45 then 220 else if level < 51 then 230
      else if level < 56 then 240 else if level < 60 then 250 else 260
  }

  datatype ManaStat = Int | Wis

  function ManaStatOf(cls: string): Option<ManaStat> {
    if cls in ["Wizard", "Magician", "Necromancer", "Enchanter", "Shadow Knight", "Bard",
               "Sorcerer", "Blood Mage", "Witch Hunter"] then Some(Int)
    else if cls in ["Cleric", "Druid", "Shaman", "Paladin", "Ranger", "Beast Master"] then Some(Wis)
    else None
  }

  function BaseHp(cls: string, level: int, constitution: int): int {
    var lm := HpLevelFactor(cls, level);
    var con := MaxInt(constitution, 0);
    MaxInt(5 + Quot(level * lm, 10) + Quot(con * level * lm, 3000), 1)
  }

  /** The mana a stat gives at a level, the stat flattened past 199. */
  function ManaFrom(stat: nat, level: int): int {
    var lesser := MaxInt(Quot(stat - 199, 2), 0);
    var mind := stat - lesser;
    if stat > 100 then Quot(Quot(5 * (mind + 20), 2) * 3 * level, 40)
    else Quot(Quot(5 * (mind + 200), 2) * 3 * level, 100)
  }

  function BaseMana(cls: string, level: int, intelligence: int, wisdom: int): int {
    match ManaStatOf(cls)
    case None => 0
    case Some(Int) => ManaFrom(MaxInt(intelligence, 0), level)
    case Some(Wis) => ManaFrom(MaxInt(wisdom, 0), level)
  }

  /**
   Hit points are five, a tenth of the class factor a level, and constitution's share, short of
   it by two roundings.
   */
  lemma HpFollowsTheFormula(cls: string, level: nat, constitution: nat)
    ensures
      var f := HpLevelFactor(cls, level);
      var exact := 5.0 + (level * f) as real / 10.0 + (constitution * level * f) as real / 3000.0;
      BaseHp(cls, level, constitution) as real <= exact < BaseHp(cls, level, constitution) as real + 2.0
  {
    var f := HpLevelFactor(cls, level);
    ProductMono(0, 0, level, f);
    ProductMono(0, 0, constitution * level, f);
    RoundedDown(level * f, 10);
    RoundedDown(constitution * level * f, 3000);
  }

  lemma RoundedDown(a: nat, n: nat)
    requires n in {10, 3000}
    ensures Quot(a, n) as real <= a as real / n as real < Quot(a, n) as real + 1.0
  {
  }

  /** The anchors the formulas were set to: a Human Warrior's at fifty, a Wizard's at birth, casters' on each branch. */
  lemma PoolsAtTheAnchors()
    ensures BaseHp("Warrior", 50, 118) == 1886 && BaseHp("Wizard", 1, 12) == 17
    ensures BaseMana("Wizard", 1, 30, 0) == 17
    ensures BaseMana("Wizard", 100, 101, 10) == 2265 && BaseMana("Wizard", 1, 250, 10) == 45
    ensures HpLevelFactor("Warrior", 19) == 220 && HpLevelFactor("Witch Hunter", 10) == 200
  {
    FactorsAtTheAnchors();
    assert ManaStatOf("Wizard") == Some(Int);
    assert ManaFrom(30, 1) == 17 && ManaFrom(101, 100) == 2265 && ManaFrom(250, 1) == 45;
  }

  lemma FactorsAtTheAnchors()
    ensures HpLevelFactor("Warrior", 19) == 220 && HpLevelFactor("Warrior", 50) == 270
    ensures HpLevelFactor("Wizard", 1) == 120 && HpLevelFactor("Witch Hunter", 10) == 200
  {
  }

  const ARCANE := ["Wizard", "Magician", "Necromancer", "Enchanter", "Sorcerer", "Blood Mage",
                   "Bard", "Shadow Knight", "Witch Hunter"]
  const PRIESTLY := ["Cleric", "Druid", "Shaman", "Paladin", "Ranger", "Beast Master"]

  /** An arcane class's mana knows nothing of wisdom, a priestly one's nothing of intelligence. */
  lemma ManaFollowsItsStat(cls: string, level: int, int1: int, wis1: int, int2: int, wis2: int)
    ensures cls in ARCANE && int1 == int2 ==> BaseMana(cls, level, int1, wis1) == BaseMana(cls, level, int2, wis2)
    ensures cls in PRIESTLY && wis1 == wis2 ==> BaseMana(cls, level, int1, wis1) == BaseMana(cls, level, int2, wis2)
  {
  }

  /** At a stat of a hundred it is twenty-two and a half a level, rounded down, whatever the other stat. */
  lemma ManaAtAHundred(cls: string, level: nat, other: int)
    ensures cls in ARCANE ==> BaseMana(cls, level, 100, other) == 45 * level / 2
    ensures cls in PRIESTLY ==> BaseMana(cls, level, other, 100) == 45 * level / 2
    ensures cls !in ARCANE && cls !in PRIESTLY ==> BaseMana(cls, level, 100, 100) == 0
  {
    assert Quot(5 * (100 + 200), 2) * 3 * level == 2250 * level;
    assert 2250 * level / 100 == 45 * level / 2;
  }

  // --------------------------------------------------------------- monotonicity

  lemma ProductMono(a: int, b: int, c: int, d: int)
    requires 0 <= a <= c && 0 <= b <= d
    ensures 0 <= a * b <= c * d
  {
    assert a * b <= c * b;
    assert c * b <= c * d;
  }

  lemma QuotMono(a: int, b: int, n: int)
    requires a <= b && n in {10, 3000}
    ensures Quot(a, n) <= Quot(b, n)
  {
    if n == 10 {
      assert Quot(a, 10) <= Quot(b, 10);
    } else {
      assert Quot(a, 3000) <= Quot(b, 3000);
    }
  }

  lemma FactorNeverFalls(cls: string, low: int, high: int)
    requires low <= high
    ensures HpLevelFactor(cls, low) <= HpLevelFactor(cls, high)
  {
  }

  /** Before level one the formula bottoms out at a single hit point. */
  lemma NoLevelOneHitPoint(cls: string, level: int, constitution: int)
    requires level < 0
    ensures BaseHp(cls, level, constitution) == 1
  {
    var lm, con := HpLevelFactor(cls, level), MaxInt(constitution, 0);
    assert level * lm <= -120 by { ProductMono(1, 120, -level, lm); }
    assert con * level * lm <= 0 by {
      ProductMono(0, 0, con, -level);
      ProductMono(0, 0, con * -level, lm);
      assert con * level * lm == -(con * -level * lm);
    }
    QuotMono(level * lm, -120, 10);
    QuotMono(con * level * lm, 0, 3000);
  }

  /** Hit points never fall as the level or the constitution rises, across every class and band. */
  lemma BaseHpNeverFalls(cls: string, low: int, high: int, con: int, con': int)
    requires low <= high && con <= con'
    ensures 1 <= BaseHp(cls, low, con) <= BaseHp(cls, high, con')
  {
    if low < 0 {
      NoLevelOneHitPoint(cls, low, con);
    } else {
      FactorNeverFalls(cls, low, high);
      var f, f' := HpLevelFactor(cls, low), HpLevelFactor(cls, high);
      var c, c' := MaxInt(con, 0), MaxInt(con', 0);
      ProductMono(low, f, high, f');
      ProductMono(c, low, c', high);
      ProductMono(c * low, f, c' * high, f');
      QuotMono(low * f, high * f', 10);
      QuotMono(c * low * f, c' * high * f', 3000);
    }
  }

  function Mind(stat: nat): int {
    stat - MaxInt(Quot(stat - 199, 2), 0)
  }

  lemma MindMono(s: nat, t: nat)
    requires s <= t
    ensures 0 <= Mind(s) <= Mind(t)
    ensures s <= 100 ==> Mind(s) == s
    ensures s > 100 ==> Mind(s) >= 101
  {
  }

  /** Mana never falls as the level or the stat rises, the change of formula past 100 included. */
  lemma ManaFromNeverFalls(s: nat, t: nat, low: nat, high: nat)
    requires s <= t && low <= high
    ensures 0 <= ManaFrom(s, low) <= ManaFrom(t, high)
  {
    MindMono(s, t);
    var small, large := Mind(s), Mind(t);
    if t <= 100 {
      ProductMono(Quot(5 * (small + 200), 2) * 3, low, Quot(5 * (large + 200), 2) * 3, high);
    } else if s > 100 {
      ProductMono(Quot(5 * (small + 20), 2) * 3, low, Quot(5 * (large + 20), 2) * 3, high);
    } else {
      ProductMono(Quot(5 * (small + 200), 2) * 3, low, 2250, high);
      ProductMono(906, high, Quot(5 * (large + 20), 2) * 3, high);
      assert 2250 * high / 100 <= 906 * high / 40;
    }
  }

  lemma BaseManaNeverFalls(cls: string, low: nat, high: nat, int0: int, wis0: int, int1: int, wis1: int)
    requires low <= high && int0 <= int1 && wis0 <= wis1
    ensures 0 <= BaseMana(cls, low, int0, wis0) <= BaseMana(cls, high, int1, wis1)
  {
    match ManaStatOf(cls)
    case None =>
    case Some(Int) => ManaFromNeverFalls(MaxInt(int0, 0), MaxInt(int1, 0), low, high);
    case Some(Wis) => ManaFromNeverFalls(MaxInt(wis0, 0), MaxInt(wis1, 0), low, high);
  }

  /** A class with a mana stat has some mana from level one, whatever the stat. */
  lemma ManaIffCaster(cls: string, level: int, intelligence: int, wisdom: int)
    requires level >= 1
    ensures BaseMana(cls, level, intelligence, wisdom) == 0 <==> ManaStatOf(cls).None?
  {
    if ManaStatOf(cls).Some? {
      var stat := if ManaStatOf(cls) == Some(Int) then MaxInt(intelligence, 0) else MaxInt(wisdom, 0);
      ManaFromNeverFalls(0, stat, 1, level);
    }
  }

  // ---------------------------------------------------------- the whole character

  datatype StatBlock = StatBlock(
    strength: int, dexterity: int, agility: int, intelligence: int, wisdom: int, charisma: int, constitution: int)
  {
    function Plus(o: StatBlock): StatBlock {
      StatBlock(strength + o.strength, dexterity + o.dexterity, agility + o.agility,
                intelligence + o.intelligence, wisdom + o.wisdom, charisma + o.charisma,
                constitution + o.constitution)
    }

    function Times(n: int): StatBlock {
      StatBlock(n * strength, n * dexterity, n * agility, n * intelligence, n * wisdom, n * charisma, n * constitution)
    }
  }

  function Flat(v: int): StatBlock {
    StatBlock(v, v, v, v, v, v, v)
  }

  /** The rows the tables hold for a race and a class; absent ones are the defaults. */
  datatype Tables = Tables(race: StatBlock, bonuses: StatBlock, staminaBonus: real, gain: StatBlock, staminaGain: real)

  datatype Computed = Computed(stats: StatBlock, maxHp: real, maxMp: real, maxStamina: real)

  function Level(level: int): int {
    if level < 1 then 1 else if level > 99 then 99 else level
  }

  function MaxStaminaAtBirth(t: Tables): real {
    if 100.0 + t.staminaBonus >= 20.0 then 100.0 + t.staminaBonus else 20.0
  }

  /** Hit points and mana by the formulas, from the grown stats. */
  function Resources(cls: string, l: int, stats: StatBlock, maxStamina: real): Computed {
    var mana := BaseMana(cls, l, stats.intelligence, stats.wisdom);
    var maxMana := if mana == 0 then MIN_MANA else mana as real;
    Computed(stats, BaseHp(cls, l, stats.constitution) as real, maxMana, maxStamina)
  }

  /** A character at a level in closed form: the birth block and a gain for every level after the first. */
  function CharacterAt(cls: string, level: int, t: Tables): Computed {
    var l := Level(level);
    Resources(cls, l, StatsAt(l, t), StaminaAt(l, t))
  }

  function StatsAt(l: int, t: Tables): StatBlock {
    Flat(BASE).Plus(t.race).Plus(t.bonuses).Plus(t.gain.Times(l - 1))
  }

  function StaminaAt(l: int, t: Tables): real {
    MaxStaminaAtBirth(t) + (l - 1) as real * t.staminaGain
  }

  /** A block after `n` gains, one at a time. */
  function Grown(birth: StatBlock, gain: StatBlock, n: nat): StatBlock {
    if n == 0 then birth else Grown(birth, gain, n - 1).Plus(gain)
  }

  function GrownStamina(birth: real, gain: real, n: nat): real {
    if n == 0 then birth else GrownStamina(birth, gain, n - 1) + gain
  }

  lemma {:induction false} GrowthIsLinear(t: Tables, birth: StatBlock, stamina: real, n: nat)
    ensures Grown(birth, t.gain, n) == birth.Plus(t.gain.Times(n))
    ensures GrownStamina(stamina, t.staminaGain, n) == stamina + n as real * t.staminaGain
  {
    if n > 0 {
      GrowthIsLinear(t, birth, stamina, n - 1);
      assert n as real * t.staminaGain == (n - 1) as real * t.staminaGain + t.staminaGain;
    }
  }

  /** The loop over the levels a character has gained. */
  method GrowTo(lvl: int, t: Tables) returns (stats: StatBlock, maxStamina: real)
    requires lvl >= 1
    ensures stats == StatsAt(lvl, t) && maxStamina == StaminaAt(lvl, t)
  {
    stats := Flat(BASE).Plus(t.race).Plus(t.bonuses);
    maxStamina := MaxStaminaAtBirth(t);
    ghost var birth := stats;
    var i := 1;
    while i < lvl
      invariant 1 <= i <= lvl
      invariant stats == Grown(birth, t.gain, i - 1)
      invariant maxStamina == GrownStamina(MaxStaminaAtBirth(t), t.staminaGain, i - 1)
    {
      stats := stats.Plus(t.gain);
      maxStamina := maxStamina + t.staminaGain;
      i := i + 1;
    }
    GrowthIsLinear(t, birth, MaxStaminaAtBirth(t), lvl - 1);
  }

  /** `compute`: the character, built level by level. */
  method Compute(cls: string, level: int, t: Tables) returns (c: Computed)
    ensures c == CharacterAt(cls, level, t)
  {
    var lvl := Level(level);
    var stats, maxStamina := GrowTo(lvl, t);
    c := Resources(cls, lvl, stats, maxStamina);
  }

  /**
   Every stat is ten, the race's, the class's, and the class's gain for each level after the
   first; 99 is the last level.
   */
  lemma StatsByField(cls: string, level: int, t: Tables)
    ensures
      var s, l := CharacterAt(cls, level, t).stats, if level < 1 then 1 else if level > 99 then 99 else level;
      && s.strength == 10 + t.race.strength + t.bonuses.strength + (l - 1) * t.gain.strength
      && s.dexterity == 10 + t.race.dexterity + t.bonuses.dexterity + (l - 1) * t.gain.dexterity
      && s.agility == 10 + t.race.agility + t.bonuses.agility + (l - 1) * t.gain.agility
      && s.intelligence == 10 + t.race.intelligence + t.bonuses.intelligence + (l - 1) * t.gain.intelligence
      && s.wisdom == 10 + t.race.wisdom + t.bonuses.wisdom + (l - 1) * t.gain.wisdom
      && s.charisma == 10 + t.race.charisma + t.bonuses.charisma + (l - 1) * t.gain.charisma
      && s.constitution == 10 + t.race.constitution + t.bonuses.constitution + (l - 1) * t.gain.constitution
  {
  }

  lemma ResourcesFollow(cls: string, l: int, stats: StatBlock, stamina: real)
    requires l >= 1
    ensures Resources(cls, l, stats, stamina).maxHp == BaseHp(cls, l, stats.constitution) as real
    ensures Resources(cls, l, stats, stamina).maxStamina == stamina
    ensures ManaStatOf(cls).Some? ==>
      Resources(cls, l, stats, stamina).maxMp == BaseMana(cls, l, stats.intelligence, stats.wisdom) as real
  {
    ManaIffCaster(cls, l, stats.intelligence, stats.wisdom);
  }

  /**
   Stamina is a hundred and the class's bonus, twenty at least, and the class's gain for each
   level after the first.
   */
  lemma StaminaGrows(l: int, t: Tables)
    ensures StaminaAt(1, t) == Max(100.0 + t.staminaBonus, 20.0)
    ensures StaminaAt(l + 1, t) == StaminaAt(l, t) + t.staminaGain
  {
    assert l as real * t.staminaGain == (l - 1) as real * t.staminaGain + t.staminaGain;
  }

  /** The pools are those its level and its own stats make: constitution's hit points, the mana stat's mana. */
  lemma PoolsFollowStats(cls: string, level: int, t: Tables)
    ensures
      var c, l := CharacterAt(cls, level, t), Level(level);
      && c.maxHp == BaseHp(cls, l, c.stats.constitution) as real && c.maxStamina == StaminaAt(l, t)
      && (ManaStatOf(cls).Some? ==> c.maxMp == BaseMana(cls, l, c.stats.intelligence, c.stats.wisdom) as real)
  {
    ResourcesFollow(cls, Level(level), StatsAt(Level(level), t), StaminaAt(Level(level), t));
  }

  /** The token mana pool goes exactly to the classes without a mana stat, at every level. */
  lemma MinManaIffNoManaStat(cls: string, level: int, t: Tables)
    ensures
      var s, l := CharacterAt(cls, level, t).stats, Level(level);
      BaseMana(cls, l, s.intelligence, s.wisdom) == 0 <==> ManaStatOf(cls).None?
    ensures ManaStatOf(cls).None? ==> CharacterAt(cls, level, t).maxMp == MIN_MANA
    ensures CharacterAt(cls, level, t).maxMp > 0.0 && CharacterAt(cls, level, t).maxHp > 0.0
  {
    var s, l := CharacterAt(cls, level, t).stats, Level(level);
    ManaIffCaster(cls, l, s.intelligence, s.wisdom);
    BaseHpNeverFalls(cls, l, l, s.constitution, s.constitution);
    if ManaStatOf(cls).Some? {
      BaseManaNeverFalls(cls, l, l, s.intelligence, s.wisdom, s.intelligence, s.wisdom);
    }
  }

  /** A level never costs a character hit points or mana when its class gains no stat backwards. */
  lemma LevellingNeverCosts(cls: string, low: int, high: int, t: Tables)
    requires low <= high
    requires t.gain.constitution >= 0 && t.gain.intelligence >= 0 && t.gain.wisdom >= 0
    ensures CharacterAt(cls, low, t).maxHp <= CharacterAt(cls, high, t).maxHp
    ensures CharacterAt(cls, low, t).maxMp <= CharacterAt(cls, high, t).maxMp
  {
    var l, h := Level(low), Level(high);
    var a, b := CharacterAt(cls, low, t).stats, CharacterAt(cls, high, t).stats;
    ProductMono(l - 1, t.gain.constitution, h - 1, t.gain.constitution);
    ProductMono(l - 1, t.gain.intelligence, h - 1, t.gain.intelligence);
    ProductMono(l - 1, t.gain.wisdom, h - 1, t.gain.wisdom);
    BaseHpNeverFalls(cls, l, h, a.constitution, b.constitution);
    BaseManaNeverFalls(cls, l, h, a.intelligence, a.wisdom, b.intelligence, b.wisdom);
    ManaIffCaster(cls, l, a.intelligence, a.wisdom);
    ManaIffCaster(cls, h, b.intelligence, b.wisdom);
  }
}
