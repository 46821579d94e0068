/** The player's progression and vitals (`window.Player` in
    rpg-vibe-2025/js/engine/game.js): experience with one level-up per award,
    and energy/health bounded by their maxima. */
module Player {
  import opened Common

  /** XP needed to leave level `level`: `level * 100`. */
  function XpToLevelUp(level: int): int {
    level * 100
  }

  datatype Player = Player(
    level: int,
    xp: int,
    energy: int,
    maxEnergy: int,
    health: int,
    maxHealth: int)

  /** A new game's player: level 1, no XP, full energy and health of 100. */
  const Fresh := Player(1, 0, 100, 100, 100, 100)

  /** All XP ever earned: the XP spent on the levels already left
      (100 + 200 + ... + 100 * (level - 1)) plus the XP held now. */
  function LifetimeXp(p: Player): int {
    50 * p.level * (p.level - 1) + p.xp
  }

  /** Awards `amount` XP. Crossing the current level's bar spends that bar
      and raises the level by exactly one, however much XP is left over;
      each level grants +10 maximum energy and +5 maximum health. */
  function AddXP(p: Player, amount: int): (r: Player)
    ensures r.level == p.level || r.level == p.level + 1
    ensures r.level == p.level + 1 <==> p.xp + amount >= XpToLevelUp(p.level)
    ensures LifetimeXp(r) == LifetimeXp(p) + amount
    ensures r.maxEnergy == p.maxEnergy + 10 * (r.level - p.level)
    ensures r.maxHealth == p.maxHealth + 5 * (r.level - p.level)
    ensures r.energy == p.energy && r.health == p.health
  {
    var total := p.xp + amount;
    var needed := XpToLevelUp(p.level);
    if total >= needed then
      p.(xp := total - needed, level := p.level + 1,
         maxEnergy := p.maxEnergy + 10, maxHealth := p.maxHealth + 5)
    else
      p.(xp := total)
  }

  /** Energy rises by `amount` but never above the maximum. */
  function RestoreEnergy(p: Player, amount: int): (r: Player)
    ensures r.energy <= p.maxEnergy && r.energy <= p.energy + amount
    ensures r.energy == p.maxEnergy || r.energy == p.energy + amount
    ensures r == p.(energy := r.energy)
  {
    p.(energy := Min(p.maxEnergy, p.energy + amount))
  }

  /** Health rises by `amount` but never above the maximum. */
  function RestoreHealth(p: Player, amount: int): (r: Player)
    ensures r.health <= p.maxHealth && r.health <= p.health + amount
    ensures r.health == p.maxHealth || r.health == p.health + amount
    ensures r == p.(health := r.health)
  {
    p.(health := Min(p.maxHealth, p.health + amount))
  }

  /** Spends `amount` energy if that much is available; otherwise nothing
      happens. Energy never goes negative through it. */
  function UseEnergy(p: Player, amount: int): (r: (Player, bool))
    ensures r.1 <==> p.energy >= amount
    ensures r.1 ==> r.0 == p.(energy := p.energy - amount) && r.0.energy >= 0
    ensures !r.1 ==> r.0 == p
  {
    if p.energy >= amount then (p.(energy := p.energy - amount), true)
    else (p, false)
  }

  /** One award never yields two levels: a player at level 1 with 0 XP who
      receives 350 XP reaches level 2 and keeps 250 XP, although 250 is
      already past level 2's bar of 200. */
  lemma OneLevelPerAward()
    ensures AddXP(Fresh, 350).level == 2
    ensures AddXP(Fresh, 350).xp == 250
    ensures AddXP(Fresh, 350).xp >= XpToLevelUp(2)
  {
  }

  /** Two awards in a row add up: lifetime XP grows by their sum, so no XP
      is lost at a level boundary. */
  lemma AwardsAccumulate(p: Player, a: int, b: int)
    ensures LifetimeXp(AddXP(AddXP(p, a), b)) == LifetimeXp(p) + a + b
  {
  }
}
