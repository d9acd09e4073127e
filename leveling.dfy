/**
 * The leveling policy (`nivelFromXp` in src/services/perfilService.ts): three
 * tiers of cumulative XP and the XP at which the next tier starts.
 */
module Leveling {

  datatype Label = Iniciante | Intermediario | Avancado

  /** The text stored in the `nivel` column and published in `xp.adjusted.v1`. */
  function LabelText(l: Label): string {
    match l
    case Iniciante => "Iniciante"
    case Intermediario => "Intermediário"
    case Avancado => "Avançado"
  }

  /** The position of a tier, lowest first. */
  function Tier(l: Label): nat {
    match l
    case Iniciante => 0
    case Intermediario => 1
    case Avancado => 2
  }

  /** The least XP of a tier. */
  function TierStart(l: Label): int {
    match l
    case Iniciante => 0
    case Intermediario => 1000
    case Avancado => 3000
  }

  datatype Nivel = Nivel(nivelLabel: Label, proximoNivelXp: int)

  function NivelFromXp(xp: int): Nivel {
    var l := if xp >= 3000 then Avancado else if xp >= 1000 then Intermediario else Iniciante;
    var proximo := if xp >= 1000 && xp < 3000 then 3000 else if xp >= 3000 then xp else 1000;
    Nivel(l, proximo)
  }

  /** Distinct tiers are stored as distinct texts. */
  lemma LabelTextInjective(a: Label, b: Label)
    ensures LabelText(a) == LabelText(b) ==> a == b
  {
  }

  /** The label is the highest tier whose start the XP has reached (the lowest tier for negative XP). */
  lemma LabelIsHighestReachedTier(xp: int)
    ensures var l := NivelFromXp(xp).nivelLabel;
      (l == Iniciante || TierStart(l) <= xp)
      && forall m: Label :: Tier(m) > Tier(l) ==> xp < TierStart(m)
  {
  }

  /** More XP never gives a lower tier. */
  lemma TierMonotone(x: int, y: int)
    requires x <= y
    ensures Tier(NivelFromXp(x).nivelLabel) <= Tier(NivelFromXp(y).nivelLabel)
  {
  }

  /**
   * Below the top tier the next threshold is the start of the next tier, so it
   * lies strictly above the XP; in the top tier it is the XP itself.
   */
  lemma ProximoIsNextTierStart(xp: int)
    ensures var n := NivelFromXp(xp);
      match n.nivelLabel
      case Iniciante => n.proximoNivelXp == TierStart(Intermediario) && n.proximoNivelXp > xp
      case Intermediario => n.proximoNivelXp == TierStart(Avancado) && n.proximoNivelXp > xp
      case Avancado => n.proximoNivelXp == xp
  {
  }

  lemma Boundaries()
    ensures NivelFromXp(-5) == Nivel(Iniciante, 1000)
    ensures NivelFromXp(999).nivelLabel == Iniciante && NivelFromXp(1000).nivelLabel == Intermediario
    ensures NivelFromXp(2999).nivelLabel == Intermediario && NivelFromXp(3000).nivelLabel == Avancado
    ensures NivelFromXp(4200).proximoNivelXp == 4200
  {
  }
}
