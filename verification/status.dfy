/** The two-valued `estado` column shared by productions, sensors, cycles,
    cultivos and insumos, the flip every list view's toggle button applies,
    and the badge that displays it. */
module Status {
  const Activo: string := "activo"
  const Inactivo: string := "inactivo"

  /** One of the two values the server accepts for a status change. */
  predicate IsStatus(e: string) {
    e == Activo || e == Inactivo
  }

  /** The toggle target: `activo` becomes `inactivo`, anything else
      becomes `activo`. */
  function Flip(e: string): (r: string)
    ensures IsStatus(r)
    ensures r == Inactivo <==> e == Activo
  {
    if e == Activo then Inactivo else Activo
  }

  /** Two flips restore a status value, and a flip always changes one. */
  lemma FlipTwice(e: string)
    ensures IsStatus(e) ==> Flip(Flip(e)) == e && Flip(e) != e
    ensures !IsStatus(e) ==> Flip(Flip(e)) == Inactivo
  {
  }

  /** The label and colour of a state badge. */
  datatype Badge = Badge(caption: string, success: bool)

  /** `createStateBadge(state)`: a green `Activo` badge exactly for
      `activo`, a red `Inactivo` one for every other value. */
  function StateBadge(state: string): (b: Badge)
    ensures b.caption == "Activo" <==> state == Activo
    ensures b.caption == "Activo" || b.caption == "Inactivo"
    ensures b.success <==> b.caption == "Activo"
  {
    if state == Activo then Badge("Activo", true) else Badge("Inactivo", false)
  }

  /** The badge shows the state a flip would leave, flipped: toggling a
      row turns an `Activo` badge into `Inactivo` and back. */
  lemma BadgeAfterFlip(state: string)
    ensures StateBadge(Flip(state)).success <==> !StateBadge(state).success
  {
  }
}
