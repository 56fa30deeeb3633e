/** One slot of the sandbox: the record every grid position holds. */
module Particles {

  /** The two materials the sandbox knows. */
  datatype Variant = Sand | Brick

  /** A slot record. An inactive record is empty space; its variant is
      irrelevant to the simulation but is kept, because the record is reused
      when material moves into the slot. */
  datatype Particle = Particle(id: int, variant: Variant, active: bool)

  /** The brushes' write rule: an occupied slot is left as it is, an empty
      one takes the brush's variant and becomes active.  The slot keeps its
      id either way. */
  function Fill(p: Particle, v: Variant): (q: Particle)
    ensures q.active && q.id == p.id
    ensures p.active ==> q == p
    ensures !p.active ==> q.variant == v
  {
    if p.active then p else p.(variant := v, active := true)
  }
}
