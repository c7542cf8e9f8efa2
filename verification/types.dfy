/** Value types shared by every part of the stage controller. */
module Types {

  /** The conventional Some/None datatype, used for absent values (a missing
      storage entry, an unparseable timestamp, a rejected password). */
  datatype Option<+T> = None | Some(value: T)

  /** The two roles a password can unlock. */
  datatype UserMode = Aliya | Admin

  /** The text the program uses for a role, as written into the session record. */
  function ModeName(m: UserMode): string
  {
    match m
    case Aliya => "Aliya"
    case Admin => "Admin"
  }

  /** A mode as held in memory. A restored session record may carry any truthy
      value under `mode`, and the program adopts it without checking that it
      names a role: `Other` stands for such a value, by its JSON text. */
  datatype ModeValue = Known(role: UserMode) | Other(repr: string)

  /** Distinct roles have distinct names, so a stored name identifies its role. */
  lemma ModeNameInjective(m1: UserMode, m2: UserMode)
    ensures ModeName(m1) == ModeName(m2) <==> m1 == m2
  {
    if m1 != m2 {
      assert ModeName(m1)[1] != ModeName(m2)[1];
    }
  }
}
