/** Lock modes of multi-granularity locking (Gray, Lorie, Putzolu, Traiger: Granularity of
    Locks and Degrees of Consistency in a Shared Data Base). */
module LockModes {

  datatype Mode = S | X | IS | IX | SIX

  /** The compatibility matrix. */
  predicate Compatible(a: Mode, b: Mode) {
    match a
    case IS => b != X
    case IX => b == IS || b == IX
    case S => b == IS || b == S
    case SIX => b == IS
    case X => false
  }

  /** Rank by privilege, highest first. */
  function Coverage(m: Mode): nat {
    match m
    case X => 0
    case SIX => 1
    case S => 2
    case IX => 2
    case IS => 3
  }

  /** Does holding `a` make asking for `b` unnecessary?  S and IX are incomparable. */
  predicate Covers(a: Mode, b: Mode) {
    if (a == S && b == IX) || (b == S && a == IX) then false else Coverage(a) <= Coverage(b)
  }

  /** The mode a transaction asks for when it holds `held` and needs `mode`. */
  function Upgrade(held: Mode, mode: Mode): Mode {
    if Covers(held, mode) then held
    else if (held == S && mode == IX) || (mode == S && held == IX) then SIX
    else mode
  }

  // ---------------------------------------------------------------- what the modes are for

  predicate ReadsWhole(m: Mode) { m == S || m == SIX || m == X }

  predicate WritesWhole(m: Mode) { m == X }

  predicate WritesParts(m: Mode) { m == IX || m == SIX || m == X }

  /** One writes the whole, or one reads the whole of what the other writes parts of. */
  predicate Clash(a: Mode, b: Mode) {
    || WritesWhole(a) || WritesWhole(b)
    || (ReadsWhole(a) && WritesParts(b)) || (WritesParts(a) && ReadsWhole(b))
  }

  /** Two transactions may hold a granule together exactly when their accesses do not clash. */
  lemma CompatibleIff(a: Mode, b: Mode)
    ensures Compatible(a, b) <==> !Clash(a, b)
  {
  }

  /** A mode covers another exactly when it gives every access the other gives. */
  lemma CoversIff(a: Mode, b: Mode)
    ensures Covers(a, b) <==>
              && (ReadsWhole(b) ==> ReadsWhole(a))
              && (WritesWhole(b) ==> WritesWhole(a))
              && (WritesParts(b) ==> WritesParts(a))
  {
  }

  /** An upgrade gives what was held and what is asked for and nothing else. */
  lemma UpgradeIff(held: Mode, mode: Mode)
    ensures var m := Upgrade(held, mode);
            && (ReadsWhole(m) <==> ReadsWhole(held) || ReadsWhole(mode))
            && (WritesWhole(m) <==> WritesWhole(held) || WritesWhole(mode))
            && (WritesParts(m) <==> WritesParts(held) || WritesParts(mode))
  {
  }

  lemma CompatibleSymmetric(a: Mode, b: Mode)
    ensures Compatible(a, b) == Compatible(b, a)
  {
  }

  /** Covering is a partial order and `Upgrade` its join: modes only climb
      IS < {S, IX} < SIX < X, and S with IX gives SIX. */
  lemma UpgradeIsJoin(held: Mode, mode: Mode, other: Mode)
    ensures Covers(Upgrade(held, mode), held) && Covers(Upgrade(held, mode), mode)
    ensures Covers(other, held) && Covers(other, mode) ==> Covers(other, Upgrade(held, mode))
    ensures Covers(held, mode) && Covers(mode, held) ==> held == mode
    ensures Covers(held, mode) && Covers(mode, other) ==> Covers(held, other)
  {
  }

  /** A stronger mode conflicts with at least as much: replacing a granted mode by one that
      covers it never turns a conflict into a compatibility. */
  lemma CoversConflictsMore(a: Mode, b: Mode, other: Mode)
    requires Covers(a, b) && Compatible(a, other)
    ensures Compatible(b, other)
  {
  }
}
