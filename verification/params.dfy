/** The fixed constants of one simulation step (src/lib.rs:70, 82, 94, 171-172, 179, 184, 219, 227). */
module Params {

  /** Integration time step `dt`. */
  const Dt: real := 0.01

  /** Gravitational constant `g`; it only enters through the abstract gravity of a `Field`. */
  const G: real := 0.00001

  /** Radiation-pressure coefficient; it only enters through the abstract pressure of a `Field`. */
  const PressureCoeff: real := 0.001

  const StarMass: real := 1000.0
  const CometMass: real := 1.0
  const DustMass: real := 0.00001

  /** A body whose position norm exceeds this radius has escaped and is removed. */
  const EscapeRadius: real := 2.0

  /** A particle older than this many ticks is removed. */
  const MaxParticleLifetime: nat := 100
}
