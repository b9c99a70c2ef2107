/** Bodies, their presets and the fluent builder (src/lib.rs:30-145). */
module Bodies {
  import opened Vectors
  import opened Params

  datatype Kind = Particle | Comet | Star | Planet

  /**
   * One point mass. `q` is the position and `a` the acceleration accumulated during
   * the current step. `qp` is overloaded: while `lifetime == 0` it is the initial
   * velocity, and from then on it is the position before the last step.
   * The source's `u64` fields `id` and `lifetime` are unbounded naturals here.
   */
  datatype Body = Body(id: nat, kind: Kind, lifetime: nat, m: real, q: Vec2, qp: Vec2, a: Vec2)

  /** A body that has not been stepped yet and carries no acceleration. */
  predicate Fresh(b: Body) {
    b.lifetime == 0 && b.a == Zero
  }

  /** `Body::star`: a stationary star at the origin. */
  function StarPreset(): (b: Body)
    ensures Fresh(b) && b.kind == Star && b.id == 0
    ensures b.m == StarMass && b.q == Zero && b.qp == Zero
  {
    Body(0, Star, 0, StarMass, Zero, Zero, Zero)
  }

  /** `Body::comet`: a builder around a comet at rest at the origin. */
  function CometPreset(): (r: Builder)
    ensures Fresh(r.body) && r.body.kind == Comet && r.body.id == 0
    ensures r.body.m == CometMass && r.body.q == Zero && r.body.qp == Zero
  {
    Builder(Body(0, Comet, 0, CometMass, Zero, Zero, Zero))
  }

  /** `Body::dust`: a builder around a particle whose id field holds its parent's id. */
  function DustPreset(parent: nat): (r: Builder)
    ensures Fresh(r.body) && r.body.kind == Particle
    ensures r.body.id == parent && r.body.m == DustMass
    ensures r.body.q == Zero && r.body.qp == Zero
  {
    Builder(Body(parent, Particle, 0, DustMass, Zero, Zero, Zero))
  }

  /** `BodyBuilder`: each setter replaces one field and leaves the rest alone. */
  datatype Builder = Builder(body: Body) {

    function Mass(m: real): (r: Builder)
      ensures r.body.m == m && r.body.(m := body.m) == body
    {
      Builder(body.(m := m))
    }

    function Position(x: real, y: real): (r: Builder)
      ensures r.body.q == Vec2(x, y) && r.body.(q := body.q) == body
    {
      Builder(body.(q := Vec2(x, y)))
    }

    /** Stores the velocity in `qp`, which the first step reads as a velocity. */
    function Velocity(x: real, y: real): (r: Builder)
      ensures r.body.qp == Vec2(x, y) && r.body.(qp := body.qp) == body
    {
      Builder(body.(qp := Vec2(x, y)))
    }

    function Build(): Body {
      body
    }
  }

  /** One call of a builder setter, so that whole setter chains can be reasoned about. */
  datatype Setting = SetMass(m: real) | SetPosition(x: real, y: real) | SetVelocity(vx: real, vy: real)

  function Configure(b: Builder, settings: seq<Setting>): Builder
    decreases |settings|
  {
    if |settings| == 0 then b
    else
      var next := match settings[0]
        case SetMass(m) => b.Mass(m)
        case SetPosition(x, y) => b.Position(x, y)
        case SetVelocity(vx, vy) => b.Velocity(vx, vy);
      Configure(next, settings[1..])
  }

  /**
   * No chain of setters can give a body a nonzero acceleration, a nonzero lifetime,
   * another kind or another id: every body a caller can build is fresh.
   */
  lemma {:induction false} ConfiguredBodyIsFresh(b: Builder, settings: seq<Setting>)
    requires Fresh(b.body)
    ensures Fresh(Configure(b, settings).Build())
    ensures Configure(b, settings).Build().kind == b.body.kind
    ensures Configure(b, settings).Build().id == b.body.id
    decreases |settings|
  {
    if |settings| > 0 {
      var next := match settings[0]
        case SetMass(m) => b.Mass(m)
        case SetPosition(x, y) => b.Position(x, y)
        case SetVelocity(vx, vy) => b.Velocity(vx, vy);
      ConfiguredBodyIsFresh(next, settings[1..]);
    }
  }
}
