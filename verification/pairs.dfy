/** The pairwise pass: gravity, dust emission and radiation pressure (src/lib.rs:192-230). */
module Pairs {
  import opened Vectors
  import opened Params
  import opened Bodies
  import opened Systems

  /**
   * The floating-point content of one pair, kept abstract. For a separation `u`,
   * `unit(u)` stands for `u / |u|`, `gravity(u)` for `unit(u) * G / |u|^2`, and
   * `pressure(u, m)` for `PressureCoeff * unit(u) / (|u|^2 * sqrt(m))`.
   */
  datatype Field = Field(unit: Vec2 -> Vec2, gravity: Vec2 -> Vec2, pressure: (Vec2, real) -> Vec2)

  // ---------------------------------------------------------------------------
  // Reference definitions of what the pass computes
  // ---------------------------------------------------------------------------

  /**
   * The acceleration body `j` imparts on body `k` through their pair. The pair is
   * always oriented from the lower index to the higher one: the lower body gains
   * `m_high * f` and the higher one `-m_low * f`, with `f` the gravity of
   * `q_high - q_low`.
   */
  function Pull(s: seq<Body>, field: Field, k: nat, j: nat): Vec2
    requires k < |s| && j < |s|
  {
    if k < j then Scale(s[j].m, field.gravity(Minus(s[j].q, s[k].q)))
    else Scale(-s[j].m, field.gravity(Minus(s[k].q, s[j].q)))
  }

  /** The pulls on body `k` from every other body below index `hi`. */
  function PullSum(s: seq<Body>, field: Field, k: nat, hi: nat): Vec2
    requires k < |s| && hi <= |s|
    decreases hi
  {
    if hi == 0 then Zero
    else if hi - 1 == k then PullSum(s, field, k, hi - 1)
    else Plus(PullSum(s, field, k, hi - 1), Pull(s, field, k, hi - 1))
  }

  /** Radiation pressure from the primary body (index 0) on every other body. */
  function Push(s: seq<Body>, field: Field, k: nat): Vec2
    requires k < |s|
  {
    if k == 0 then Zero else field.pressure(Minus(s[k].q, s[0].q), s[k].m)
  }

  /** The total acceleration the pass adds to body `k`: one pull from every other body, plus the push. */
  function NetAccel(s: seq<Body>, field: Field, k: nat): Vec2
    requires k < |s|
  {
    Plus(PullSum(s, field, k, |s|), Push(s, field, k))
  }

  /** The number of comets at indices `1 .. hi-1`, i.e. the random draws the first row makes before index `hi`. */
  function CometCount(s: seq<Body>, hi: nat): (r: nat)
    requires hi <= |s|
    ensures r < hi || r == 0
    decreases hi
  {
    if hi <= 1 then 0
    else CometCount(s, hi - 1) + (if s[hi - 1].kind == Comet then 1 else 0)
  }

  /**
   * Whether the comet at index `j` emits dust. The random source is an injected
   * oracle of Bernoulli trials: `draws(c, r2)` is the outcome of the draw with
   * number `c`, taken for a comet at squared distance `r2` from the primary (the
   * source's `rng.gen() < dt / r2`). The comets of the first row take draws
   * `0, 1, 2, ...` in index order; other bodies take none.
   */
  predicate Emits(s: seq<Body>, j: nat, draws: (nat, real) -> bool)
    requires 1 <= j < |s|
  {
    s[j].kind == Comet && draws(CometCount(s, j), NormSq(Minus(s[j].q, s[0].q)))
  }

  /** The indices below `hi` whose comet emits dust, in the order the first row meets them. */
  function Emitters(s: seq<Body>, hi: nat, draws: (nat, real) -> bool): (r: seq<nat>)
    requires hi <= |s|
    ensures |r| <= CometCount(s, hi)
    ensures forall t :: 0 <= t < |r| ==> 1 <= r[t] < hi && s[r[t]].kind == Comet
    ensures forall t, t' :: 0 <= t < t' < |r| ==> r[t] < r[t']
    decreases hi
  {
    if hi <= 1 then []
    else Emitters(s, hi - 1, draws) + (if Emits(s, hi - 1, draws) then [hi - 1] else [])
  }

  /** A body below `hi` is listed as an emitter exactly when it is a comet whose draw succeeds. */
  lemma {:induction false} EmittersExactly(s: seq<Body>, hi: nat, draws: (nat, real) -> bool)
    requires hi <= |s|
    ensures forall j :: 1 <= j < hi ==> (j in Emitters(s, hi, draws) <==> Emits(s, j, draws))
    decreases hi
  {
    if hi > 1 {
      EmittersExactly(s, hi - 1, draws);
    }
  }

  /**
   * The dust a comet sheds: `Body::dust(parent)` configured with the dust mass, a
   * position `dt` along the direction `dir` away from the comet, and the comet's
   * finite-difference velocity `(q - qp) / dt`.
   */
  function SpawnDust(parent: nat, q: Vec2, qp: Vec2, dir: Vec2): (d: Body)
    ensures Fresh(d) && d.kind == Particle && d.m == DustMass && d.id == parent
    ensures Minus(d.q, q) == Scale(Dt, dir)
    ensures Scale(Dt, d.qp) == Minus(q, qp)
  {
    var v := Scale(1.0 / Dt, Minus(q, qp));
    var dq := Plus(q, Scale(Dt, dir));
    DustPreset(parent).Mass(DustMass).Position(dq.x, dq.y).Velocity(v.x, v.y).Build()
  }

  /** The dust shed by the comet at index `j`, before `add` stamps it. */
  function Offspring(s: seq<Body>, field: Field, j: nat): Body
    requires 0 < j < |s|
  {
    SpawnDust(s[j].id, s[j].q, s[j].qp, field.unit(Minus(s[j].q, s[0].q)))
  }

  // ---------------------------------------------------------------------------
  // The row bound `n - 1`
  // ---------------------------------------------------------------------------

  /** `usize` arithmetic wraps modulo 2^32 on the wasm32 target the crate is built for. */
  const UsizeModulus: nat := 0x1_0000_0000

  /** The outer range `0..(n-1)` as the source computes it: `usize` subtraction wraps at zero. */
  function RowCountAsWritten(n: nat): nat
    requires n < UsizeModulus
  {
    (n + UsizeModulus - 1) % UsizeModulus
  }

  /** An empty collection makes the as-written bound wrap to the largest `usize`, far past the collection. */
  lemma EmptyCollectionWrapsRowBound()
    ensures RowCountAsWritten(0) == UsizeModulus - 1
    ensures RowCountAsWritten(0) > 0
  {
  }

  /**
   * The row bound the model uses: `n - 1` rows, and none at all for an empty
   * collection. Every row it admits has a partner, and no row with a partner is missed.
   */
  function RowCount(n: nat): (r: nat)
    ensures r == 0 || r + 1 <= n
    ensures r + 1 >= n
    ensures n < UsizeModulus && n > 0 ==> r == RowCountAsWritten(n)
  {
    if n == 0 then 0 else n - 1
  }

  // ---------------------------------------------------------------------------
  // The order in which pairs are visited
  // ---------------------------------------------------------------------------

  /** The pairs `(i, lo), (i, lo+1), ..., (i, hi-1)`. */
  function Row(i: nat, lo: nat, hi: nat): seq<(nat, nat)>
    decreases hi
  {
    if hi <= lo then [] else Row(i, lo, hi - 1) + [(i, hi - 1)]
  }

  /** The pairs of rows `0 .. i-1` of an `n`-body pass, in visiting order. */
  function RowsBefore(n: nat, i: nat): seq<(nat, nat)>
    decreases i
  {
    if i == 0 then [] else RowsBefore(n, i - 1) + Row(i - 1, i, n)
  }

  function AllPairs(n: nat): seq<(nat, nat)> {
    RowsBefore(n, RowCount(n))
  }

  predicate LexLess(x: (nat, nat), y: (nat, nat)) {
    x.0 < y.0 || (x.0 == y.0 && x.1 < y.1)
  }

  lemma {:induction false} RowShape(i: nat, lo: nat, hi: nat)
    ensures forall x :: x in Row(i, lo, hi) <==> x.0 == i && lo <= x.1 < hi
    ensures forall a, b :: 0 <= a < b < |Row(i, lo, hi)| ==> Row(i, lo, hi)[a].1 < Row(i, lo, hi)[b].1
    decreases hi
  {
    if hi > lo {
      RowShape(i, lo, hi - 1);
    }
  }

  lemma {:induction false} RowsBeforeShape(n: nat, i: nat)
    ensures forall x :: x in RowsBefore(n, i) <==> x.0 < i && x.0 < x.1 < n
    ensures forall a, b :: 0 <= a < b < |RowsBefore(n, i)| ==> LexLess(RowsBefore(n, i)[a], RowsBefore(n, i)[b])
    decreases i
  {
    if i > 0 {
      RowsBeforeShape(n, i - 1);
      RowShape(i - 1, i, n);
      var front, row := RowsBefore(n, i - 1), Row(i - 1, i, n);
      assert RowsBefore(n, i) == front + row;
      forall a, b | 0 <= a < b < |front + row|
        ensures LexLess((front + row)[a], (front + row)[b])
      {
        if b < |front| {
        } else if a < |front| {
          assert front[a] in front;
          assert row[b - |front|] in row;
        } else {
          assert (front + row)[a] == row[a - |front|];
          assert (front + row)[b] == row[b - |front|];
        }
      }
    }
  }

  /**
   * The pass visits exactly the pairs `(i, j)` with `i < j < n`, each once: the
   * visiting order is strictly increasing, so no pair repeats, and no index at or
   * beyond `n` (a body appended during the pass) is ever part of a pair.
   */
  lemma AllPairsExactlyOnce(n: nat)
    ensures forall x :: x in AllPairs(n) <==> x.0 < x.1 < n
    ensures forall a, b :: 0 <= a < b < |AllPairs(n)| ==> LexLess(AllPairs(n)[a], AllPairs(n)[b])
    ensures forall a, b :: 0 <= a < b < |AllPairs(n)| ==> AllPairs(n)[a] != AllPairs(n)[b]
  {
    RowsBeforeShape(n, RowCount(n));
    forall a, b | 0 <= a < b < |AllPairs(n)|
      ensures AllPairs(n)[a] != AllPairs(n)[b]
    {
      assert LexLess(AllPairs(n)[a], AllPairs(n)[b]);
    }
  }

  // ---------------------------------------------------------------------------
  // The pass itself
  // ---------------------------------------------------------------------------

  /**
   * What the pass has added to body `k`'s acceleration once rows `0 .. i-1` are
   * done and row `i` has handled partners `i+1 .. j-1`.
   */
  function Partial(s: seq<Body>, field: Field, k: nat, i: nat, j: nat): Vec2
    requires k < |s| && j <= |s|
  {
    var hi := if k < i then |s| else if k == i then j else if k < j then i + 1 else i;
    if k > 0 && (i > 0 || k < j) then Plus(PullSum(s, field, k, hi), Push(s, field, k)) else PullSum(s, field, k, hi)
  }

  /** Body `k` carries the snapshot's fields with the partial acceleration added. */
  predicate AccelAt(s: seq<Body>, field: Field, cur: System, k: nat, i: nat, j: nat)
    requires k < |s| <= |cur.bodies| && j <= |s|
  {
    cur.bodies[k] == s[k].(a := Plus(s[k].a, Partial(s, field, k, i, j)))
  }

  /** Bodies below the snapshot size carry the snapshot's fields with the partial acceleration added. */
  predicate AccelState(s: seq<Body>, field: Field, cur: System, i: nat, j: nat)
    requires j <= |s|
  {
    && |s| <= |cur.bodies|
    && forall k {:trigger AccelAt(s, field, cur, k, i, j)} :: 0 <= k < |s| ==> AccelAt(s, field, cur, k, i, j)
  }

  /** The bodies past the snapshot are the dust of the emitters `e`, in order, stamped with consecutive ids from `keygen0`. */
  predicate Stamped(s: seq<Body>, keygen0: nat, field: Field, e: seq<nat>, cur: System)
    requires forall t :: 0 <= t < |e| ==> 0 < e[t] < |s|
  {
    && |cur.bodies| == |s| + |e|
    && cur.keygen == keygen0 + |e|
    && forall t :: 0 <= t < |e| ==> cur.bodies[|s| + t] == Offspring(s, field, e[t]).(id := keygen0 + t)
  }

  /** One more dust body, appended by `add`, extends the stamped newborns by one. */
  lemma StampedAppend(s: seq<Body>, keygen0: nat, field: Field, e: seq<nat>, cur: System, next: System, j: nat)
    requires 0 < j < |s|
    requires forall t :: 0 <= t < |e| ==> 0 < e[t] < |s|
    requires Stamped(s, keygen0, field, e, cur)
    requires |next.bodies| == |cur.bodies| + 1 && next.keygen == cur.keygen + 1
    requires forall k :: |s| <= k < |cur.bodies| ==> next.bodies[k] == cur.bodies[k]
    requires next.bodies[|cur.bodies|] == Offspring(s, field, j).(id := cur.keygen)
    ensures Stamped(s, keygen0, field, e + [j], next)
  {
    var e' := e + [j];
    forall t | 0 <= t < |e'|
      ensures next.bodies[|s| + t] == Offspring(s, field, e'[t]).(id := keygen0 + t)
    {
      if t < |e| {
        assert e'[t] == e[t];
      }
    }
  }

  /** The loop state of the pass over snapshot `s` after rows `0 .. i-1` and partners `i+1 .. j-1` of row `i`. */
  predicate Progress(s: seq<Body>, keygen0: nat, field: Field, draws: (nat, real) -> bool,
                     cur: System, used: nat, visited: seq<(nat, nat)>, i: nat, j: nat)
    requires i < j <= |s|
  {
    var hiE := if i == 0 then j else |s|;
    && AccelState(s, field, cur, i, j)
    && Stamped(s, keygen0, field, Emitters(s, hiE, draws), cur)
    && used == CometCount(s, hiE)
    && visited == RowsBefore(|s|, i) + Row(i, i + 1, j)
  }

  /** What one pair `(i, j)` does to the accelerations (the body of the inner loop). */
  predicate PairAccel(cur: System, next: System, field: Field, i: nat, j: nat)
    requires i < j < |cur.bodies|
  {
    var b := cur.bodies;
    var u := Minus(b[j].q, b[i].q);
    var f := field.gravity(u);
    && |b| <= |next.bodies|
    && next.bodies[i] == b[i].(a := Plus(b[i].a, Scale(b[j].m, f)))
    && next.bodies[j] == b[j].(a := Plus(Plus(b[j].a, Scale(-b[i].m, f)), if i == 0 then field.pressure(u, b[j].m) else Zero))
    && (forall k :: 0 <= k < |b| && k != i && k != j ==> next.bodies[k] == b[k])
  }

  /** What one pair `(i, j)` does to the random draws and the dust. */
  predicate PairSpawn(cur: System, next: System, field: Field, draws: (nat, real) -> bool,
                      used: nat, used': nat, i: nat, j: nat)
    requires i < j < |cur.bodies|
  {
    var b := cur.bodies;
    var u := Minus(b[j].q, b[i].q);
    var drawn := i == 0 && b[j].kind == Comet;
    var spawned := drawn && draws(used, NormSq(u));
    && used' == used + (if drawn then 1 else 0)
    && next.keygen == cur.keygen + (if spawned then 1 else 0)
    && |next.bodies| == |b| + (if spawned then 1 else 0)
    && (spawned ==> next.bodies[|b|] == SpawnDust(b[j].id, b[j].q, b[j].qp, field.unit(u)).(id := cur.keygen))
  }

  /** Handling partner `j` of row `i` adds exactly the pair's two pulls, and the push when `i == 0`. */
  lemma PartialAdvance(s: seq<Body>, field: Field, i: nat, j: nat)
    requires i < j < |s|
    ensures Partial(s, field, i, i, j + 1) == Plus(Partial(s, field, i, i, j), Pull(s, field, i, j))
    ensures Partial(s, field, j, i, j + 1)
            == Plus(Plus(Partial(s, field, j, i, j), Pull(s, field, j, i)), if i == 0 then Push(s, field, j) else Zero)
    ensures forall k :: 0 <= k < |s| && k != i && k != j ==> Partial(s, field, k, i, j + 1) == Partial(s, field, k, i, j)
  {
  }

  lemma EmittersAdvance(s: seq<Body>, j: nat, draws: (nat, real) -> bool)
    requires 1 <= j < |s|
    ensures CometCount(s, j + 1) == CometCount(s, j) + (if s[j].kind == Comet then 1 else 0)
    ensures Emitters(s, j + 1, draws) == Emitters(s, j, draws) + (if Emits(s, j, draws) then [j] else [])
  {
  }

  lemma AccelStep(s: seq<Body>, field: Field, cur: System, next: System, i: nat, j: nat)
    requires i < j < |s|
    requires AccelState(s, field, cur, i, j)
    requires PairAccel(cur, next, field, i, j)
    ensures AccelState(s, field, next, i, j + 1)
  {
    PartialAdvance(s, field, i, j);
    assert AccelAt(s, field, cur, i, i, j) && AccelAt(s, field, cur, j, i, j);
    var b := cur.bodies;
    var f := field.gravity(Minus(s[j].q, s[i].q));
    assert b[i].q == s[i].q && b[j].q == s[j].q && b[i].m == s[i].m && b[j].m == s[j].m;
    var j' := j + 1;
    forall k | 0 <= k < |s|
      ensures AccelAt(s, field, next, k, i, j')
    {
      assert AccelAt(s, field, cur, k, i, j);
      var p := Partial(s, field, k, i, j);
      if k == i {
        var d := Pull(s, field, i, j);
        assert d == Scale(b[j].m, f);
        assert next.bodies[i].a == Plus(Plus(s[i].a, p), d);
        assert next.bodies[i] == s[i].(a := Plus(Plus(s[i].a, p), d));
        assert Partial(s, field, k, i, j') == Plus(p, d);
        assert Plus(s[k].a, Plus(p, d)) == Plus(Plus(s[k].a, p), d);
        assert AccelAt(s, field, next, k, i, j');
      } else if k == j {
        var d := Pull(s, field, j, i);
        var push := if i == 0 then Push(s, field, j) else Zero;
        assert d == Scale(-b[i].m, f);
        assert next.bodies[j].a == Plus(Plus(Plus(s[j].a, p), d), push);
        assert next.bodies[j] == s[j].(a := Plus(Plus(Plus(s[j].a, p), d), push));
        assert Partial(s, field, k, i, j') == Plus(Plus(p, d), push);
        assert Plus(s[k].a, Plus(Plus(p, d), push)) == Plus(Plus(Plus(s[j].a, p), d), push);
        assert AccelAt(s, field, next, k, i, j');
      } else {
        assert next.bodies[k] == cur.bodies[k];
        assert Partial(s, field, k, i, j') == p;
        assert AccelAt(s, field, next, k, i, j');
      }
    }
  }

  lemma NewbornStep(s: seq<Body>, keygen0: nat, field: Field, draws: (nat, real) -> bool,
                    cur: System, next: System, used: nat, used': nat, i: nat, j: nat)
    requires i < j < |s| <= |cur.bodies|
    requires cur.bodies[j] == s[j].(a := cur.bodies[j].a) && cur.bodies[0] == s[0].(a := cur.bodies[0].a)
    requires Stamped(s, keygen0, field, Emitters(s, if i == 0 then j else |s|, draws), cur)
    requires used == CometCount(s, if i == 0 then j else |s|)
    requires PairSpawn(cur, next, field, draws, used, used', i, j)
    requires forall k :: |s| <= k < |cur.bodies| ==> next.bodies[k] == cur.bodies[k]
    ensures Stamped(s, keygen0, field, Emitters(s, if i == 0 then j + 1 else |s|, draws), next)
    ensures used' == CometCount(s, if i == 0 then j + 1 else |s|)
  {
    if i == 0 {
      EmittersAdvance(s, j, draws);
      var e := Emitters(s, j, draws);
      var b := cur.bodies;
      var u := Minus(b[j].q, b[0].q);
      assert u == Minus(s[j].q, s[0].q);
      if Emits(s, j, draws) {
        assert SpawnDust(b[j].id, b[j].q, b[j].qp, field.unit(u)) == Offspring(s, field, j);
        StampedAppend(s, keygen0, field, e, cur, next, j);
      }
    }
  }

  /** One pair keeps the loop state, with `j` advanced by one. */
  lemma ProgressStep(s: seq<Body>, keygen0: nat, field: Field, draws: (nat, real) -> bool,
                     cur: System, used: nat, visited: seq<(nat, nat)>, i: nat, j: nat,
                     next: System, used': nat)
    requires i < j < |s|
    requires Progress(s, keygen0, field, draws, cur, used, visited, i, j)
    requires PairAccel(cur, next, field, i, j)
    requires PairSpawn(cur, next, field, draws, used, used', i, j)
    ensures Progress(s, keygen0, field, draws, next, used', visited + [(i, j)], i, j + 1)
  {
    AccelStep(s, field, cur, next, i, j);
    assert AccelAt(s, field, cur, j, i, j) && AccelAt(s, field, cur, 0, i, j);
    NewbornStep(s, keygen0, field, draws, cur, next, used, used', i, j);
    assert Row(i, i + 1, j + 1) == Row(i, i + 1, j) + [(i, j)];
  }

  lemma AccelNextRow(s: seq<Body>, field: Field, cur: System, i: nat)
    requires i + 2 <= |s|
    requires AccelState(s, field, cur, i, |s|)
    ensures AccelState(s, field, cur, i + 1, i + 2)
  {
    var n := |s|;
    var i', j' := i + 1, i + 2;
    forall k | 0 <= k < n
      ensures AccelAt(s, field, cur, k, i', j')
    {
      assert AccelAt(s, field, cur, k, i, n);
      if k == i + 1 {
        assert PullSum(s, field, k, i + 2) == PullSum(s, field, k, i + 1);
      }
    }
  }

  /** Finishing row `i` is starting row `i + 1`. */
  lemma ProgressNextRow(s: seq<Body>, keygen0: nat, field: Field, draws: (nat, real) -> bool,
                        cur: System, used: nat, visited: seq<(nat, nat)>, i: nat)
    requires i + 2 <= |s|
    requires Progress(s, keygen0, field, draws, cur, used, visited, i, |s|)
    ensures Progress(s, keygen0, field, draws, cur, used, visited, i + 1, i + 2)
  {
    AccelNextRow(s, field, cur, i);
    assert Row(i + 1, i + 2, i + 2) == [];
    assert RowsBefore(|s|, i + 1) == RowsBefore(|s|, i) + Row(i, i + 1, |s|);
  }

  /** Before the first pair nothing has been added. */
  lemma ProgressStart(s: seq<Body>, keygen0: nat, field: Field, draws: (nat, real) -> bool)
    requires 1 <= |s|
    ensures Progress(s, keygen0, field, draws, System(keygen0, s), 0, [], 0, 1)
  {
    forall k | 0 <= k < |s|
      ensures AccelAt(s, field, System(keygen0, s), k, 0, 1)
    {
      assert Partial(s, field, k, 0, 1) == Zero;
    }
  }

  /** After the last row every pair has been visited and every body has received its whole net acceleration. */
  lemma ProgressDone(s: seq<Body>, keygen0: nat, field: Field, draws: (nat, real) -> bool,
                     cur: System, used: nat, visited: seq<(nat, nat)>)
    requires 1 <= |s|
    requires Progress(s, keygen0, field, draws, cur, used, visited, RowCount(|s|), RowCount(|s|) + 1)
    ensures visited == AllPairs(|s|)
    ensures used == CometCount(s, |s|)
    ensures Stamped(s, keygen0, field, Emitters(s, |s|, draws), cur)
    ensures forall k {:trigger cur.bodies[k]} :: 0 <= k < |s| ==> cur.bodies[k] == s[k].(a := Plus(s[k].a, NetAccel(s, field, k)))
  {
    var i := RowCount(|s|);
    assert Row(i, i + 1, i + 1) == [];
    AccelDone(s, field, cur);
  }

  lemma AccelDone(s: seq<Body>, field: Field, cur: System)
    requires 1 <= |s|
    requires AccelState(s, field, cur, RowCount(|s|), RowCount(|s|) + 1)
    ensures forall k {:trigger cur.bodies[k]} :: 0 <= k < |s| ==> cur.bodies[k] == s[k].(a := Plus(s[k].a, NetAccel(s, field, k)))
  {
    var i, j := RowCount(|s|), RowCount(|s|) + 1;
    forall k | 0 <= k < |s|
      ensures cur.bodies[k] == s[k].(a := Plus(s[k].a, NetAccel(s, field, k)))
    {
      assert AccelAt(s, field, cur, k, i, j);
      PartialDone(s, field, k);
    }
  }

  /** In the state after the last row, the partial acceleration of every body is its net acceleration. */
  lemma PartialDone(s: seq<Body>, field: Field, k: nat)
    requires k < |s|
    ensures Partial(s, field, k, RowCount(|s|), RowCount(|s|) + 1) == NetAccel(s, field, k)
  {
    var i := RowCount(|s|);
    if k == i {
      assert PullSum(s, field, k, |s|) == PullSum(s, field, k, i + 1);
    }
  }

  /**
   * One pair `(i, j)`, `i < j`: both bodies are pulled along their separation by the
   * same gravity term, weighted by the other body's mass and with opposite signs.
   * For the primary (`i == 0`) a comet partner takes one draw and, on success, sheds
   * dust that `add` appends with the next id; then the partner gets the radiation
   * pressure. Nothing else changes.
   */
  method Interact(cur: System, field: Field, draws: (nat, real) -> bool, used: nat, i: nat, j: nat)
    returns (next: System, used': nat)
    requires i < j < |cur.bodies|
    ensures PairAccel(cur, next, field, i, j)
    ensures PairSpawn(cur, next, field, draws, used, used', i, j)
  {
    next, used' := cur, used;
    var qi := next.bodies[i].q;
    var qj := next.bodies[j].q;
    var mi := next.bodies[i].m;
    var mj := next.bodies[j].m;
    var u := Minus(qj, qi);
    var f := field.gravity(u);
    next := next.(bodies := next.bodies[i := next.bodies[i].(a := Plus(next.bodies[i].a, Scale(mj, f)))]);
    next := next.(bodies := next.bodies[j := next.bodies[j].(a := Plus(next.bodies[j].a, Scale(-mi, f)))]);
    if i == 0 {
      if next.bodies[j].kind == Comet {
        var hit := draws(used', NormSq(u));
        used' := used' + 1;
        if hit {
          var dust := SpawnDust(next.bodies[j].id, next.bodies[j].q, next.bodies[j].qp, field.unit(u));
          next := Add(next, dust);
        }
      }
      next := next.(bodies := next.bodies[j := next.bodies[j].(a := Plus(next.bodies[j].a, field.pressure(u, mj)))]);
    }
  }

  /**
   * The pass over the `n` bodies present when it starts. Every pair `(i, j)` with
   * `i < j < n` is visited once, in row order (`visited`). Body `k < n` ends with its
   * acceleration raised by `NetAccel` and every other field unchanged. For each
   * comet of the first row the next draw is taken (`used` draws in all), and each
   * successful draw appends one dust body, stamped by `add` with the next id;
   * those newborns sit at indices `n ..` and never enter a pair.
   */
  method PairPass(sys: System, field: Field, draws: (nat, real) -> bool)
    returns (r: System, used: nat, visited: seq<(nat, nat)>)
    ensures visited == AllPairs(|sys.bodies|)
    ensures used == CometCount(sys.bodies, |sys.bodies|)
    ensures |r.bodies| == |sys.bodies| + |Emitters(sys.bodies, |sys.bodies|, draws)|
    ensures r.keygen == sys.keygen + |Emitters(sys.bodies, |sys.bodies|, draws)|
    ensures forall k {:trigger r.bodies[k]} :: 0 <= k < |sys.bodies| ==>
              r.bodies[k] == sys.bodies[k].(a := Plus(sys.bodies[k].a, NetAccel(sys.bodies, field, k)))
    ensures forall t :: 0 <= t < |Emitters(sys.bodies, |sys.bodies|, draws)| ==>
              r.bodies[|sys.bodies| + t]
              == Offspring(sys.bodies, field, Emitters(sys.bodies, |sys.bodies|, draws)[t]).(id := sys.keygen + t)
  {
    var s := sys.bodies;
    var n := |s|;
    r, used, visited := sys, 0, [];
    if n == 0 {
      return;
    }
    ProgressStart(s, sys.keygen, field, draws);
    var i := 0;
    while i < RowCount(n)
      invariant i <= RowCount(n)
      invariant Progress(s, sys.keygen, field, draws, r, used, visited, i, i + 1)
    {
      var j := i + 1;
      while j < n
        invariant i + 1 <= j <= n
        invariant Progress(s, sys.keygen, field, draws, r, used, visited, i, j)
      {
        ghost var before, usedBefore := r, used;
        r, used := Interact(r, field, draws, used, i, j);
        ProgressStep(s, sys.keygen, field, draws, before, usedBefore, visited, i, j, r, used);
        visited := visited + [(i, j)];
        j := j + 1;
      }
      ProgressNextRow(s, sys.keygen, field, draws, r, used, visited, i);
      i := i + 1;
    }
    ProgressDone(s, sys.keygen, field, draws, r, used, visited);
  }
}
