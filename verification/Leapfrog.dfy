/** The kick-drift-kick step as a function of positions and velocities under a law of force, and
    what whole runs of it keep: every run can be reversed, and balanced forces conserve momentum
    and move the centre of mass in a straight line. */
module Leapfrog {
  import opened Vectors

  /** The accelerations that belong to positions, and whether they can be evaluated at all. Both
      depend on the positions alone. */
  datatype Law = Law(timeStep: real, field: seq<Vec> -> seq<Vec>, evaluates: seq<Vec> -> bool)

  datatype Phase = Phase(positions: seq<Vec>, velocities: seq<Vec>)

  ghost predicate Fits(law: Law, p: Phase)
  {
    && |p.positions| == |p.velocities|
    && forall x :: |law.field(x)| == |x|
  }

  function Moved(a: seq<Vec>, k: real, b: seq<Vec>): (moved: seq<Vec>)
    requires |a| == |b|
    ensures |moved| == |a|
  {
    seq(|a|, i requires 0 <= i < |a| => Add(a[i], Scale(k, b[i])))
  }

  /** The velocities after the first half kick, by the accelerations at the old positions. */
  function HalfKicked(dt: real, p: Phase, a: seq<Vec>): (v: seq<Vec>)
    requires |p.positions| == |p.velocities| == |a|
    ensures |v| == |a|
  {
    Moved(p.velocities, 0.5 * dt, a)
  }

  function Drifted(dt: real, p: Phase, a: seq<Vec>): (x: seq<Vec>)
    requires |p.positions| == |p.velocities| == |a|
    ensures |x| == |a|
  {
    Moved(p.positions, dt, HalfKicked(dt, p, a))
  }

  /** A step under the accelerations at the old and at the new positions. */
  function Stepped(dt: real, p: Phase, a: seq<Vec>, next: seq<Vec>): Phase
    requires |p.positions| == |p.velocities| == |a| == |next|
  {
    Phase(Drifted(dt, p, a), Moved(HalfKicked(dt, p, a), 0.5 * dt, next))
  }

  /** The step of the simulation: half kick, drift, half kick with the acceleration at the new
      positions. */
  function Next(law: Law, p: Phase): (q: Phase)
    requires Fits(law, p)
    ensures Fits(law, q)
  {
    var a := law.field(p.positions);
    Stepped(law.timeStep, p, a, law.field(Drifted(law.timeStep, p, a)))
  }

  function After(law: Law, p: Phase, n: nat): (q: Phase)
    requires Fits(law, p)
    ensures Fits(law, q)
    decreases n
  {
    if n == 0 then p else Next(law, After(law, p, n - 1))
  }

  // ----- reversal

  function Negated(v: seq<Vec>): (w: seq<Vec>)
    ensures |w| == |v|
  {
    seq(|v|, i requires 0 <= i < |v| => Neg(v[i]))
  }

  function Reverse(p: Phase): Phase
  {
    Phase(p.positions, Negated(p.velocities))
  }

  /** Moving back by the negated vectors. */
  lemma MovesBack(a: seq<Vec>, k: real, b: seq<Vec>)
    requires |a| == |b|
    ensures Moved(Negated(Moved(a, k, b)), k, b) == Negated(a)
    ensures Moved(Moved(a, k, b), k, Negated(b)) == a
  {
    forall i | 0 <= i < |a|
      ensures Moved(Negated(Moved(a, k, b)), k, b)[i] == Negated(a)[i]
      ensures Moved(Moved(a, k, b), k, Negated(b))[i] == a[i]
    {
      VectorMovesBack(a[i], k, b[i]);
    }
  }

  lemma VectorMovesBack(a: Vec, k: real, b: Vec)
    ensures Add(Neg(Add(a, Scale(k, b))), Scale(k, b)) == Neg(a)
    ensures Add(Add(a, Scale(k, b)), Scale(k, Neg(b))) == a
  {
    assert k * -b.x == -(k * b.x) && k * -b.y == -(k * b.y) && k * -b.z == -(k * b.z);
  }

  /** The same accelerations in the opposite order undo a step. */
  lemma SteppedBack(dt: real, p: Phase, a: seq<Vec>, next: seq<Vec>)
    requires |p.positions| == |p.velocities| == |a| == |next|
    ensures var back := Reverse(Stepped(dt, p, a, next));
            Drifted(dt, back, next) == p.positions && Stepped(dt, back, next, a) == Reverse(p)
  {
    var half, back := HalfKicked(dt, p, a), Reverse(Stepped(dt, p, a, next));
    MovesBack(half, 0.5 * dt, next);
    assert HalfKicked(dt, back, next) == Negated(half);
    MovesBack(p.positions, dt, half);
    MovesBack(p.velocities, 0.5 * dt, a);
  }

  /** A step from the reversed result of a step leads back, since accelerations depend on
      positions alone. */
  lemma StepIsReversible(law: Law, p: Phase)
    requires Fits(law, p)
    ensures Next(law, Reverse(Next(law, p))) == Reverse(p)
  {
    var a := law.field(p.positions);
    SteppedBack(law.timeStep, p, a, law.field(Drifted(law.timeStep, p, a)));
  }

  /** On its way back a run passes through the same positions. */
  lemma {:induction false} ReversedPositions(law: Law, p: Phase, n: nat, k: nat)
    requires Fits(law, p) && k <= n
    ensures After(law, Reverse(After(law, p, n)), k) == Reverse(After(law, p, n - k))
    decreases k
  {
    if k > 0 {
      ReversedPositions(law, p, n, k - 1);
      StepIsReversible(law, After(law, p, n - k));
    }
  }

  /** n steps, all velocities negated, n steps more. */
  lemma RunIsReversible(law: Law, p: Phase, n: nat)
    requires Fits(law, p)
    ensures After(law, Reverse(After(law, p, n)), n) == Reverse(p)
  {
    ReversedPositions(law, p, n, n);
  }

  /** All of n steps can evaluate their new positions. */
  ghost predicate Succeeds(law: Law, p: Phase, n: nat)
    requires Fits(law, p)
  {
    forall k: nat :: 0 < k <= n ==> law.evaluates(After(law, p, k).positions)
  }

  /** A run that succeeded from evaluated positions also succeeds in reverse. */
  lemma ReversedRunSucceeds(law: Law, p: Phase, n: nat)
    requires Fits(law, p) && law.evaluates(p.positions) && Succeeds(law, p, n)
    ensures Succeeds(law, Reverse(After(law, p, n)), n)
  {
    forall k: nat | 0 < k <= n
      ensures law.evaluates(After(law, Reverse(After(law, p, n)), k).positions)
    {
      ReversedPositions(law, p, n, k);
      if k < n {
        assert law.evaluates(After(law, p, n - k).positions);
      }
    }
  }

  // ----- momentum

  /** The mass-weighted sum of the first n vectors. */
  function WeightedSum(mass: seq<real>, v: seq<Vec>, n: nat): Vec
    requires n <= |mass| && n <= |v|
  {
    if n == 0 then ORIGIN else Add(WeightedSum(mass, v, n - 1), Scale(mass[n - 1], v[n - 1]))
  }

  function Momentum(mass: seq<real>, v: seq<Vec>): Vec
    requires |mass| == |v|
  {
    WeightedSum(mass, v, |mass|)
  }

  /** The forces that the law gives cancel in total. */
  ghost predicate Balanced(law: Law, mass: seq<real>)
    requires forall x :: |law.field(x)| == |x|
  {
    forall x :: |x| == |mass| ==> Momentum(mass, law.field(x)) == ORIGIN
  }

  lemma OneMoreMoved(s: Vec, t: Vec, m: real, k: real, a: Vec, b: Vec)
    ensures Add(Add(s, Scale(k, t)), Scale(m, Add(a, Scale(k, b))))
            == Add(Add(s, Scale(m, a)), Scale(k, Add(t, Scale(m, b))))
  {
    var moved, total := Add(a, Scale(k, b)), Add(t, Scale(m, b));
    OneMoreMovedAxis(s.x, t.x, m, k, a.x, b.x, moved.x, total.x);
    OneMoreMovedAxis(s.y, t.y, m, k, a.y, b.y, moved.y, total.y);
    OneMoreMovedAxis(s.z, t.z, m, k, a.z, b.z, moved.z, total.z);
  }

  lemma OneMoreMovedAxis(s: real, t: real, m: real, k: real, a: real, b: real, moved: real, total: real)
    requires moved == a + k * b && total == t + m * b
    ensures s + k * t + m * moved == s + m * a + k * total
  {
    assert m * (k * b) == k * (m * b);
  }

  /** One more vector of a weighted sum, put in terms of the sums before it. */
  lemma LastOfSum(mass: seq<real>, v: seq<Vec>, n: nat)
    requires 0 < n <= |mass| && n <= |v|
    ensures WeightedSum(mass, v, n) == Add(WeightedSum(mass, v, n - 1), Scale(mass[n - 1], v[n - 1]))
  {
  }

  lemma MovedAt(a: seq<Vec>, k: real, b: seq<Vec>, i: nat)
    requires |a| == |b| && i < |a|
    ensures Moved(a, k, b)[i] == Add(a[i], Scale(k, b[i]))
  {
  }

  /** The weighted sum of moved vectors is the moved weighted sum. */
  lemma {:induction false} WeightedSumOfMoved(mass: seq<real>, a: seq<Vec>, k: real, b: seq<Vec>, n: nat)
    requires |a| == |b| && n <= |mass| && n <= |a|
    ensures WeightedSum(mass, Moved(a, k, b), n) == Add(WeightedSum(mass, a, n), Scale(k, WeightedSum(mass, b, n)))
  {
    if n == 0 {
      NothingAdded(ORIGIN, k);
    } else {
      WeightedSumOfMoved(mass, a, k, b, n - 1);
      var sa, sb := WeightedSum(mass, a, n - 1), WeightedSum(mass, b, n - 1);
      calc {
        WeightedSum(mass, Moved(a, k, b), n);
        { LastOfSum(mass, Moved(a, k, b), n); MovedAt(a, k, b, n - 1); }
        Add(Add(sa, Scale(k, sb)), Scale(mass[n - 1], Add(a[n - 1], Scale(k, b[n - 1]))));
        { OneMoreMoved(sa, sb, mass[n - 1], k, a[n - 1], b[n - 1]); }
        Add(Add(sa, Scale(mass[n - 1], a[n - 1])), Scale(k, Add(sb, Scale(mass[n - 1], b[n - 1]))));
        { LastOfSum(mass, a, n); LastOfSum(mass, b, n); }
        Add(WeightedSum(mass, a, n), Scale(k, WeightedSum(mass, b, n)));
      }
    }
  }

  lemma NothingAdded(v: Vec, k: real)
    ensures Add(v, Scale(k, ORIGIN)) == v
  {
    assert k * 0.0 == 0.0;
  }

  /** A step under accelerations that cancel keeps the momentum and moves the weighted sum of
      positions by the momentum times the time step. */
  lemma SteppedKeepsMomentum(dt: real, mass: seq<real>, p: Phase, a: seq<Vec>, next: seq<Vec>)
    requires |p.positions| == |p.velocities| == |a| == |next| == |mass|
    requires Momentum(mass, a) == ORIGIN && Momentum(mass, next) == ORIGIN
    ensures var q := Stepped(dt, p, a, next);
            && Momentum(mass, q.velocities) == Momentum(mass, p.velocities)
            && Momentum(mass, q.positions)
               == Add(Momentum(mass, p.positions), Scale(dt, Momentum(mass, p.velocities)))
  {
    var half := HalfKicked(dt, p, a);
    WeightedSumOfMoved(mass, p.velocities, 0.5 * dt, a, |mass|);
    NothingAdded(Momentum(mass, p.velocities), 0.5 * dt);
    WeightedSumOfMoved(mass, half, 0.5 * dt, next, |mass|);
    WeightedSumOfMoved(mass, p.positions, dt, half, |mass|);
  }

  lemma AddMultiples(v: Vec, t: real, dt: real, w: Vec)
    ensures Add(Add(v, Scale(t, w)), Scale(dt, w)) == Add(v, Scale(t + dt, w))
  {
    assert t * w.x + dt * w.x == (t + dt) * w.x;
    assert t * w.y + dt * w.y == (t + dt) * w.y;
    assert t * w.z + dt * w.z == (t + dt) * w.z;
  }

  /** Time after n steps, added up step by step. */
  function Elapsed(dt: real, n: nat): real
  {
    if n == 0 then 0.0 else Elapsed(dt, n - 1) + dt
  }

  lemma {:induction false} ElapsedIsProduct(dt: real, n: nat)
    ensures Elapsed(dt, n) == n as real * dt
  {
    if n > 0 {
      ElapsedIsProduct(dt, n - 1);
    }
  }

  // ----- a field that does not depend on the positions

  /** Where a body is after time t under constant acceleration; h is half the square of t. */
  function Parabola(x: Vec, v: Vec, a: Vec, t: real, h: real): Vec
  {
    Add(x, Add(Scale(t, v), Scale(h, a)))
  }

  /** One axis of a place on the parabola, and of the next half kick and drift from there. */
  predicate OnParabola(x: real, v: real, a: real, t: real, h: real, now: real)
  {
    now == x + (t * v + h * a)
  }

  predicate Kicked(v: real, a: real, t: real, dt: real, half: real)
  {
    half == v + t * a + 0.5 * dt * a
  }

  predicate Drifts(now: real, dt: real, half: real, moved: real)
  {
    moved == now + dt * half
  }

  lemma AlongParabola(x: real, v: real, a: real, t: real, h: real, dt: real, later: real, next: real,
                      now: real, half: real, moved: real)
    requires later == t + dt && next == h + dt * t + 0.5 * dt * dt
    requires OnParabola(x, v, a, t, h, now) && Kicked(v, a, t, dt, half) && Drifts(now, dt, half, moved)
    ensures OnParabola(x, v, a, later, next, moved)
  {
    assert next * a == h * a + (dt * t) * a + (0.5 * dt * dt) * a;
    assert dt * half == dt * v + (dt * t) * a + (0.5 * dt * dt) * a;
    assert later * v == t * v + dt * v;
  }

  lemma AxesOfParabola(x: Vec, v: Vec, a: Vec, t: real, h: real, now: Vec)
    requires now == Parabola(x, v, a, t, h)
    ensures OnParabola(x.x, v.x, a.x, t, h, now.x) && OnParabola(x.y, v.y, a.y, t, h, now.y)
    ensures OnParabola(x.z, v.z, a.z, t, h, now.z)
  {
  }

  lemma ParabolaOfAxes(x: Vec, v: Vec, a: Vec, t: real, h: real, now: Vec)
    requires OnParabola(x.x, v.x, a.x, t, h, now.x) && OnParabola(x.y, v.y, a.y, t, h, now.y)
    requires OnParabola(x.z, v.z, a.z, t, h, now.z)
    ensures now == Parabola(x, v, a, t, h)
  {
    var q := Parabola(x, v, a, t, h);
    AxesOfParabola(x, v, a, t, h, q);
    assert now.x == q.x && now.y == q.y && now.z == q.z;
  }

  lemma KickedByAxes(v: Vec, a: Vec, t: real, dt: real, half: Vec)
    requires half == Add(Add(v, Scale(t, a)), Scale(0.5 * dt, a))
    ensures Kicked(v.x, a.x, t, dt, half.x) && Kicked(v.y, a.y, t, dt, half.y) && Kicked(v.z, a.z, t, dt, half.z)
    ensures Add(half, Scale(0.5 * dt, a)) == Add(v, Scale(t + dt, a))
  {
  }

  lemma DriftsByAxes(now: Vec, dt: real, half: Vec, moved: Vec)
    requires moved == Add(now, Scale(dt, half))
    ensures Drifts(now.x, dt, half.x, moved.x) && Drifts(now.y, dt, half.y, moved.y)
            && Drifts(now.z, dt, half.z, moved.z)
  {
  }

  lemma SquareOfSum(t: real, dt: real)
    ensures 0.5 * (t + dt) * (t + dt) == 0.5 * t * t + dt * t + 0.5 * dt * dt
  {
  }

  /** Makes the facts about body k available. */
  predicate UseBody(k: nat)
  {
    true
  }

  /** After time t every body has moved along its parabola. */
  ghost predicate OnTrack(p: Phase, g: seq<Vec>, q: Phase, t: real, h: real)
    requires |g| == |p.positions| == |p.velocities|
  {
    && |q.positions| == |q.velocities| == |g|
    && forall k: nat {:trigger UseBody(k)} :: UseBody(k) && k < |g| ==>
         && q.velocities[k] == Add(p.velocities[k], Scale(t, g[k]))
         && q.positions[k] == Parabola(p.positions[k], p.velocities[k], g[k], t, h)
  }

  lemma BodyAlongParabola(dt: real, p: Phase, q: Phase, g: seq<Vec>, t: real, h: real, later: real, next: real, i: nat)
    requires |p.positions| == |p.velocities| == |q.positions| == |q.velocities| == |g| && i < |g|
    requires later == t + dt && next == h + dt * t + 0.5 * dt * dt
    requires q.velocities[i] == Add(p.velocities[i], Scale(t, g[i]))
    requires q.positions[i] == Parabola(p.positions[i], p.velocities[i], g[i], t, h)
    ensures Stepped(dt, q, g, g).velocities[i] == Add(p.velocities[i], Scale(later, g[i]))
    ensures Stepped(dt, q, g, g).positions[i] == Parabola(p.positions[i], p.velocities[i], g[i], later, next)
  {
    var kicked := HalfKicked(dt, q, g);
    MovedAt(q.velocities, 0.5 * dt, g, i);
    MovedAt(q.positions, dt, kicked, i);
    MovedAt(kicked, 0.5 * dt, g, i);
    var x, v, a, half := p.positions[i], p.velocities[i], g[i], kicked[i];
    var now, moved := q.positions[i], Stepped(dt, q, g, g).positions[i];
    AxesOfParabola(x, v, a, t, h, now);
    KickedByAxes(v, a, t, dt, half);
    DriftsByAxes(now, dt, half, moved);
    AlongParabola(x.x, v.x, a.x, t, h, dt, later, next, now.x, half.x, moved.x);
    AlongParabola(x.y, v.y, a.y, t, h, dt, later, next, now.y, half.y, moved.y);
    AlongParabola(x.z, v.z, a.z, t, h, dt, later, next, now.z, half.z, moved.z);
    ParabolaOfAxes(x, v, a, later, next, moved);
  }

  lemma SteppedAlongParabolas(dt: real, p: Phase, q: Phase, g: seq<Vec>, t: real, h: real, later: real, next: real)
    requires |p.positions| == |p.velocities| == |q.positions| == |q.velocities| == |g|
    requires later == t + dt && next == h + dt * t + 0.5 * dt * dt
    requires OnTrack(p, g, q, t, h)
    ensures OnTrack(p, g, Stepped(dt, q, g, g), later, next)
  {
    forall k: nat | UseBody(k) && k < |g|
      ensures Stepped(dt, q, g, g).velocities[k] == Add(p.velocities[k], Scale(later, g[k]))
      ensures Stepped(dt, q, g, g).positions[k] == Parabola(p.positions[k], p.velocities[k], g[k], later, next)
    {
      BodyAlongParabola(dt, p, q, g, t, h, later, next, k);
    }
  }

  lemma NoTime(x: Vec, v: Vec, a: Vec, t: real, h: real)
    requires t == 0.0 && h == 0.0
    ensures Parabola(x, v, a, t, h) == x && Add(v, Scale(t, a)) == v
  {
    assert Scale(t, v) == Scale(h, a) == Scale(t, a) == ORIGIN;
  }

  lemma NothingElapsed(p: Phase, g: seq<Vec>, t: real, h: real)
    requires |g| == |p.positions| == |p.velocities| && t == 0.0 && h == 0.0
    ensures OnTrack(p, g, p, t, h)
  {
    forall k: nat | UseBody(k) && k < |g|
      ensures p.velocities[k] == Add(p.velocities[k], Scale(t, g[k]))
      ensures p.positions[k] == Parabola(p.positions[k], p.velocities[k], g[k], t, h)
    {
      NoTime(p.positions[k], p.velocities[k], g[k], t, h);
    }
  }

  lemma NextInConstantField(law: Law, p: Phase, g: seq<Vec>, n: nat)
    requires Fits(law, p) && |g| == |p.positions| && n > 0
    requires forall x :: |x| == |g| ==> law.field(x) == g
    ensures var q := After(law, p, n - 1);
            && |q.positions| == |q.velocities| == |g|
            && After(law, p, n) == Stepped(law.timeStep, q, g, g)
  {
    SameSize(law, p, n - 1);
  }

  /** The square of the time after n steps, halved and added up step by step. */
  function HalfSquare(dt: real, n: nat): real
  {
    if n == 0 then 0.0 else HalfSquare(dt, n - 1) + dt * Elapsed(dt, n - 1) + 0.5 * dt * dt
  }

  lemma {:induction false} HalfSquareIs(dt: real, n: nat)
    ensures HalfSquare(dt, n) == 0.5 * Elapsed(dt, n) * Elapsed(dt, n)
  {
    if n > 0 {
      HalfSquareIs(dt, n - 1);
      SquareOfSum(Elapsed(dt, n - 1), dt);
    }
  }

  /** In a field that does not depend on the positions every run is exact: each body follows its
      parabola, whatever the time step. */
  lemma {:induction false} ConstantFieldIsExact(law: Law, p: Phase, g: seq<Vec>, n: nat)
    requires Fits(law, p) && |g| == |p.positions|
    requires forall x :: |x| == |g| ==> law.field(x) == g
    ensures OnTrack(p, g, After(law, p, n), Elapsed(law.timeStep, n), HalfSquare(law.timeStep, n))
    decreases n
  {
    if n == 0 {
      NothingElapsed(p, g, Elapsed(law.timeStep, n), HalfSquare(law.timeStep, n));
    } else {
      var dt, q := law.timeStep, After(law, p, n - 1);
      ConstantFieldIsExact(law, p, g, n - 1);
      NextInConstantField(law, p, g, n);
      SteppedAlongParabolas(dt, p, q, g, Elapsed(dt, n - 1), HalfSquare(dt, n - 1), Elapsed(dt, n), HalfSquare(dt, n));
    }
  }

  lemma {:induction false} SameSize(law: Law, p: Phase, n: nat)
    requires Fits(law, p)
    ensures |After(law, p, n).positions| == |After(law, p, n).velocities| == |p.positions|
    decreases n
  {
    if n > 0 {
      SameSize(law, p, n - 1);
    }
  }

  function MomentumAfter(law: Law, mass: seq<real>, p: Phase, n: nat): Vec
    requires Fits(law, p) && |mass| == |p.positions|
  {
    SameSize(law, p, n);
    Momentum(mass, After(law, p, n).velocities)
  }

  /** Total mass times the centre of mass. */
  function CenterAfter(law: Law, mass: seq<real>, p: Phase, n: nat): Vec
    requires Fits(law, p) && |mass| == |p.positions|
  {
    SameSize(law, p, n);
    Momentum(mass, After(law, p, n).positions)
  }

  lemma StepKeepsMomentum(law: Law, mass: seq<real>, p: Phase, n: nat)
    requires Fits(law, p) && Balanced(law, mass) && |mass| == |p.positions|
    ensures MomentumAfter(law, mass, p, n + 1) == MomentumAfter(law, mass, p, n)
    ensures CenterAfter(law, mass, p, n + 1)
            == Add(CenterAfter(law, mass, p, n), Scale(law.timeStep, MomentumAfter(law, mass, p, n)))
  {
    SameSize(law, p, n);
    var q := After(law, p, n);
    var a := law.field(q.positions);
    SteppedKeepsMomentum(law.timeStep, mass, q, a, law.field(Drifted(law.timeStep, q, a)));
  }

  /** Motion with constant momentum, step by step. */
  lemma {:induction false} Telescopes(momenta: seq<Vec>, centers: seq<Vec>, dt: real, n: nat)
    requires |momenta| == |centers| && n < |momenta|
    requires forall k :: 0 <= k < n ==>
               momenta[k + 1] == momenta[k] && centers[k + 1] == Add(centers[k], Scale(dt, momenta[k]))
    ensures momenta[n] == momenta[0] && centers[n] == Add(centers[0], Scale(Elapsed(dt, n), momenta[0]))
  {
    if n == 0 {
      var w := momenta[0];
      assert 0.0 * w.x == 0.0 && 0.0 * w.y == 0.0 && 0.0 * w.z == 0.0;
    } else {
      Telescopes(momenta, centers, dt, n - 1);
      AddMultiples(centers[0], Elapsed(dt, n - 1), dt, momenta[0]);
    }
  }

  /** Constant momentum, and a centre that moves with it, from entry to entry. */
  ghost predicate IsHistory(momenta: seq<Vec>, centers: seq<Vec>, dt: real)
  {
    && |momenta| == |centers|
    && forall k :: 0 <= k < |momenta| - 1 ==>
         momenta[k + 1] == momenta[k] && centers[k + 1] == Add(centers[k], Scale(dt, momenta[k]))
  }

  lemma OneMoreEntry(momenta: seq<Vec>, centers: seq<Vec>, dt: real, momentum: Vec, center: Vec, n: nat)
    requires IsHistory(momenta, centers, dt) && |momenta| == n + 1
    requires momentum == momenta[n] && center == Add(centers[n], Scale(dt, momenta[n]))
    ensures IsHistory(momenta + [momentum], centers + [center], dt)
  {
  }

  lemma {:induction false} MomentumHistory(law: Law, mass: seq<real>, p: Phase, n: nat)
    returns (momenta: seq<Vec>, centers: seq<Vec>)
    requires Fits(law, p) && Balanced(law, mass) && |mass| == |p.positions|
    ensures IsHistory(momenta, centers, law.timeStep) && |momenta| == n + 1
    ensures momenta[0] == MomentumAfter(law, mass, p, 0) && centers[0] == CenterAfter(law, mass, p, 0)
    ensures momenta[n] == MomentumAfter(law, mass, p, n) && centers[n] == CenterAfter(law, mass, p, n)
  {
    if n == 0 {
      momenta, centers := [MomentumAfter(law, mass, p, 0)], [CenterAfter(law, mass, p, 0)];
    } else {
      momenta, centers := MomentumHistory(law, mass, p, n - 1);
      StepKeepsMomentum(law, mass, p, n - 1);
      var momentum, center := MomentumAfter(law, mass, p, n), CenterAfter(law, mass, p, n);
      OneMoreEntry(momenta, centers, law.timeStep, momentum, center, n - 1);
      momenta, centers := momenta + [momentum], centers + [center];
    }
  }

  lemma MomentumIsConserved(law: Law, mass: seq<real>, p: Phase, n: nat)
    requires Fits(law, p) && Balanced(law, mass) && |mass| == |p.positions|
    ensures MomentumAfter(law, mass, p, n) == MomentumAfter(law, mass, p, 0)
    ensures CenterAfter(law, mass, p, n)
            == Add(CenterAfter(law, mass, p, 0), Scale(Elapsed(law.timeStep, n), MomentumAfter(law, mass, p, 0)))
  {
    var momenta, centers := MomentumHistory(law, mass, p, n);
    Telescopes(momenta, centers, law.timeStep, n);
  }
}
