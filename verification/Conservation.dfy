/** The laws of motion of the simulation itself: every run is reversible for any opening angle;
    with opening angle zero the forces cancel in pairs, so that momentum is conserved. */
module Conservation {
  import opened Prefixes
  import opened Vectors
  import opened Coverage
  import opened BarnesHut
  import opened DirectSum
  import opened Moments
  import opened SpatialStructure
  import opened Pipeline
  import opened Forces
  import opened Leapfrog

  // ----- sums of pairs that cancel

  /** The first n entries of row i. */
  function Row(f: (nat, nat) -> Vec, i: nat, n: nat): Vec
    decreases n
  {
    if n == 0 then ORIGIN else Add(Row(f, i, n - 1), f(i, n - 1))
  }

  /** The first n entries of column j. */
  function Column(f: (nat, nat) -> Vec, j: nat, n: nat): Vec
    decreases n
  {
    if n == 0 then ORIGIN else Add(Column(f, j, n - 1), f(n - 1, j))
  }

  /** The first n entries of the first rows. */
  function Block(f: (nat, nat) -> Vec, rows: nat, n: nat): Vec
    decreases rows
  {
    if rows == 0 then ORIGIN else Add(Block(f, rows - 1, n), Row(f, rows - 1, n))
  }

  ghost predicate Antisymmetric(f: (nat, nat) -> Vec)
  {
    forall i, j :: f(i, j) == Neg(f(j, i))
  }

  lemma {:induction false} ColumnIsNegatedRow(f: (nat, nat) -> Vec, k: nat, n: nat)
    requires Antisymmetric(f)
    ensures Column(f, k, n) == Neg(Row(f, k, n))
    decreases n
  {
    if n > 0 {
      ColumnIsNegatedRow(f, k, n - 1);
      assert f(n - 1, k) == Neg(f(k, n - 1));
    }
  }

  lemma {:induction false} BlockGrows(f: (nat, nat) -> Vec, rows: nat, n: nat)
    ensures Block(f, rows, n + 1) == Add(Block(f, rows, n), Column(f, n, rows))
    decreases rows
  {
    if rows > 0 {
      BlockGrows(f, rows - 1, n);
    }
  }

  lemma CancelFour(row: Vec, diagonal: Vec)
    requires diagonal == Neg(diagonal)
    ensures Add(Add(ORIGIN, Neg(row)), Add(row, diagonal)) == ORIGIN
  {
  }

  /** All entries of an antisymmetric square cancel. */
  lemma {:induction false} SquareCancels(f: (nat, nat) -> Vec, n: nat)
    requires Antisymmetric(f)
    ensures Block(f, n, n) == ORIGIN
    decreases n
  {
    if n > 0 {
      var k := n - 1;
      SquareCancels(f, k);
      BlockGrows(f, k, k);
      ColumnIsNegatedRow(f, k, k);
      assert f(k, k) == Neg(f(k, k));
      calc {
        Block(f, n, n);
        Add(Add(Block(f, k, k), Column(f, k, k)), Add(Row(f, k, k), f(k, k)));
        { CancelFour(Row(f, k, k), f(k, k)); }
        ORIGIN;
      }
    }
  }

  // ----- the forces between two particles

  /** The force of particle j on particle i. */
  function PairForce(gravity: Gravity, data: seq<Body>, i: nat, j: nat): Vec
  {
    if i >= |data| || j >= |data| || i == j then ORIGIN
    else Scale(data[i].mass, Pull(gravity, data[i].position, data[j]))
  }

  lemma OppositeDistance(a: Vec, b: Vec)
    ensures Sub(b, a) == Neg(Sub(a, b))
    ensures SquaredNorm(Sub(b, a)) == SquaredNorm(Sub(a, b))
  {
    OppositeSquare(a.x, b.x);
    OppositeSquare(a.y, b.y);
    OppositeSquare(a.z, b.z);
  }

  lemma OppositeSquare(a: real, b: real)
    ensures (b - a) * (b - a) == (a - b) * (a - b)
  {
  }

  lemma ScaleOfOrigin(k: real)
    ensures Scale(k, ORIGIN) == ORIGIN && Neg(ORIGIN) == ORIGIN
  {
    assert k * 0.0 == 0.0;
  }

  lemma ScaleOfZero(v: Vec)
    ensures Scale(0.0, v) == ORIGIN
  {
    assert 0.0 * v.x == 0.0 && 0.0 * v.y == 0.0 && 0.0 * v.z == 0.0;
  }

  /** Masses m and n change places in the factor and in front of it. */
  lemma ScaledBothWays(m: real, n: real, g: real, c: real, kn: real, km: real, d: Vec)
    requires kn == g * n * c && km == g * m * c
    ensures Scale(m, Scale(kn, d)) == Neg(Scale(n, Scale(km, Neg(d))))
  {
    FactorsAgree(m, n, g, c, kn, km);
    VectorBothWays(m, n, kn, km, d);
  }

  lemma VectorBothWays(m: real, n: real, kn: real, km: real, d: Vec)
    requires m * kn == n * km
    ensures Scale(m, Scale(kn, d)) == Neg(Scale(n, Scale(km, Neg(d))))
  {
    var a, b := Scale(kn, d), Scale(km, Neg(d));
    BothWays(m, n, kn, km, d.x, a.x, b.x);
    BothWays(m, n, kn, km, d.y, a.y, b.y);
    BothWays(m, n, kn, km, d.z, a.z, b.z);
    Opposite(m, a, n, b);
  }

  lemma Opposite(m: real, a: Vec, n: real, b: Vec)
    requires m * a.x == -(n * b.x) && m * a.y == -(n * b.y) && m * a.z == -(n * b.z)
    ensures Scale(m, a) == Neg(Scale(n, b))
  {
  }

  lemma Exchange(a: real, b: real, c: real)
    ensures a * b * c == a * c * b
  {
  }

  lemma ExchangeInside(m: real, n: real, k: real)
    ensures m * (k * n) == n * (k * m)
  {
  }

  lemma FactorsAgree(m: real, n: real, g: real, c: real, kn: real, km: real)
    requires kn == g * n * c && km == g * m * c
    ensures m * kn == n * km
  {
    var k := g * c;
    Exchange(g, n, c);
    Exchange(g, m, c);
    assert kn == k * n && km == k * m;
    ExchangeInside(m, n, k);
  }

  lemma BothWays(m: real, n: real, kn: real, km: real, d: real, a: real, b: real)
    requires m * kn == n * km && a == kn * d && b == km * -d
    ensures m * a == -(n * b)
  {
    assert m * (kn * d) == (m * kn) * d;
    assert n * (km * -d) == -((n * km) * d);
  }

  /** Action and reaction. */
  lemma PairForcesCancel(gravity: Gravity, data: seq<Body>, i: nat, j: nat)
    ensures PairForce(gravity, data, i, j) == Neg(PairForce(gravity, data, j, i))
  {
    ScaleOfOrigin(0.0);
    if i < |data| && j < |data| && i != j {
      var a, b := data[i], data[j];
      ScaleOfOrigin(a.mass);
      ScaleOfOrigin(b.mass);
      if a.mass == 0.0 {
        ScaleOfZero(Pull(gravity, a.position, b));
      } else if b.mass == 0.0 {
        ScaleOfZero(Pull(gravity, b.position, a));
      } else {
        MassivePairCancels(gravity, a, b);
      }
    }
  }

  lemma PullAlong(gravity: Gravity, target: Vec, source: Body, d: Vec, inverse: real, k: real)
    requires source.mass != 0.0 && d == Sub(source.position, target)
    requires inverse == gravity.inverseDistance(SquaredNorm(d) + gravity.softeningSquared)
    requires k == gravity.constant * source.mass * (inverse * inverse * inverse)
    ensures Pull(gravity, target, source) == Scale(k, d)
  {
  }

  lemma MassivePairCancels(gravity: Gravity, a: Body, b: Body)
    requires a.mass != 0.0 && b.mass != 0.0
    ensures Scale(a.mass, Pull(gravity, a.position, b)) == Neg(Scale(b.mass, Pull(gravity, b.position, a)))
  {
    OppositeDistance(a.position, b.position);
    var d := Sub(b.position, a.position);
    var inverse := gravity.inverseDistance(SquaredNorm(d) + gravity.softeningSquared);
    var cube := inverse * inverse * inverse;
    var kb, ka := gravity.constant * b.mass * cube, gravity.constant * a.mass * cube;
    PullAlong(gravity, a.position, b, d, inverse, kb);
    PullAlong(gravity, b.position, a, Neg(d), inverse, ka);
    ScaledBothWays(a.mass, b.mass, gravity.constant, cube, kb, ka, d);
  }

  function PairForces(gravity: Gravity, data: seq<Body>): (f: (nat, nat) -> Vec)
  {
    (i: nat, j: nat) => PairForce(gravity, data, i, j)
  }

  lemma PairForcesAreAntisymmetric(gravity: Gravity, data: seq<Body>)
    ensures Antisymmetric(PairForces(gravity, data))
  {
    var f := PairForces(gravity, data);
    forall i, j
      ensures f(i, j) == Neg(f(j, i))
    {
      PairForcesCancel(gravity, data, i, j);
    }
  }

  lemma ScaleOfSum(k: real, a: Vec, b: Vec)
    ensures Scale(k, Add(a, b)) == Add(Scale(k, a), Scale(k, b))
  {
    assert k * (a.x + b.x) == k * a.x + k * b.x;
    assert k * (a.y + b.y) == k * a.y + k * b.y;
    assert k * (a.z + b.z) == k * a.z + k * b.z;
  }

  lemma ScaledPull(gravity: Gravity, data: seq<Body>, i: nat, j: nat)
    requires i < |data| && j < |data|
    ensures Scale(data[i].mass, PullOf(Scene(gravity, data, [], [], i), j)) == PairForces(gravity, data)(i, j)
  {
    ScaleOfOrigin(data[i].mass);
  }

  /** Mass times the direct sum on a particle is the row of its pair forces. */
  lemma {:induction false} ScaledSumIsRow(gravity: Gravity, data: seq<Body>, i: nat, n: nat)
    requires i < |data| && n <= |data|
    ensures Scale(data[i].mass, PullSum(Scene(gravity, data, [], [], i), Positions(0, n)))
            == Row(PairForces(gravity, data), i, n)
    decreases n
  {
    var w := Scene(gravity, data, [], [], i);
    if n == 0 {
      ScaleOfOrigin(data[i].mass);
    } else {
      var sum := PullSum(w, Positions(0, n - 1));
      calc {
        Scale(data[i].mass, PullSum(w, Positions(0, n)));
        { PullSumSnoc(w, Positions(0, n - 1), n - 1); }
        Scale(data[i].mass, Add(sum, PullOf(w, n - 1)));
        { ScaleOfSum(data[i].mass, sum, PullOf(w, n - 1)); }
        Add(Scale(data[i].mass, sum), Scale(data[i].mass, PullOf(w, n - 1)));
        { ScaledSumIsRow(gravity, data, i, n - 1); ScaledPull(gravity, data, i, n - 1); }
        Row(PairForces(gravity, data), i, n);
      }
    }
  }

  lemma {:induction false} WeightedSumIsBlock(f: (nat, nat) -> Vec, mass: seq<real>, a: seq<Vec>, n: nat, width: nat)
    requires n <= |mass| == |a|
    requires forall i :: 0 <= i < |a| ==> Scale(mass[i], a[i]) == Row(f, i, width)
    ensures WeightedSum(mass, a, n) == Block(f, n, width)
    decreases n
  {
    if n > 0 {
      WeightedSumIsBlock(f, mass, a, n - 1, width);
      LastOfSum(mass, a, n);
    }
  }

  /** The direct sums on all particles, each weighted with its mass, cancel. */
  lemma DirectSumsCancel(gravity: Gravity, data: seq<Body>, mass: seq<real>, a: seq<Vec>)
    requires |mass| == |data| == |a|
    requires forall i :: 0 <= i < |data| ==> mass[i] == data[i].mass && a[i] == DirectSumOn(gravity, data, i)
    ensures Momentum(mass, a) == ORIGIN
  {
    var f := PairForces(gravity, data);
    forall i | 0 <= i < |a|
      ensures Scale(mass[i], a[i]) == Row(f, i, |data|)
    {
      ScaledSumIsRow(gravity, data, i, |data|);
    }
    WeightedSumIsBlock(f, mass, a, |a|, |data|);
    PairForcesAreAntisymmetric(gravity, data);
    SquareCancels(f, |data|);
  }

  // ----- the law of the simulation

  /** What does not change during a simulation. */
  datatype Model = Model(mass: seq<real>, gravity: Gravity, timeStep: real)

  ghost predicate IsModel(m: Model)
  {
    0 < |m.mass| && FitsIn(|m.mass|, 31)
  }

  function Bodies(mass: seq<real>, positions: seq<Vec>): (data: seq<Body>)
    requires |mass| == |positions|
    ensures |data| == |mass|
  {
    seq(|mass|, i requires 0 <= i < |mass| => Body(mass[i], positions[i]))
  }

  ghost function Field(m: Model, x: seq<Vec>): (a: seq<Vec>)
    requires IsModel(m)
    ensures |a| == |x|
  {
    if |x| == |m.mass| then AccelerationOf(m.gravity, Bodies(m.mass, x)) else x
  }

  ghost predicate Evaluates(m: Model, x: seq<Vec>)
    requires IsModel(m)
  {
    |x| == |m.mass| && !Fails(m.gravity, Bodies(m.mass, x))
  }

  ghost function LawOf(m: Model): Law
    requires IsModel(m)
  {
    Law(m.timeStep, x => Field(m, x), x => Evaluates(m, x))
  }

  lemma LawFits(m: Model, p: Phase)
    requires IsModel(m) && |p.positions| == |p.velocities|
    ensures Fits(LawOf(m), p)
  {
    forall x
      ensures |LawOf(m).field(x)| == |x|
    {
      assert LawOf(m).field(x) == Field(m, x);
    }
  }

  lemma FieldIsDirectSum(m: Model, x: seq<Vec>, i: nat)
    requires IsModel(m) && |x| == |m.mass| && m.gravity.theta <= 0.0 && i < |x|
    requires forall k :: 0 <= k < |m.mass| ==> m.mass[k] >= 0.0
    ensures Field(m, x)[i] == DirectSumOn(m.gravity, Bodies(m.mass, x), i)
  {
    ZeroAngleIsDirectSum(m.gravity, Bodies(m.mass, x), i);
  }

  /** With opening angle zero the forces are balanced. */
  lemma ZeroAngleIsBalanced(m: Model)
    requires IsModel(m) && m.gravity.theta <= 0.0
    requires forall k :: 0 <= k < |m.mass| ==> m.mass[k] >= 0.0
    ensures forall x :: |LawOf(m).field(x)| == |x|
    ensures Balanced(LawOf(m), m.mass)
  {
    LawFits(m, Phase([], []));
    forall x | |x| == |m.mass|
      ensures Momentum(m.mass, LawOf(m).field(x)) == ORIGIN
    {
      assert LawOf(m).field(x) == Field(m, x);
      forall i | 0 <= i < |x|
        ensures Field(m, x)[i] == DirectSumOn(m.gravity, Bodies(m.mass, x), i)
      {
        FieldIsDirectSum(m, x, i);
      }
      DirectSumsCancel(m.gravity, Bodies(m.mass, x), m.mass, Field(m, x));
    }
  }

  /** The simulation runs backwards: n steps, all velocities negated, and n steps more lead back
      to the start, and succeed if the first n did. */
  lemma SimulationIsReversible(m: Model, p: Phase, n: nat)
    requires IsModel(m) && |p.positions| == |p.velocities| == |m.mass|
    ensures Fits(LawOf(m), p)
    ensures After(LawOf(m), Reverse(After(LawOf(m), p, n)), n) == Reverse(p)
    ensures (Evaluates(m, p.positions) && Succeeds(LawOf(m), p, n))
            ==> Succeeds(LawOf(m), Reverse(After(LawOf(m), p, n)), n)
  {
    LawFits(m, p);
    RunIsReversible(LawOf(m), p, n);
    if Evaluates(m, p.positions) && Succeeds(LawOf(m), p, n) {
      ReversedRunSucceeds(LawOf(m), p, n);
    }
  }

  /** With opening angle zero the momentum is conserved, and the mass-weighted sum of positions
      moves by the elapsed time times the momentum. */
  lemma SimulationConservesMomentum(m: Model, p: Phase, n: nat)
    requires IsModel(m) && |p.positions| == |p.velocities| == |m.mass| && m.gravity.theta <= 0.0
    requires forall k :: 0 <= k < |m.mass| ==> m.mass[k] >= 0.0
    ensures Fits(LawOf(m), p)
    ensures MomentumAfter(LawOf(m), m.mass, p, n) == Momentum(m.mass, p.velocities)
    ensures CenterAfter(LawOf(m), m.mass, p, n)
            == Add(Momentum(m.mass, p.positions), Scale(Elapsed(m.timeStep, n), Momentum(m.mass, p.velocities)))
  {
    LawFits(m, p);
    ZeroAngleIsBalanced(m);
    MomentumIsConserved(LawOf(m), m.mass, p, n);
  }
}
