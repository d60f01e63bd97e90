/** The simulation object: kick-drift-kick around a staged rebuild of the spatial structure, with
    current and next accelerations in two buffers that change places. Any CUDA operation may
    fail; which one does is a parameter of every call. */
module Simulations {
  import opened Prefixes
  import opened Vectors
  import opened BarnesHut
  import opened Accelerations
  import opened BoundingBox
  import opened OctreeLimits
  import opened Options
  import opened SpatialStructure
  import opened Pipeline
  import opened Forces
  import opened Leapfrog
  import opened Conservation
  import opened Newton
  import opened Gravitation
  import opened Threads

  datatype Status = Created | Ready | Failed

  /** Where a CUDA operation fails. A failing kernel has run some of its threads. */
  datatype Fault = NoFault | InAllocation | InDrift(done: set<int>) | InRebuild | InForces | InKick(done: set<int>)

  /** The fault stops a step. The buffers of the forces are allocated before the first step. */
  predicate Stops(fault: Fault)
  {
    fault.InDrift? || fault.InRebuild? || fault.InForces? || fault.InKick?
  }

  /** Marks the positions at which the laws below are to be read. */
  ghost predicate UseAt(x: seq<Vec>)
  {
    true
  }

  /** The laws are those of the pipeline: forces, their success, and the spatial structure. */
  ghost predicate Governs(m: Model, law: Law, layout: seq<Vec> -> Structure)
    requires IsModel(m)
  {
    && law.timeStep == m.timeStep
    && (forall x :: |law.field(x)| == |x|)
    && (forall x {:trigger UseAt(x)} :: UseAt(x) && |x| == |m.mass| ==>
          && law.field(x) == Field(m, x)
          && law.evaluates(x) == Evaluates(m, x)
          && layout(x) == StructureOf(Bodies(m.mass, x)))
  }

  ghost function LayoutOf(m: Model): seq<Vec> -> Structure
    requires IsModel(m)
  {
    x => if |x| == |m.mass| then StructureOf(Bodies(m.mass, x)) else StructureOf(Bodies(m.mass, AnyPlaces(m)))
  }

  ghost function AnyPlaces(m: Model): (x: seq<Vec>)
    ensures |x| == |m.mass|
  {
    seq(|m.mass|, _ => ORIGIN)
  }

  lemma PipelineGoverns(m: Model)
    requires IsModel(m)
    ensures Governs(m, LawOf(m), LayoutOf(m))
  {
    LawFits(m, Phase([], []));
  }

  class Simulation {
    const model: Model
    const positions: array<Vec>
    const velocities: array<Vec>
    ghost const law: Law
    ghost const layout: seq<Vec> -> Structure
    var status: Status
    var time: real
    var stepNumber: nat
    var structure: Option<Structure>
    var acceleration: array<Vec>
    var nextAcceleration: array<Vec>

    ghost predicate Shaped()
      reads this
    {
      && IsModel(model) && |model.mass| <= MOST_GROUPS && Governs(model, law, layout)
      && positions.Length == velocities.Length == acceleration.Length == nextAcceleration.Length == |model.mass|
      && positions != velocities && acceleration != nextAcceleration
      && acceleration != positions && acceleration != velocities
      && nextAcceleration != positions && nextAcceleration != velocities
    }

    ghost function PhaseNow(): Phase
      reads this, positions, velocities
    {
      Phase(positions[..], velocities[..])
    }

    /** Structure and accelerations are those of the current positions, and the time is that of
        the step number. */
    ghost predicate Current()
      reads this, positions, acceleration
    {
      && structure == Some(layout(positions[..]))
      && acceleration[..] == law.field(positions[..])
      && law.evaluates(positions[..])
      && time == Elapsed(law.timeStep, stepNumber)
    }

    /** The spatial structure houses and weighs the particles where they are, and the accelerations
        are those of Newton's law: pulls of all others for opening angle zero, and for any angle
        pulls of groups that are small or far away. */
    ghost predicate Attracted()
      requires positions.Length == |model.mass|
      reads this, positions, acceleration
    {
      && structure.Some? && Houses(structure.value, positions[..])
      && WeighsAll(structure.value, model.mass, positions[..])
      && Accelerates(model.gravity, model.mass, positions[..], acceleration[..])
    }

    ghost predicate Valid()
      reads this, positions, velocities, acceleration, nextAcceleration
    {
      && Shaped()
      && (status == Created ==> time == 0.0 && stepNumber == 0)
      && (status == Ready ==> Current())
    }

    constructor (m: Model, x: array<Vec>, v: array<Vec>, ghost l: Law, ghost y: seq<Vec> -> Structure)
      requires IsModel(m) && x.Length == v.Length == |m.mass| && x != v && Governs(m, l, y)
      ensures |m.mass| <= MOST_GROUPS ==> Valid()
      ensures status == Created && model == m && positions == x && velocities == v
      ensures law == l && layout == y
      ensures structure == None && fresh(acceleration) && fresh(nextAcceleration)
    {
      model, positions, velocities := m, x, v;
      law, layout := l, y;
      status, time, stepNumber, structure := Created, 0.0, 0, None;
      acceleration := new Vec[|m.mass|](_ => ORIGIN);
      nextAcceleration := new Vec[|m.mass|](_ => ORIGIN);
    }

    // ----- the kernels of the integrator

    /** Half kick and drift, one thread for each particle; only the threads in `done` run when
        the launch fails. */
    method UpdatePositions(fault: Fault) returns (ok: bool)
      requires Shaped()
      modifies positions, velocities
      ensures ok <==> !fault.InDrift?
      ensures ok ==> velocities[..] == HalfKicked(model.timeStep, old(PhaseNow()), acceleration[..])
      ensures ok ==> positions[..] == Drifted(model.timeStep, old(PhaseNow()), acceleration[..])
    {
      var halfDt := 0.5 * model.timeStep;
      var n := |model.mass|;
      ghost var before := PhaseNow();
      var threads := if fault.InDrift? then ThreadIds(n) * fault.done else ThreadIds(n);
      ghost var all := threads;
      while threads != {}
        invariant threads <= all && forall t :: t in all ==> 0 <= t < n
        invariant forall i :: 0 <= i < n && (i in threads || i !in all) ==>
                    velocities[i] == before.velocities[i] && positions[i] == before.positions[i]
        invariant forall i :: 0 <= i < n && i in all && i !in threads ==>
                    && velocities[i] == Add(before.velocities[i], Scale(halfDt, acceleration[i]))
                    && positions[i] == Add(before.positions[i], Scale(model.timeStep, velocities[i]))
      {
        var i :| i in threads;
        velocities[i] := Add(velocities[i], Scale(halfDt, acceleration[i]));
        positions[i] := Add(positions[i], Scale(model.timeStep, velocities[i]));
        threads := threads - {i};
      }
      ok := !fault.InDrift?;
    }

    /** The second half kick. */
    method UpdateVelocities(fault: Fault) returns (ok: bool)
      requires Shaped()
      modifies velocities
      ensures ok <==> !fault.InKick?
      ensures ok ==> velocities[..] == Moved(old(velocities[..]), 0.5 * model.timeStep, nextAcceleration[..])
    {
      var halfDt := 0.5 * model.timeStep;
      var n := |model.mass|;
      ghost var before := velocities[..];
      var threads := if fault.InKick? then ThreadIds(n) * fault.done else ThreadIds(n);
      ghost var all := threads;
      while threads != {}
        invariant threads <= all && forall t :: t in all ==> 0 <= t < n
        invariant forall i :: 0 <= i < n && (i in threads || i !in all) ==> velocities[i] == before[i]
        invariant forall i :: 0 <= i < n && i in all && i !in threads ==>
                    velocities[i] == Add(before[i], Scale(halfDt, nextAcceleration[i]))
      {
        var i :| i in threads;
        velocities[i] := Add(velocities[i], Scale(halfDt, nextAcceleration[i]));
        threads := threads - {i};
      }
      ok := !fault.InKick?;
    }

    // ----- structure and forces

    /** Everything is built beside the old structure and takes its place only as a whole. */
    method Rebuild(fault: Fault) returns (ok: bool)
      requires Shaped()
      modifies this`structure
      ensures ok <==> !fault.InRebuild?
      ensures ok ==> structure == Some(layout(positions[..]))
      ensures !ok ==> structure == old(structure)
    {
      assert UseAt(positions[..]);
      var data := Bodies(model.mass, positions[..]);
      AllPointsReduced(|data|);
      FewParticlesAreCountable(data);
      var staged, error := RebuildSpatialStructure(data, AllPoints(|data|));
      if error != 0 || fault.InRebuild? {
        return false;
      }
      structure := Some(staged);
      ok := true;
    }

    method ComputeNextAccelerations(fault: Fault) returns (ok: bool)
      requires Shaped() && structure == Some(layout(positions[..]))
      modifies nextAcceleration
      ensures ok <==> !fault.InForces? && law.evaluates(positions[..])
      ensures ok ==> nextAcceleration[..] == law.field(positions[..])
    {
      assert UseAt(positions[..]);
      var data := Bodies(model.mass, positions[..]);
      FewParticlesAreCountable(data);
      var error := ComputeAccelerations(model.gravity, data, structure.value, nextAcceleration);
      ok := error == 0 && !fault.InForces?;
    }

    /** Structure and accelerations for the positions as they are now. */
    method Refresh(fault: Fault) returns (ok: bool)
      requires Shaped()
      modifies this`structure, nextAcceleration
      ensures ok <==> !fault.InRebuild? && !fault.InForces? && law.evaluates(positions[..])
      ensures ok ==> structure == Some(layout(positions[..])) && nextAcceleration[..] == law.field(positions[..])
      ensures structure == old(structure) || structure == Some(layout(positions[..]))
    {
      ok := Rebuild(fault);
      if ok {
        ok := ComputeNextAccelerations(fault);
      }
    }

    method SwapAccelerationBuffers()
      requires Shaped()
      modifies this`acceleration, this`nextAcceleration
      ensures Shaped()
      ensures acceleration == old(nextAcceleration) && nextAcceleration == old(acceleration)
    {
      acceleration, nextAcceleration := nextAcceleration, acceleration;
    }

    /** A ready simulation is attracted by its own particles. */
    lemma ReadyIsAttracted()
      requires Valid() && status == Ready && Physical(model)
      ensures Attracted()
    {
      assert UseAt(positions[..]);
      ModelIsPopulated(model, positions[..]);
      StructureHouses(model.mass, positions[..]);
      StructureWeighsAll(model.mass, positions[..]);
      FieldAccelerates(model, positions[..]);
    }

    // ----- the public operations

    /** Only a created simulation can be initialized. Failure releases everything that was built
        and is final. */
    method Initialize(fault: Fault) returns (ok: bool)
      requires Valid()
      modifies this, nextAcceleration
      ensures Valid() && Unmoved()
      ensures old(status) != Created ==> !ok && status == old(status) && structure == old(structure)
      ensures old(status) == Created ==>
                && (ok <==> (!fault.InAllocation? && !fault.InRebuild? && !fault.InForces?
                             && law.evaluates(positions[..])))
                && status == (if ok then Ready else Failed) && (!ok ==> structure == None)
      ensures ok && Physical(model) ==> Attracted()
    {
      if status != Created {
        return false;
      }
      ok := !fault.InAllocation?;
      if ok {
        ok := Refresh(fault);
      }
      if ok {
        SwapAccelerationBuffers();
        status := Ready;
        if Physical(model) {
          ReadyIsAttracted();
        }
      } else {
        structure := None;
        status := Failed;
      }
    }

    /** Positions, velocities, time and step number are as before. */
    twostate predicate Unmoved()
      reads this, positions, velocities
    {
      && positions[..] == old(positions[..]) && velocities[..] == old(velocities[..])
      && time == old(time) && stepNumber == old(stepNumber)
    }

    /** The second half kick, and the buffers change places. */
    method FinishStep(fault: Fault) returns (ok: bool)
      requires Shaped()
      modifies this`acceleration, this`nextAcceleration, this`time, this`stepNumber, velocities
      ensures {acceleration, nextAcceleration} == {old(acceleration), old(nextAcceleration)}
      ensures Shaped() && (ok <==> !fault.InKick?)
      ensures ok ==> velocities[..] == Moved(old(velocities[..]), 0.5 * model.timeStep, old(nextAcceleration[..]))
      ensures ok ==> acceleration == old(nextAcceleration) && nextAcceleration == old(acceleration)
      ensures ok ==> time == old(time) + model.timeStep && stepNumber == old(stepNumber) + 1
      ensures !ok ==> time == old(time) && stepNumber == old(stepNumber)
    {
      ok := UpdateVelocities(fault);
      if ok {
        SwapAccelerationBuffers();
        time := time + model.timeStep;
        stepNumber := stepNumber + 1;
      }
    }

    /** What follows the drift: new structure, new accelerations, second half kick. */
    method CatchUp(fault: Fault) returns (ok: bool)
      requires Shaped()
      modifies this`structure, this`acceleration, this`nextAcceleration, this`time, this`stepNumber
      modifies velocities, nextAcceleration
      ensures {acceleration, nextAcceleration} == {old(acceleration), old(nextAcceleration)}
      ensures Shaped()
      ensures ok <==> !fault.InRebuild? && !fault.InForces? && !fault.InKick? && law.evaluates(positions[..])
      ensures ok ==> structure == Some(layout(positions[..])) && acceleration[..] == law.field(positions[..])
      ensures ok ==> velocities[..] == Moved(old(velocities[..]), 0.5 * model.timeStep, law.field(positions[..]))
      ensures ok ==> time == old(time) + model.timeStep
      ensures stepNumber == old(stepNumber) + (if ok then 1 else 0)
      ensures !ok ==> time == old(time)
      ensures structure == old(structure) || structure == Some(layout(positions[..]))
    {
      ok := Refresh(fault);
      if ok {
        ok := FinishStep(fault);
      }
    }

    /** The step itself, without the state checks around it. */
    method Advance(fault: Fault) returns (ok: bool)
      requires Valid() && status == Ready
      modifies this, positions, velocities, acceleration, nextAcceleration
      ensures {acceleration, nextAcceleration} == {old(acceleration), old(nextAcceleration)}
      ensures Shaped() && status == Ready
      ensures ok <==> !Stops(fault) && law.evaluates(Next(law, old(PhaseNow())).positions)
      ensures ok ==> Current() && PhaseNow() == Next(law, old(PhaseNow()))
      ensures stepNumber == old(stepNumber) + (if ok then 1 else 0)
      ensures !ok ==> time == old(time)
      ensures structure == old(structure) || structure == Some(layout(positions[..]))
    {
      ok := UpdatePositions(fault);
      if ok {
        ok := CatchUp(fault);
      }
    }

    /** One step. A simulation that is not ready refuses and does not change; a ready one either
        makes the whole step or fails for good. */
    method Step(fault: Fault) returns (ok: bool)
      requires Valid()
      modifies this, positions, velocities, acceleration, nextAcceleration
      ensures {acceleration, nextAcceleration} == {old(acceleration), old(nextAcceleration)}
      ensures Valid()
      ensures structure == old(structure) || structure == Some(layout(positions[..]))
      ensures old(status) != Ready ==> !ok && Unmoved() && status == old(status) && structure == old(structure)
      ensures old(status) == Ready ==>
                && status == (if ok then Ready else Failed)
                && (ok ==> PhaseNow() == Next(law, old(PhaseNow())))
                && (ok <==> !Stops(fault) && law.evaluates(Next(law, old(PhaseNow())).positions))
                && stepNumber == old(stepNumber) + (if ok then 1 else 0)
      ensures ok && Physical(model) ==> Attracted()
    {
      if status != Ready {
        return false;
      }
      ok := Advance(fault);
      if !ok {
        status := Failed;
      } else if Physical(model) {
        ReadyIsAttracted();
      }
    }

    /** Steps until one fails. Running a simulation that is not ready is refused even for no
        steps at all. */
    method Run(faults: seq<Fault>) returns (ok: bool)
      requires Valid()
      modifies this, positions, velocities, acceleration, nextAcceleration
      ensures Valid()
      ensures old(status) != Ready ==> !ok && Unmoved() && status == old(status) && structure == old(structure)
      ensures old(status) == Ready ==>
                && status == (if ok then Ready else Failed)
                && stepNumber >= old(stepNumber)
                && RanUntil(law, old(PhaseNow()), faults, stepNumber - old(stepNumber), ok)
                && (ok ==> PhaseNow() == After(law, old(PhaseNow()), |faults|))
      ensures ok && Physical(model) ==> Attracted()
    {
      if status != Ready {
        return false;
      }
      ghost var start := PhaseNow();
      var current, next := acceleration, nextAcceleration;
      ok := true;
      for k := 0 to |faults|
        invariant ok && status == Ready && Valid()
        invariant {acceleration, nextAcceleration} == {current, next}
        invariant Reached(law, start, faults, k, PhaseNow())
        invariant stepNumber == old(stepNumber) + k
      {
        ghost var before := PhaseNow();
        ok := Step(faults[k]);
        if !ok {
          StepFailed(law, start, faults, k, before);
          return;
        }
        ReachedNext(law, start, faults, k, before);
      }
      if Physical(model) {
        ReadyIsAttracted();
      }
    }
  }

  /** After k successful steps from the start. */
  ghost predicate Reached(law: Law, start: Phase, faults: seq<Fault>, k: nat, p: Phase)
    requires Fits(law, start) && k <= |faults|
  {
    p == After(law, start, k) && Succeeds(law, start, k) && forall j :: 0 <= j < k ==> !Stops(faults[j])
  }

  /** The first k steps succeed. Either these are all, or the next one cannot: a fault stops it,
      or its positions cannot be evaluated. */
  ghost predicate RanUntil(law: Law, start: Phase, faults: seq<Fault>, k: nat, ok: bool)
    requires Fits(law, start)
  {
    && k <= |faults| && Succeeds(law, start, k) && (forall j :: 0 <= j < k ==> !Stops(faults[j]))
    && (ok <==> k == |faults|)
    && (!ok ==> Stops(faults[k]) || !law.evaluates(After(law, start, k + 1).positions))
  }

  lemma ReachedNext(law: Law, start: Phase, faults: seq<Fault>, k: nat, p: Phase)
    requires Fits(law, start) && k < |faults| && Reached(law, start, faults, k, p)
    ensures Fits(law, p)
    ensures !Stops(faults[k]) && law.evaluates(Next(law, p).positions)
            ==> Reached(law, start, faults, k + 1, Next(law, p))
  {
    assert After(law, start, k + 1) == Next(law, p);
  }

  lemma StepFailed(law: Law, start: Phase, faults: seq<Fault>, k: nat, p: Phase)
    requires Fits(law, start) && k < |faults| && Reached(law, start, faults, k, p)
    ensures Fits(law, p)
    ensures Stops(faults[k]) || !law.evaluates(Next(law, p).positions) ==> RanUntil(law, start, faults, k, false)
  {
    assert After(law, start, k + 1) == Next(law, p);
  }

  // ----- construction

  datatype Config = Config(timeStep: real, theta: real, softening: real)

  /** The constants and functions of the force law that are not configured. */
  datatype Physics = Physics(constant: real, squareRoot: real -> real, inverseDistance: real -> real)

  predicate ValidConfig(config: Config)
  {
    config.timeStep > 0.0 && config.theta >= 0.0 && config.softening >= 0.0
  }

  function ModelOf(config: Config, physics: Physics, mass: seq<real>): Model
  {
    Model(mass, Gravity(config.theta, config.softening * config.softening, physics.constant,
                        physics.squareRoot, physics.inverseDistance), config.timeStep)
  }

  /** What a configuration asks at these places, without a word of how forces are computed: which
      places can be evaluated, that the structure houses and weighs the particles, and that the
      accelerations are those of Newton's law, softened by the square of the softening length. */
  ghost predicate FollowsAt(config: Config, physics: Physics, mass: seq<real>, x: seq<Vec>,
                            evaluates: bool, y: Structure, a: seq<Vec>)
    requires |x| == |mass|
  {
    && (evaluates <==> config.softening > 0.0 || !SharePlace(mass, x))
    && Houses(y, x) && WeighsAll(y, mass, x)
    && (evaluates ==>
          Accelerates(Gravity(config.theta, config.softening * config.softening, physics.constant,
                              physics.squareRoot, physics.inverseDistance), mass, x, a))
  }

  ghost predicate Follows(law: Law, layout: seq<Vec> -> Structure, config: Config, physics: Physics, mass: seq<real>)
  {
    && law.timeStep == config.timeStep
    && forall x {:trigger UseAt(x)} :: UseAt(x) && |x| == |mass| ==>
         FollowsAt(config, physics, mass, x, law.evaluates(x), layout(x), law.field(x))
  }

  lemma SquareOfSoftening(softening: real, square: real)
    requires softening >= 0.0 && square == softening * softening
    ensures square >= 0.0 && (square > 0.0 <==> softening > 0.0)
  {
    SameSigns(softening, softening, square);
  }

  lemma LawEvaluates(m: Model, x: seq<Vec>)
    requires Physical(m) && |x| == |m.mass|
    ensures LawOf(m).evaluates(x) <==> m.gravity.softeningSquared > 0.0 || !SharePlace(m.mass, x)
  {
    LawEvaluatesExactly(m, x);
  }

  lemma LayoutHouses(m: Model, x: seq<Vec>)
    requires Physical(m) && |x| == |m.mass|
    ensures Houses(LayoutOf(m)(x), x) && WeighsAll(LayoutOf(m)(x), m.mass, x)
  {
    ModelIsPopulated(m, x);
    StructureHouses(m.mass, x);
    StructureWeighsAll(m.mass, x);
  }

  lemma LawAccelerates(m: Model, x: seq<Vec>)
    requires Physical(m) && |x| == |m.mass| && LawOf(m).evaluates(x)
    ensures Accelerates(m.gravity, m.mass, x, LawOf(m).field(x))
  {
    FieldAccelerates(m, x);
  }

  lemma PlacesFollow(m: Model, config: Config, physics: Physics, x: seq<Vec>, evaluates: bool, y: Structure,
                     a: seq<Vec>)
    requires m == ModelOf(config, physics, m.mass) && |x| == |m.mass|
    requires m.gravity.softeningSquared > 0.0 <==> config.softening > 0.0
    requires evaluates <==> m.gravity.softeningSquared > 0.0 || !SharePlace(m.mass, x)
    requires Houses(y, x) && WeighsAll(y, m.mass, x) && (evaluates ==> Accelerates(m.gravity, m.mass, x, a))
    ensures FollowsAt(config, physics, m.mass, x, evaluates, y, a)
  {
  }

  lemma LawFollows(m: Model, config: Config, physics: Physics, x: seq<Vec>)
    requires m == ModelOf(config, physics, m.mass) && Physical(m) && |x| == |m.mass|
    requires m.gravity.softeningSquared > 0.0 <==> config.softening > 0.0
    ensures FollowsAt(config, physics, m.mass, x, LawOf(m).evaluates(x), LayoutOf(m)(x), LawOf(m).field(x))
  {
    LawEvaluates(m, x);
    LayoutHouses(m, x);
    if LawOf(m).evaluates(x) {
      LawAccelerates(m, x);
    }
    PlacesFollow(m, config, physics, x, LawOf(m).evaluates(x), LayoutOf(m)(x), LawOf(m).field(x));
  }

  /** The law of a valid configuration follows it. */
  lemma ModelFollows(config: Config, physics: Physics, mass: seq<real>)
    requires ValidConfig(config) && IsModel(ModelOf(config, physics, mass))
    ensures var m := ModelOf(config, physics, mass);
            (forall k :: 0 <= k < |mass| ==> mass[k] >= 0.0) ==>
              Physical(m) && Follows(LawOf(m), LayoutOf(m), config, physics, mass)
  {
    var m := ModelOf(config, physics, mass);
    SquareOfSoftening(config.softening, m.gravity.softeningSquared);
    if forall k :: 0 <= k < |mass| ==> mass[k] >= 0.0 {
      forall x | UseAt(x) && |x| == |mass|
        ensures FollowsAt(config, physics, mass, x, LawOf(m).evaluates(x), LayoutOf(m)(x), LawOf(m).field(x))
      {
        LawFollows(m, config, physics, x);
      }
    }
  }

  lemma CountFits(n: nat)
    ensures FitsIn(n, 31) <==> n <= 0x7FFF_FFFF
  {
    assert Pow2(10) == 1024 && Pow2(20) == 1024 * 1024 && Pow2(31) == 2048 * 1024 * 1024;
    FitsBelowPower(n, 31);
  }

  /** Bad parameters and unrepresentable particle counts are refused; what is created follows its
      configuration. */
  method Create(config: Config, physics: Physics, mass: seq<real>, x: array<Vec>, v: array<Vec>)
    returns (s: Option<Simulation>)
    requires x.Length == v.Length == |mass| && x != v
    ensures s.Some? <==> && config.timeStep > 0.0 && config.theta >= 0.0 && config.softening >= 0.0
                         && 0 < |mass| <= 0x7FFF_FFFF
    ensures s.Some? && (forall k :: 0 <= k < |mass| ==> mass[k] >= 0.0) ==>
              Physical(s.value.model) && Follows(s.value.law, s.value.layout, config, physics, mass)
    ensures s.Some? ==> s.value.model.mass == mass && s.value.model == ModelOf(config, physics, mass)
    ensures s.Some? ==> fresh(s.value) && s.value.status == Created && (|mass| <= MOST_GROUPS ==> s.value.Valid())
    ensures s.Some? ==> s.value.positions == x && s.value.velocities == v
    ensures s.Some? ==> IsModel(ModelOf(config, physics, mass)) && s.value.law == LawOf(ModelOf(config, physics, mass))
  {
    CountFits(|mass|);
    if !ValidConfig(config) || |mass| == 0 || !FitsIn(|mass|, 31) {
      return None;
    }
    var m := ModelOf(config, physics, mass);
    PipelineGoverns(m);
    var created := new Simulation(m, x, v, LawOf(m), LayoutOf(m));
    ModelFollows(config, physics, mass);
    s := Some(created);
  }
}
