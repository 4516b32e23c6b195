/** One generation of the simulation: every car that is still alive asks its policy for
    an action, applies it, moves and is scored, tick after tick, until no car was alive
    at the start of a tick or the tick budget is spent. */
module Simulation {
  import opened Geometry
  import opened Radar
  import opened Cars

  datatype Option<T> = None | Some(value: T)

  /** A car's controller: the network of its genome, seen only through its outputs. */
  type Policy = seq<real> -> seq<real>

  /** 30 ticks per second for 40 seconds: the loop stops once the counter exceeds it. */
  const TickBudget := 30 * 40

  const SteerDelta := 10

  /** max(output) */
  function Max(s: seq<real>): (r: real)
    requires |s| > 0
    ensures r in s
    ensures forall i :: 0 <= i < |s| ==> s[i] <= r
  {
    if |s| == 1 then s[0]
    else
      var rest := Max(s[1..]);
      if rest <= s[0] then s[0] else rest
  }

  /** output.index(v): the first position holding v. */
  function IndexOf(s: seq<real>, v: real): (i: nat)
    requires v in s
    ensures i < |s| && s[i] == v
    ensures forall j :: 0 <= j < i ==> s[j] != v
  {
    if s[0] == v then 0 else 1 + IndexOf(s[1..], v)
  }

  /** output.index(max(output)): the lowest index holding the largest output. An empty
      output makes max raise, which is None here. */
  function Choose(output: seq<real>): (c: Option<nat>)
    ensures c.None? <==> output == []
    ensures c.Some? ==> c.value < |output|
    ensures c.Some? ==> forall j :: 0 <= j < |output| ==> output[j] <= output[c.value]
    ensures c.Some? ==> forall j :: 0 <= j < c.value ==> output[j] < output[c.value]
  {
    if output == [] then None else Some(IndexOf(output, Max(output)))
  }

  /** Ties go to the lowest index. */
  lemma ChooseTieBreak()
    ensures Choose([0.5, 0.5, 0.1, 0.1]) == Some(0)
  {
    assert [0.5, 0.5, 0.1, 0.1][0] == 0.5;
  }

  /** The action of a choice: 0 turns left, 1 turns right, 2 keeps going, anything
      higher accelerates, capped at MaxSpeed. */
  function Steer(s: CarState, choice: nat): (r: CarState)
    ensures r.(angle := s.angle, speed := s.speed) == s
    ensures choice == 0 ==> r.angle == s.angle + SteerDelta && r.speed == s.speed
    ensures choice == 1 ==> r.angle == s.angle - SteerDelta && r.speed == s.speed
    ensures choice == 2 ==> r == s
    ensures choice >= 3 ==> r.angle == s.angle && r.speed == (if s.speed < MaxSpeed then s.speed + 1 else MaxSpeed)
    ensures r.angle == s.angle || (r.angle - s.angle) * (r.angle - s.angle) == SteerDelta * SteerDelta
    ensures r.angle != s.angle ==> r.speed == s.speed
    ensures r.speed != s.speed ==> r.speed <= MaxSpeed && (s.speed < MaxSpeed ==> r.speed == s.speed + 1)
  {
    if choice == 0 then s.(angle := s.angle + SteerDelta)
    else if choice == 1 then s.(angle := s.angle - SteerDelta)
    else if choice == 2 then s
    else s.(speed := if s.speed + 1 < MaxSpeed then s.speed + 1 else MaxSpeed)
  }

  /** One live car's turn in a tick: decide, move, then add the reward of the state after
      the move to its fitness. */
  function StepCar(s: CarState, fitness: real, policy: Policy, track: Track, m: Math)
    : Option<(CarState, real)>
  {
    match Choose(policy(s.SensorData()))
    case None => None
    case Some(c) =>
      var next := Updated(Steer(s, c), track, m);
      Some((next, fitness + next.Reward(m)))
  }

  /** A live car's turn always adds the reward of its state after update to its fitness,
      also when update kills it before the move: such a car only loses `alive`, keeping
      the heading and speed its action gave it. */
  lemma StepCarRewardsEveryTurn(s: CarState, f: real, policy: Policy, track: Track, m: Math)
    requires s.alive && policy(s.SensorData()) != []
    ensures var c := Choose(policy(s.SensorData())).value;
      var steered := Steer(s, c);
      var step := StepCar(s, f, policy, track, m);
      && step.Some?
      && step.value.1 == f + step.value.0.Reward(m)
      && f <= step.value.1
      && (steered.Crashed(track) ==>
            step.value.0 == steered.(alive := false) && step.value.1 == f + steered.Reward(m))
  {
  }

  function CountAlive(states: seq<CarState>): nat {
    if states == [] then 0
    else CountAlive(states[..|states| - 1]) + if states[|states| - 1].alive then 1 else 0
  }

  datatype TickResult =
    | Ticked(cars: seq<CarState>, fitness: seq<real>, stillAlive: nat)
    | Failed(car: nat)

  /** The scan of one tick over the first k cars, in population order. */
  function TickUpTo(states: seq<CarState>, fitness: seq<real>, policies: seq<Policy>,
                    track: Track, m: Math, k: nat): (t: TickResult)
    requires |states| == |fitness| == |policies|
    requires k <= |states|
    ensures t.Ticked? ==> |t.cars| == |states| && |t.fitness| == |fitness|
    ensures t.Ticked? ==> forall j :: k <= j < |states| ==>
      t.cars[j] == states[j] && t.fitness[j] == fitness[j]
    ensures t.Ticked? ==> t.stillAlive == CountAlive(states[..k])
    ensures t.Failed? ==> t.car < k && states[t.car].alive
  {
    if k == 0 then Ticked(states, fitness, 0)
    else
      assert states[..k][..k - 1] == states[..k - 1];
      match TickUpTo(states, fitness, policies, track, m, k - 1)
      case Failed(j) => Failed(j)
      case Ticked(cs, fs, n) =>
        if !states[k - 1].alive then Ticked(cs, fs, n)
        else
          match StepCar(states[k - 1], fitness[k - 1], policies[k - 1], track, m)
          case None => Failed(k - 1)
          case Some(next) => Ticked(cs[k - 1 := next.0], fs[k - 1 := next.1], n + 1)
  }

  function Tick(states: seq<CarState>, fitness: seq<real>, policies: seq<Policy>,
                track: Track, m: Math): TickResult
    requires |states| == |fitness| == |policies|
  {
    TickUpTo(states, fitness, policies, track, m, |states|)
  }

  /** How a generation ends: with the cars' final states, their fitness and the value of
      the tick counter at the break, or with the car whose policy gave no output. */
  datatype Outcome =
    | Finished(cars: seq<CarState>, fitness: seq<real>, counter: nat)
    | PolicyFailed(car: nat)

  /** The `while True` loop from the tick whose counter is `counter` on. */
  function Episode(states: seq<CarState>, fitness: seq<real>, policies: seq<Policy>,
                   track: Track, m: Math, counter: nat): (o: Outcome)
    requires |states| == |fitness| == |policies|
    ensures o.Finished? ==> |o.cars| == |states| && |o.fitness| == |fitness|
    ensures o.Finished? ==> counter <= o.counter && (o.counter <= TickBudget + 1 || o.counter == counter)
    ensures o.PolicyFailed? ==> o.car < |states|
    decreases TickBudget + 1 - counter
  {
    match Tick(states, fitness, policies, track, m)
    case Failed(j) => PolicyFailed(j)
    case Ticked(cs, fs, n) =>
      if n == 0 || counter > TickBudget then Finished(cs, fs, counter)
      else Episode(cs, fs, policies, track, m, counter + 1)
  }

  /** One turn of the loop, given the tick's result: a failed policy ends the episode,
      the break test ends it with the tick's states, and otherwise the next tick follows. */
  lemma EpisodeUnfold(states: seq<CarState>, fitness: seq<real>, policies: seq<Policy>,
                      track: Track, m: Math, counter: nat, t: TickResult)
    requires |states| == |fitness| == |policies|
    requires t == Tick(states, fitness, policies, track, m)
    ensures t.Failed? ==> Episode(states, fitness, policies, track, m, counter) == PolicyFailed(t.car)
    ensures t.Ticked? && (t.stillAlive == 0 || counter > TickBudget) ==>
      Episode(states, fitness, policies, track, m, counter) == Finished(t.cars, t.fitness, counter)
    ensures t.Ticked? && t.stillAlive != 0 && counter <= TickBudget ==>
      Episode(states, fitness, policies, track, m, counter)
      == Episode(t.cars, t.fitness, policies, track, m, counter + 1)
  {
  }

  function Spawns(n: nat): (r: seq<CarState>)
    ensures |r| == n && forall j :: 0 <= j < n ==> r[j] == Spawn
  {
    seq(n, _ => Spawn)
  }

  function Zeros(n: nat): (r: seq<real>)
    ensures |r| == n && forall j :: 0 <= j < n ==> r[j] == 0.0
  {
    seq(n, _ => 0.0)
  }

  /** A generation from the spawn state, every fitness at 0 and the counter at 0. */
  function Generation(policies: seq<Policy>, track: Track, m: Math): Outcome {
    Episode(Spawns(|policies|), Zeros(|policies|), policies, track, m, 0)
  }

  predicate SpeedInRange(s: CarState) {
    Spawn.speed <= s.speed <= MaxSpeed
  }

  /** How a car and its fitness may change from one point of a generation to a later
      one: a dead car and its fitness are frozen, no car comes back to life, fitness never
      falls, distance never falls while speed is not negative, and speed stays within
      [5, MaxSpeed] once it is there. */
  predicate Successor(s: CarState, f: real, s': CarState, f': real) {
    && (!s.alive ==> s' == s && f' == f)
    && (s'.alive ==> s.alive)
    && f <= f'
    && (0 <= s.speed ==> 0 <= s'.speed && s.distance <= s'.distance)
    && (SpeedInRange(s) ==> SpeedInRange(s'))
  }

  lemma SuccessorTransitive(s: CarState, f: real, s': CarState, f': real, s'': CarState, f'': real)
    requires Successor(s, f, s', f') && Successor(s', f', s'', f'')
    ensures Successor(s, f, s'', f'')
  {
  }

  /** One live car's turn is a successor step. */
  lemma StepCarSuccessor(s: CarState, f: real, policy: Policy, track: Track, m: Math)
    requires s.alive
    requires StepCar(s, f, policy, track, m).Some?
    ensures var next := StepCar(s, f, policy, track, m).value;
      Successor(s, f, next.0, next.1)
  {
    var c := Choose(policy(s.SensorData())).value;
    var steered := Steer(s, c);
    var next := Updated(steered, track, m);
    UpdateAliveIff(steered, track, m);
    if 0 <= s.speed {
      UpdateDistanceGrows(steered, track, m);
    }
    assert 0 <= s.speed ==> 0 <= steered.speed && s.distance == steered.distance;
    assert next.speed == steered.speed;
  }

  /** Every car's state after a tick is a successor of its state before it. */
  lemma {:induction false} TickSuccessor(states: seq<CarState>, fitness: seq<real>,
                                         policies: seq<Policy>, track: Track, m: Math, k: nat)
    requires |states| == |fitness| == |policies|
    requires k <= |states|
    requires TickUpTo(states, fitness, policies, track, m, k).Ticked?
    ensures var t := TickUpTo(states, fitness, policies, track, m, k);
      forall j :: 0 <= j < |states| ==> Successor(states[j], fitness[j], t.cars[j], t.fitness[j])
  {
    if k > 0 {
      TickSuccessor(states, fitness, policies, track, m, k - 1);
      if states[k - 1].alive {
        StepCarSuccessor(states[k - 1], fitness[k - 1], policies[k - 1], track, m);
      }
    }
  }

  /** Every car's final state in a finished generation is a successor of its state when
      the generation (or the part of it from `counter` on) began. */
  lemma {:induction false} EpisodeSuccessor(states: seq<CarState>, fitness: seq<real>,
                                            policies: seq<Policy>, track: Track, m: Math, counter: nat)
    requires |states| == |fitness| == |policies|
    requires Episode(states, fitness, policies, track, m, counter).Finished?
    ensures var o := Episode(states, fitness, policies, track, m, counter);
      forall j :: 0 <= j < |states| ==> Successor(states[j], fitness[j], o.cars[j], o.fitness[j])
    decreases TickBudget + 1 - counter
  {
    var t := Tick(states, fitness, policies, track, m);
    TickSuccessor(states, fitness, policies, track, m, |states|);
    if !(t.stillAlive == 0 || counter > TickBudget) {
      var o := Episode(states, fitness, policies, track, m, counter);
      EpisodeSuccessor(t.cars, t.fitness, policies, track, m, counter + 1);
      forall j | 0 <= j < |states|
        ensures Successor(states[j], fitness[j], o.cars[j], o.fitness[j])
      {
        SuccessorTransitive(states[j], fitness[j], t.cars[j], t.fitness[j], o.cars[j], o.fitness[j]);
      }
    }
  }

  /** The count of live cars is zero exactly when every car is dead. */
  lemma {:induction false} CountAliveZero(states: seq<CarState>)
    ensures CountAlive(states) == 0 <==> forall j :: 0 <= j < |states| ==> !states[j].alive
  {
    if states != [] {
      var init := states[..|states| - 1];
      CountAliveZero(init);
      assert forall j :: 0 <= j < |init| ==> init[j] == states[j];
    }
  }

  /** A generation that stops before the counter passes the budget stops because every
      car is dead, and stays dead in the final states. */
  lemma {:induction false} EpisodeEndsAllDeadOrOverBudget(states: seq<CarState>, fitness: seq<real>,
                                                          policies: seq<Policy>, track: Track, m: Math,
                                                          counter: nat)
    requires |states| == |fitness| == |policies|
    requires Episode(states, fitness, policies, track, m, counter).Finished?
    ensures var o := Episode(states, fitness, policies, track, m, counter);
      o.counter > TickBudget || forall j :: 0 <= j < |o.cars| ==> !o.cars[j].alive
    decreases TickBudget + 1 - counter
  {
    var t := Tick(states, fitness, policies, track, m);
    if t.stillAlive == 0 {
      assert states[..|states|] == states;
      CountAliveZero(states);
      TickSuccessor(states, fitness, policies, track, m, |states|);
    } else if counter <= TickBudget {
      EpisodeEndsAllDeadOrOverBudget(t.cars, t.fitness, policies, track, m, counter + 1);
    }
  }

  /** A generation whose cars are all dead ends at once, changing nothing. */
  lemma AllDeadEndsAtOnce(states: seq<CarState>, fitness: seq<real>,
                          policies: seq<Policy>, track: Track, m: Math, counter: nat)
    requires |states| == |fitness| == |policies|
    requires forall j :: 0 <= j < |states| ==> !states[j].alive
    ensures Episode(states, fitness, policies, track, m, counter) == Finished(states, fitness, counter)
  {
    AllDeadTick(states, fitness, policies, track, m, |states|);
  }

  lemma {:induction false} AllDeadTick(states: seq<CarState>, fitness: seq<real>,
                                       policies: seq<Policy>, track: Track, m: Math, k: nat)
    requires |states| == |fitness| == |policies|
    requires k <= |states|
    requires forall j :: 0 <= j < |states| ==> !states[j].alive
    ensures TickUpTo(states, fitness, policies, track, m, k) == Ticked(states, fitness, 0)
  {
    if k > 0 {
      AllDeadTick(states, fitness, policies, track, m, k - 1);
    }
  }

  /** A whole generation: it runs at most TickBudget + 2 ticks (counter 0 to 1201), a
      car's fitness never falls below 0, every speed stays in [5, MaxSpeed], distances
      never fall, and if it stops before the budget, every car is dead. */
  lemma GenerationProperties(policies: seq<Policy>, track: Track, m: Math)
    ensures var o := Generation(policies, track, m);
      o.Finished? ==>
      && o.counter <= TickBudget + 1
      && (forall j :: 0 <= j < |policies| ==>
            0.0 <= o.fitness[j] && SpeedInRange(o.cars[j]) && 0 <= o.cars[j].distance)
      && (o.counter <= TickBudget ==> forall j :: 0 <= j < |policies| ==> !o.cars[j].alive)
  {
    var n := |policies|;
    if Generation(policies, track, m).Finished? {
      EpisodeSuccessor(Spawns(n), Zeros(n), policies, track, m, 0);
      EpisodeEndsAllDeadOrOverBudget(Spawns(n), Zeros(n), policies, track, m, 0);
    }
  }

  /** The scan of one more car. */
  lemma TickUpToNext(states: seq<CarState>, fitness: seq<real>, policies: seq<Policy>,
                     track: Track, m: Math, k: nat, cs: seq<CarState>, fs: seq<real>, n: nat)
    requires |states| == |fitness| == |policies|
    requires k < |states|
    requires TickUpTo(states, fitness, policies, track, m, k) == Ticked(cs, fs, n)
    ensures !states[k].alive ==> TickUpTo(states, fitness, policies, track, m, k + 1) == Ticked(cs, fs, n)
    ensures states[k].alive ==>
      var step := StepCar(states[k], fitness[k], policies[k], track, m);
      TickUpTo(states, fitness, policies, track, m, k + 1) ==
        if step.None? then Failed(k) else Ticked(cs[k := step.value.0], fs[k := step.value.1], n + 1)
  {
  }

  /** Once a car's policy has failed, the rest of the tick does not change the result. */
  lemma {:induction false} TickFailurePersists(states: seq<CarState>, fitness: seq<real>,
                                               policies: seq<Policy>, track: Track, m: Math,
                                               k: nat, k': nat)
    requires |states| == |fitness| == |policies|
    requires k <= k' <= |states|
    requires TickUpTo(states, fitness, policies, track, m, k).Failed?
    ensures TickUpTo(states, fitness, policies, track, m, k') == TickUpTo(states, fitness, policies, track, m, k)
    decreases k' - k
  {
    if k < k' {
      TickFailurePersists(states, fitness, policies, track, m, k, k' - 1);
    }
  }

  /** The turn of one live car inside the tick: ask the policy, apply the chosen action
      to the car's fields, update the car, and return its new fitness. */
  method TakeTurn(car: Car, ghost s: CarState, fitness: real, policy: Policy, track: Track, m: Math)
    returns (newFitness: Option<real>)
    requires car.State() == s
    modifies car
    ensures var step := StepCar(s, fitness, policy, track, m);
      && (newFitness.None? <==> step.None?)
      && (step.Some? ==> newFitness == Some(step.value.1) && car.State() == step.value.0)
  {
    var output := policy(SensorVector(car.radars));
    var choice := Choose(output);
    if choice.None? {
      return None;
    }
    ghost var before := car.State();
    if choice.value == 0 {
      car.angle := car.angle + SteerDelta;
    } else if choice.value == 1 {
      car.angle := car.angle - SteerDelta;
    } else if choice.value == 2 {
    } else {
      car.speed := if car.speed + 1 < MaxSpeed then car.speed + 1 else MaxSpeed;
    }
    assert car.State() == Steer(before, choice.value);
    car.Update(track, m);
    newFitness := Some(fitness + car.State().Reward(m));
  }

  /** The car objects hold exactly the given states, in order. */
  predicate Mirrors(cars: seq<Car>, states: seq<CarState>)
    reads cars
  {
    |cars| == |states| && forall j {:trigger cars[j]} :: 0 <= j < |cars| ==> cars[j].State() == states[j]
  }

  /** No car object appears twice in the population. */
  predicate Distinct(cars: seq<Car>) {
    forall i, j :: 0 <= i < j < |cars| ==> cars[i] != cars[j]
  }

  /** The body of the tick's for loop for car i: a live car is counted and takes its
      turn; a dead car is skipped. */
  method VisitCar(cars: seq<Car>, i: nat, ghost states: seq<CarState>, ghost fitness: seq<real>,
                  policies: seq<Policy>, track: Track, m: Math,
                  cs: seq<CarState>, fs: seq<real>, stillAlive: nat) returns (t: TickResult)
    requires |cars| == |states| == |fitness| == |policies| && i < |cars|
    requires TickUpTo(states, fitness, policies, track, m, i) == Ticked(cs, fs, stillAlive)
    requires Mirrors(cars, cs) && Distinct(cars)
    modifies cars[i]
    ensures t == TickUpTo(states, fitness, policies, track, m, i + 1)
    ensures t.Ticked? ==> Mirrors(cars, t.cars)
  {
    var car := cars[i];
    assert cs[i] == states[i] && fs[i] == fitness[i];
    TickUpToNext(states, fitness, policies, track, m, i, cs, fs, stillAlive);
    if !car.IsAlive() {
      return Ticked(cs, fs, stillAlive);
    }
    var reward := TakeTurn(car, cs[i], fs[i], policies[i], track, m);
    if reward.None? {
      return Failed(i);
    }
    t := Ticked(cs[i := car.State()], fs[i := reward.value], stillAlive + 1);
  }

  /** The for loop of one tick over the car objects, in population order. */
  method RunTick(cars: seq<Car>, states: seq<CarState>, fitness: seq<real>,
                 policies: seq<Policy>, track: Track, m: Math) returns (t: TickResult)
    requires |cars| == |states| == |fitness| == |policies|
    requires Mirrors(cars, states) && Distinct(cars)
    modifies cars
    ensures t == Tick(states, fitness, policies, track, m)
    ensures t.Ticked? ==> Mirrors(cars, t.cars)
  {
    t := Ticked(states, fitness, 0);
    var i := 0;
    while i < |cars|
      invariant 0 <= i <= |cars|
      invariant t == TickUpTo(states, fitness, policies, track, m, i) && t.Ticked?
      invariant Mirrors(cars, t.cars)
    {
      t := VisitCar(cars, i, states, fitness, policies, track, m, t.cars, t.fitness, t.stillAlive);
      if t.Failed? {
        TickFailurePersists(states, fitness, policies, track, m, i + 1, |cars|);
        return;
      }
      i := i + 1;
    }
  }

  /** The set-up loop over the genomes: one fresh car each (every fitness starts at 0). */
  method CreateCars(n: nat) returns (cars: seq<Car>)
    ensures |cars| == n
    ensures forall j :: 0 <= j < n ==> fresh(cars[j]) && cars[j].State() == Spawn
    ensures Distinct(cars)
  {
    cars := [];
    while |cars| < n
      invariant |cars| <= n
      invariant forall j :: 0 <= j < |cars| ==> fresh(cars[j]) && cars[j].State() == Spawn
      invariant Distinct(cars)
    {
      var car := new Car();
      cars := cars + [car];
    }
  }

  /** The `while True` loop of run_simulation over the car objects, from the tick whose
      counter is `counter` on. */
  method Drive(cars: seq<Car>, states: seq<CarState>, fitness: seq<real>,
               policies: seq<Policy>, track: Track, m: Math, counter: nat) returns (outcome: Outcome)
    requires |cars| == |states| == |fitness| == |policies|
    requires Mirrors(cars, states) && Distinct(cars)
    modifies cars
    ensures outcome == Episode(states, fitness, policies, track, m, counter)
  {
    var cs, fs, n := states, fitness, counter;
    ghost var goal := Episode(states, fitness, policies, track, m, counter);
    while true
      invariant |cs| == |fs| == |cars|
      invariant Mirrors(cars, cs)
      invariant n <= TickBudget + 1 || n == counter
      invariant Episode(cs, fs, policies, track, m, n) == goal
      decreases TickBudget + 1 - n
    {
      var t := RunTick(cars, cs, fs, policies, track, m);
      EpisodeUnfold(cs, fs, policies, track, m, n, t);
      if t.Failed? {
        return PolicyFailed(t.car);
      }
      if t.stillAlive == 0 || n > TickBudget {
        return Finished(t.cars, t.fitness, n);
      }
      cs, fs, n := t.cars, t.fitness, n + 1;
    }
  }

  /** run_simulation without its window: build one car per policy, then loop over ticks
      until no car was alive at the start of a tick or the counter passes the budget. */
  method RunSimulation(policies: seq<Policy>, track: Track, m: Math) returns (outcome: Outcome)
    ensures outcome == Generation(policies, track, m)
  {
    var cars := CreateCars(|policies|);
    outcome := Drive(cars, Spawns(|policies|), Zeros(|policies|), policies, track, m, 0);
  }
}
