// SCAFFOLD: the server half (optimization.rs) and the client half (trainer.py, logreg.rs), and the
// invariant of the protocol they form together.
module Scaffold {
  import opened Reals
  import opened Vectors
  import opened Wrappers
  import opened Updates

  const OPTIMIZER: string := "<scaffold server optimizer>"

  // ----- the server -----

  datatype ServerState = ServerState(x: Vec, c: Vec)

  /** A control variate the server can use: present, decodable, finite, of the model's length. */
  predicate Usable(u: ClientDelta, dim: nat) {
    u.controlVariate.Some? && AllFinite(u.controlVariate.value) && |u.controlVariate.value.values| == dim
  }

  /** What the update contributes to Σ Δc_i; an unusable variate contributes nothing. */
  function Contribution(u: ClientDelta, dim: nat): (d: Vec)
    ensures |d| == dim
  {
    if Usable(u, dim) then Plain(u.controlVariate.value) else Zero(dim)
  }

  function ContributionSum(updates: seq<ClientDelta>, dim: nat): (s: Vec)
    ensures |s| == dim
  {
    if |updates| == 0 then Zero(dim)
    else Add(ContributionSum(updates[..|updates|-1], dim), Contribution(updates[|updates|-1], dim))
  }

  /** (1/N)·Σ Δc_i */
  function VariateStep(updates: seq<ClientDelta>, n: nat, dim: nat): (s: Vec)
    requires n > 0
    ensures |s| == dim
  {
    Scale(1.0 / n as real, ContributionSum(updates, dim))
  }

  /** x + η·mean(y_i − x) */
  function NextModel(x: Vec, lr: real, vs: seq<Vec>): (next: Vec)
    requires |vs| > 0 && Rect(vs, |x|)
    ensures |next| == |x|
  {
    Add(x, Scale(lr, Comb(EqualShares(|vs|), Offsets(vs, x), |x|)))
  }

  /** The model moves the fraction η of the way to the unweighted mean of the clients' models; at the
      default rate 1 it lands on it. */
  lemma ModelMovesTowardMean(x: Vec, lr: real, vs: seq<Vec>)
    requires |vs| > 0 && Rect(vs, |x|)
    ensures NextModel(x, lr, vs) == Add(Scale(1.0 - lr, x), Scale(lr, Mean(vs, |x|)))
    ensures lr == 1.0 ==> NextModel(x, lr, vs) == Mean(vs, |x|)
  {
    CombOffsets(EqualShares(|vs|), vs, x);
    EqualSharesAreConvex(|vs|);
    var m := Mean(vs, |x|);
    hide Comb, Total, EqualShares, Mean;
    forall j | 0 <= j < |x|
      ensures x[j] + Times(lr, m[j] - Times(1.0, x[j])) == Times(1.0 - lr, x[j]) + Times(lr, m[j])
    {
      OneTimes(x[j]);
      Distribute(m[j], x[j], lr);
      Distribute(1.0, lr, x[j]);
    }
    if lr == 1.0 {
      forall j | 0 <= j < |x| ensures Times(0.0, x[j]) + Times(1.0, m[j]) == m[j] {
        OneTimes(m[j]);
      }
    }
  }

  /** One round on an acceptable batch. `overflow` and `variateOverflow` say whether narrowing the
      model or the variate to f32 lost finiteness. */
  function Round(lr: real, n: nat, state: Option<ServerState>, updates: seq<ClientDelta>,
                 overflow: Option<nat>, variateOverflow: bool): (r: (Option<ServerState>, Outcome))
    requires n > 0 && |updates| > 0 && Acceptable(updates)
    requires state.Some? ==> |state.value.c| == |state.value.x|
    ensures r.0.Some? ==> |r.0.value.c| == |r.0.value.x|
    ensures r.1.Err? ==> r.0 == state
    ensures r.1.Ok? ==> r.0.Some? && r.0.value.x == r.1.value
  {
    var vs, dim := Decoded(updates), Dim(updates);
    var step := VariateStep(updates, n, dim);
    if state.None? || |state.value.x| != dim then
      match FedAvg(updates)
      case Err(e) => (state, Err(e))
      case Ok(seed) =>
        FedAvgLength(updates);
        (Some(ServerState(seed, if variateOverflow then Zero(dim) else step)), Ok(seed))
    else if overflow.Some? then (state, Err(NonFiniteWeights(OPTIMIZER, overflow.value)))
    else
      var next := NextModel(state.value.x, lr, vs);
      var c := if variateOverflow then state.value.c else Add(state.value.c, step);
      (Some(ServerState(next, c)), Ok(next))
  }

  /** What one accepted batch answers. With a model of its dimension stored, the answer and the new model lie
      the fraction η of the way from the stored one to the unweighted mean of the clients' models; without,
      they are the clients' sample-weighted mean. */
  lemma RoundMovesTowardMean(lr: real, n: nat, state: Option<ServerState>, updates: seq<ClientDelta>,
                             overflow: Option<nat>, variateOverflow: bool)
    requires n > 0 && |updates| > 0 && Acceptable(updates)
    requires state.Some? ==> |state.value.c| == |state.value.x|
    ensures var (after, answer) := Round(lr, n, state, updates, overflow, variateOverflow);
      var dim, vs := Dim(updates), Decoded(updates);
      if state.Some? && |state.value.x| == dim then
        && (answer.Ok? <==> overflow.None?)
        && (answer.Ok? ==>
              && answer.value == Add(Scale(1.0 - lr, state.value.x), Scale(lr, Mean(vs, dim)))
              && after.Some? && after.value.x == answer.value)
      else
        && (answer.Ok? <==> Total(SampleCounts(updates)) != 0.0)
        && (answer.Ok? ==> after.Some? && after.value.x == answer.value && IsWeightedMean(updates, answer.value))
  {
    hide NextModel, Mean, Comb, Total, VariateStep;
    var dim := Dim(updates);
    if state.Some? && |state.value.x| == dim {
      ModelMovesTowardMean(state.value.x, lr, Decoded(updates));
    } else if FedAvg(updates).Ok? {
      FedAvgMeans(updates);
    }
  }

  lemma FedAvgLength(updates: seq<ClientDelta>)
    requires FedAvg(updates).Ok?
    ensures |updates| > 0 && Acceptable(updates) && |FedAvg(updates).value| == Dim(updates)
  {
  }

  class ScaffoldAggregator {
    const serverLearningRate: real
    const numClients: nat
    var state: Option<ServerState>

    ghost predicate Valid()
      reads this
    {
      numClients > 0 && (state.Some? ==> |state.value.c| == |state.value.x|)
    }

    /** `new`: the population is clamped to at least one. */
    constructor (serverLearningRate: real, numClients: nat)
      ensures Valid() && state.None?
      ensures this.serverLearningRate == serverLearningRate
      ensures this.numClients == if numClients >= 1 then numClients else 1
    {
      this.serverLearningRate := serverLearningRate;
      this.numClients := if numClients >= 1 then numClients else 1;
      state := None;
    }

    /** `variate_step`, shared by the seed round and every later one. */
    method Variates(updates: seq<ClientDelta>, dim: nat) returns (step: Vec)
      requires Valid()
      ensures step == VariateStep(updates, numClients, dim)
    {
      var damping := 1.0 / numClients as real;
      var acc := new real[dim](_ => 0.0);
      assert acc[..] == Scale(damping, Zero(dim)) by { assert Times(damping, 0.0) == 0.0; }
      for k := 0 to |updates|
        invariant acc[..] == Scale(damping, ContributionSum(updates[..k], dim))
      {
        var u := updates[k];
        assert updates[..k + 1][..k] == updates[..k];
        ScaleSum(damping, ContributionSum(updates[..k], dim), Contribution(u, dim));
        ScaleZero(damping, dim, acc[..]);
        if Usable(u, dim) {
          AccumulateWeighted(acc, Plain(u.controlVariate.value), damping);
        }
      }
      assert updates[..|updates|] == updates;
      step := acc[..];
    }

    /** `aggregate`: a rejected round leaves both the model and the variate as they were. */
    method Aggregate(updates: seq<ClientDelta>, overflow: Option<nat>, variateOverflow: bool)
        returns (r: Outcome)
      requires Valid()
      modifies this
      ensures Valid()
      ensures r.Err? ==> state == old(state)
      ensures |updates| == 0 ==> r == Err(EmptyBatch)
      ensures |updates| > 0 && !Acceptable(updates) ==> r.Err? && r.error == DecodeAndValidate(updates).error
      ensures |updates| > 0 && Acceptable(updates) ==>
        (state, r) == Round(serverLearningRate, numClients, old(state), updates, overflow, variateOverflow)
    {
      hide Comb, VariateStep, FedAvg;
      if |updates| == 0 { return Err(EmptyBatch); }
      var decoded := DecodeAndValidate(updates);
      if decoded.Err? { return Err(decoded.error); }
      var vs, dim := decoded.value, Dim(updates);
      if state.None? || |state.value.x| != dim {
        var seed := FedAvgAggregate(updates);
        if seed.Err? { return seed; }
        FedAvgLength(updates);
        var step := Variates(updates, dim);
        state := Some(ServerState(seed.value, if variateOverflow then Zero(dim) else step));
        return seed;
      }
      var x := state.value.x;
      var modelStep := WeightedSum(EqualShares(|vs|), Offsets(vs, x), dim);
      var step := Variates(updates, dim);
      var next := Add(x, Scale(serverLearningRate, modelStep));
      if overflow.Some? { return Err(NonFiniteWeights(OPTIMIZER, overflow.value)); }
      var c := state.value.c;
      if (exists j :: 0 <= j < dim && step[j] != 0.0) && !variateOverflow {
        c := Add(c, step);
      }
      assert !variateOverflow ==> c == Add(state.value.c, step);
      state := Some(ServerState(next, c));
      r := Ok(next);
    }

    /** `control_variate` */
    function ControlVariate(): (c: Option<Vec>)
      reads this
      ensures c.None? <==> state.None?
      ensures c.Some? ==> c.value == state.value.c
    {
      if state.None? then None else Some(state.value.c)
    }
  }

  lemma ScaleSum(x: real, u: Vec, v: Vec)
    requires |u| == |v|
    ensures Scale(x, Add(u, v)) == Add(Scale(x, u), Scale(x, v))
  {
    forall i | 0 <= i < |u| ensures Times(x, u[i] + v[i]) == Times(x, u[i]) + Times(x, v[i]) {
      Distribute(u[i], v[i], x);
    }
  }

  lemma ScaleZero(x: real, dim: nat, v: Vec)
    requires |v| == dim
    ensures Add(v, Scale(x, Zero(dim))) == v
  {
    assert Times(x, 0.0) == 0.0;
  }

  // ----- the client -----

  /** (x − y)/(K·lr): the direction the local steps followed. */
  function Evidence(x: Vec, y: Vec, scale: real): (e: Vec)
    requires |x| == |y|
    ensures |e| == |x|
  {
    Scale(scale, Sub(x, y))
  }

  /** 1/(K·lr) */
  function LocalScale(steps: nat, lr: real): real
    requires Times(steps as real, lr) != 0.0
  {
    1.0 / Times(steps as real, lr)
  }

  /** Δc_i = (x − y)/(K·lr) − c */
  function VariateDelta(x: Vec, y: Vec, scale: real, c: Vec): (d: Vec)
    requires |x| == |y| == |c|
    ensures |d| == |x|
  {
    Sub(Evidence(x, y, scale), c)
  }

  class ScaffoldClient {
    const lr: real
    const steps: nat
    const samples: nat
    const id: string
    var ci: Option<Vec>
    var c: Option<Vec>

    constructor (id: string, lr: real, steps: nat, samples: nat)
      requires Times(steps as real, lr) != 0.0
      ensures ci.None? && c.None? && this.lr == lr && this.steps == steps
      ensures this.samples == samples && this.id == id
    {
      this.id, this.lr, this.steps, this.samples := id, lr, steps, samples;
      ci, c := None, None;
    }

    /** `on_control_variate` */
    method OnControlVariate(received: Vec)
      modifies this`c
      ensures c == Some(received)
    {
      c := Some(received);
    }

    /** The SCAFFOLD branch of `train`. `trainSteps` stands for the K local steps from `weights`
        along the gradient corrected by (c − c_i). */
    method Train(weights: Vec, round: nat, trainSteps: (Vec, Vec) -> Vec) returns (r: ClientDelta)
      requires Times(steps as real, lr) != 0.0
      requires (ci.None? || |ci.value| == |weights|) && (c.None? || |c.value| == |weights|)
      requires forall x: Vec, d: Vec {:trigger trainSteps(x, d)} :: |trainSteps(x, d)| == |x|
      modifies this`ci
      ensures ci.Some? && |ci.value| == |weights|
      ensures r.clientId == id && r.round == round && r.numSamples == samples && r.localSteps == Some(steps)
      ensures r.controlVariate.Some? && AllFinite(r.weights) && AllFinite(r.controlVariate.value)
      ensures |Plain(r.weights)| == |Plain(r.controlVariate.value)| == |weights|
      ensures var own := if old(ci).None? then Zero(|weights|) else old(ci).value;
        var received := if c.None? then Zero(|weights|) else c.value;
        var trained, delta := Plain(r.weights), Plain(r.controlVariate.value);
        && trained == trainSteps(weights, Sub(received, own))
        && Scale(Times(steps as real, lr), Add(delta, received)) == Sub(weights, trained)
        && ci.value == Add(own, delta)
        && r == Message(id, round, trained, samples, steps,
                        VariateDelta(weights, trained, LocalScale(steps, lr), received))
    {
      var dim := |weights|;
      if ci.None? { ci := Some(Zero(dim)); }
      var cv := if c.None? then Zero(dim) else c.value;
      var trained := trainSteps(weights, Sub(cv, ci.value));
      var scale := LocalScale(steps, lr);
      var delta := VariateDelta(weights, trained, scale, cv);
      ReportIs(weights, trained, steps, lr, cv);
      ci := Some(Add(ci.value, delta));
      r := Message(id, round, trained, samples, steps, delta);
    }
  }

  function Message(id: string, round: nat, y: Vec, samples: nat, steps: nat, delta: Vec): ClientDelta {
    ClientDelta(id, round, Wire(y), samples, Some(steps), Some(Wire(delta)))
  }

  // ----- the protocol -----

  /** The server, every client's c_i, the submissions on their way, what outsiders' variates have added
      up to, and what was submitted or held but is not in c. */
  datatype World = World(server: Option<ServerState>, clients: seq<Vec>, inFlight: seq<ClientDelta>,
                         foreign: Vec, lost: Vec)

  datatype Step =
    /** Client i trains from x having last received `received`, and submits its result. */
    | Train(i: nat, id: string, round: nat, samples: nat, x: Vec, y: Vec, received: Vec, steps: nat, lr: real)
    /** Somebody submits anything at all: no variate, a malformed one, an invented one, weights of another
        dimension, or a copy of what was submitted before. */
    | Submit(u: ClientDelta)
    /** The server aggregates any selection of the submissions in flight. */
    | Aggregate(taken: seq<bool>, overflow: Option<nat>, variateOverflow: bool)

  predicate GoodWorld(w: World, dim: nat) {
    && Rect(w.clients, dim) && |w.foreign| == |w.lost| == dim
    && (w.server.Some? ==> |w.server.value.c| == |w.server.value.x|)
  }

  predicate Enabled(w: World, step: Step, dim: nat) {
    match step
    case Train(i, _, _, _, x, y, received, steps, lr) =>
      i < |w.clients| && |x| == |y| == |received| == dim && Times(steps as real, lr) != 0.0
    case Submit(_) => true
    case Aggregate(taken, _, _) => |taken| == |w.inFlight|
  }

  function Select(s: seq<ClientDelta>, mask: seq<bool>, keep: bool): (r: seq<ClientDelta>)
    requires |mask| == |s|
    ensures forall u | u in r :: u in s
  {
    if |s| == 0 then []
    else
      var rest := Select(s[..|s|-1], mask[..|s|-1], keep);
      if mask[|s|-1] == keep then rest + [s[|s|-1]] else rest
  }

  /** What became of a batch: refused, folded into c, folded into the model only because the variate left
      f32, or taken as the start of a model of another dimension. */
  datatype Fate = Refused | Absorbed | Overflowed | Resized

  function ServerTurn(lr: real, n: nat, server: Option<ServerState>, batch: seq<ClientDelta>,
                      overflow: Option<nat>, variateOverflow: bool, dim: nat): (r: (Option<ServerState>, Fate))
    requires n > 0 && (server.Some? ==> |server.value.c| == |server.value.x|)
  {
    if |batch| == 0 || !Acceptable(batch) then (server, Refused)
    else
      var (after, outcome) := Round(lr, n, server, batch, overflow, variateOverflow);
      (after,
       if outcome.Err? then Refused
       else if Dim(batch) != dim then Resized
       else if variateOverflow then Overflowed
       else Absorbed)
  }

  /** The server's c, as far as it is of the clients' dimension. */
  function ServerVariate(server: Option<ServerState>, dim: nat): (c: Vec)
    ensures |c| == dim
  {
    if server.Some? && |server.value.c| == dim then server.value.c else Zero(dim)
  }

  /** The batch is gone whatever its fate; what c did not absorb is lost, and on a change of dimension so
      is N·c itself. */
  function Dropped(n: nat, c: Vec, sum: Vec, fate: Fate): (d: Vec)
    requires |c| == |sum|
    ensures |d| == |c|
  {
    match fate
    case Absorbed => Zero(|c|)
    case Refused => sum
    case Overflowed => sum
    case Resized => Add(Scale(n as real, c), sum)
  }

  function Next(w: World, step: Step, lr: real, n: nat, dim: nat): World
    requires n > 0 && GoodWorld(w, dim) && Enabled(w, step, dim)
  {
    match step
    case Train(i, id, round, samples, x, y, received, steps, rate) =>
      var delta := VariateDelta(x, y, LocalScale(steps, rate), received);
      w.(clients := w.clients[i := Add(w.clients[i], delta)],
         inFlight := w.inFlight + [Message(id, round, y, samples, steps, delta)])
    case Submit(u) =>
      w.(inFlight := w.inFlight + [u], foreign := Add(w.foreign, Contribution(u, dim)))
    case Aggregate(taken, overflow, variateOverflow) =>
      var batch := Select(w.inFlight, taken, true);
      var (server, fate) := ServerTurn(lr, n, w.server, batch, overflow, variateOverflow, dim);
      World(server, w.clients, Select(w.inFlight, taken, false), w.foreign,
            Add(w.lost, Dropped(n, ServerVariate(w.server, dim), ContributionSum(batch, dim), fate)))
  }

  function VecSum(vs: seq<Vec>, dim: nat): (s: Vec)
    requires Rect(vs, dim)
    ensures |s| == dim
  {
    if |vs| == 0 then Zero(dim) else Add(VecSum(vs[..|vs|-1], dim), vs[|vs|-1])
  }

  /** Σ c_i + what outsiders added = N·c + Σ in flight + lost. */
  ghost predicate Conserved(w: World, n: nat, dim: nat)
    requires GoodWorld(w, dim)
  {
    Add(VecSum(w.clients, dim), w.foreign)
      == Add(Add(Scale(n as real, ServerVariate(w.server, dim)), ContributionSum(w.inFlight, dim)), w.lost)
  }

  lemma {:induction false} UpdateSum(vs: seq<Vec>, dim: nat, i: nat, d: Vec)
    requires Rect(vs, dim) && i < |vs| && |d| == dim
    ensures VecSum(vs[i := Add(vs[i], d)], dim) == Add(VecSum(vs, dim), d)
  {
    var k := |vs| - 1;
    if i < k {
      UpdateSum(vs[..k], dim, i, d);
      assert vs[i := Add(vs[i], d)][..k] == vs[..k][i := Add(vs[i], d)];
    } else {
      assert vs[i := Add(vs[i], d)][..k] == vs[..k];
    }
  }

  lemma {:induction false} SelectSplits(s: seq<ClientDelta>, mask: seq<bool>, dim: nat)
    requires |mask| == |s|
    ensures ContributionSum(s, dim)
      == Add(ContributionSum(Select(s, mask, true), dim), ContributionSum(Select(s, mask, false), dim))
  {
    if |s| > 0 {
      var k := |s| - 1;
      hide Contribution, Add;
      SelectSplits(s[..k], mask[..k], dim);
      ContributionSnoc(Select(s[..k], mask[..k], mask[k]), s[k], dim);
      AddShuffle(ContributionSum(Select(s[..k], mask[..k], true), dim),
        ContributionSum(Select(s[..k], mask[..k], false), dim), Contribution(s[k], dim));
    }
  }

  lemma AddShuffle(a: Vec, b: Vec, d: Vec)
    requires |a| == |b| == |d|
    ensures Add(Add(a, b), d) == Add(Add(a, d), b) == Add(a, Add(b, d))
  {
  }

  lemma ContributionSnoc(s: seq<ClientDelta>, u: ClientDelta, dim: nat)
    ensures ContributionSum(s + [u], dim) == Add(ContributionSum(s, dim), Contribution(u, dim))
  {
    assert (s + [u])[..|s|] == s;
  }

  /** An absorbed batch raises N·c by exactly its variates, the seed round included; whatever becomes of
      a batch, what it held and what N·c was are in the new N·c or lost. */
  lemma TurnAbsorbs(lr: real, n: nat, server: Option<ServerState>, batch: seq<ClientDelta>,
                    overflow: Option<nat>, variateOverflow: bool, dim: nat)
    requires n > 0 && (server.Some? ==> |server.value.x| == |server.value.c|)
    ensures var (after, fate) := ServerTurn(lr, n, server, batch, overflow, variateOverflow, dim);
      var c, sum := ServerVariate(server, dim), ContributionSum(batch, dim);
      && (after.Some? ==> |after.value.x| == |after.value.c|)
      && Scale(n as real, ServerVariate(after, dim))
         == (match fate
             case Absorbed => Add(Scale(n as real, c), sum)
             case Resized => Zero(dim)
             case _ => Scale(n as real, c))
      && Add(Scale(n as real, ServerVariate(after, dim)), Dropped(n, c, sum, fate)) == Add(Scale(n as real, c), sum)
  {
    TurnVariate(lr, n, server, batch, overflow, variateOverflow, dim);
    var c, s := ServerVariate(server, dim), ContributionSum(batch, dim);
    hide ServerTurn, ServerVariate, ContributionSum, Scale;
    ZeroSum(n, s);
    Undamp(n, c, s);
    Kept(Scale(n as real, c), s);
  }

  /** What a batch does to the server's c. */
  lemma TurnVariate(lr: real, n: nat, server: Option<ServerState>, batch: seq<ClientDelta>,
                    overflow: Option<nat>, variateOverflow: bool, dim: nat)
    requires n > 0 && (server.Some? ==> |server.value.x| == |server.value.c|)
    ensures var (after, fate) := ServerTurn(lr, n, server, batch, overflow, variateOverflow, dim);
      var c := ServerVariate(server, dim);
      && (after.Some? ==> |after.value.x| == |after.value.c|)
      && ServerVariate(after, dim)
         == (match fate
             case Absorbed => Add(c, VariateStep(batch, n, dim))
             case Resized => Zero(dim)
             case _ => c)
  {
    hide VariateStep, FedAvg, NextModel, Acceptable;
    if |batch| > 0 && Acceptable(batch) {
      FedAvgDim(batch);
      NothingAdded(VariateStep(batch, n, dim));
    }
  }

  lemma NothingAdded(s: Vec)
    ensures Add(Zero(|s|), s) == s
  {
  }

  lemma Kept(a: Vec, s: Vec)
    requires |a| == |s|
    ensures Add(Add(a, s), Zero(|a|)) == Add(a, s) && Add(Zero(|a|), Add(a, s)) == Add(a, s)
  {
  }

  lemma FedAvgDim(batch: seq<ClientDelta>)
    ensures FedAvg(batch).Ok? ==> |batch| > 0 && Acceptable(batch) && |FedAvg(batch).value| == Dim(batch)
  {
  }

  /** N·(c + s/N) = N·c + s */
  lemma Undamp(n: nat, c: Vec, s: Vec)
    requires n > 0 && |c| == |s|
    ensures Scale(n as real, Add(c, Scale(1.0 / n as real, s))) == Add(Scale(n as real, c), s)
  {
    var x, y := n as real, 1.0 / n as real;
    Divide(1.0, x);
    forall i | 0 <= i < |c| ensures Times(x, c[i] + Times(y, s[i])) == Times(x, c[i]) + s[i] {
      Distribute(c[i], Times(y, s[i]), x);
      Associate(x, y, s[i]);
      OneTimes(s[i]);
    }
  }

  lemma ZeroSum(n: nat, s: Vec)
    requires n > 0
    ensures Scale(n as real, Scale(1.0 / n as real, s)) == Add(Scale(n as real, Zero(|s|)), s)
    ensures Scale(n as real, Zero(|s|)) == Zero(|s|)
  {
    Undamp(n, Zero(|s|), s);
    assert Add(Zero(|s|), Scale(1.0 / n as real, s)) == Scale(1.0 / n as real, s);
    assert Times(n as real, 0.0) == 0.0;
  }

  /** Every step keeps the books balanced, whatever is trained, delivered, reordered or rejected. */
  lemma StepConserves(w: World, step: Step, lr: real, n: nat, dim: nat)
    requires n > 0 && GoodWorld(w, dim) && Enabled(w, step, dim) && Conserved(w, n, dim)
    ensures GoodWorld(Next(w, step, lr, n, dim), dim) && Conserved(Next(w, step, lr, n, dim), n, dim)
  {
    match step
    case Train(_, _, _, _, _, _, _, _, _) =>
      TrainConserves(w, step, lr, n, dim);
    case Submit(_) =>
      SubmitConserves(w, step, lr, n, dim);
    case Aggregate(taken, overflow, variateOverflow) =>
      TurnAbsorbs(lr, n, w.server, Select(w.inFlight, taken, true), overflow, variateOverflow, dim);
      SelectSplits(w.inFlight, taken, dim);
      hide ContributionSum, ServerTurn, VecSum, Scale, ServerVariate, Dropped;
      Balance(Scale(n as real, ServerVariate(w.server, dim)),
        ContributionSum(Select(w.inFlight, taken, true), dim),
        ContributionSum(Select(w.inFlight, taken, false), dim), w.lost,
        Scale(n as real, ServerVariate(Next(w, step, lr, n, dim).server, dim)),
        Dropped(n, ServerVariate(w.server, dim), ContributionSum(Select(w.inFlight, taken, true), dim),
          ServerTurn(lr, n, w.server, Select(w.inFlight, taken, true), overflow, variateOverflow, dim).1));
  }

  /** Moving f out of flight: what of a + f is not in a' is in d. */
  lemma Balance(a: Vec, f: Vec, g: Vec, l: Vec, a': Vec, d: Vec)
    requires |a| == |f| == |g| == |l| == |a'| == |d| && Add(a', d) == Add(a, f)
    ensures Add(Add(a', g), Add(l, d)) == Add(Add(a, Add(f, g)), l)
  {
    forall k | 0 <= k < |a| ensures a'[k] + g[k] + (l[k] + d[k]) == a[k] + (f[k] + g[k]) + l[k] {
      assert Add(a', d)[k] == Add(a, f)[k];
    }
  }

  lemma SubmitConserves(w: World, step: Step, lr: real, n: nat, dim: nat)
    requires n > 0 && GoodWorld(w, dim) && Conserved(w, n, dim) && step.Submit?
    ensures GoodWorld(Next(w, step, lr, n, dim), dim) && Conserved(Next(w, step, lr, n, dim), n, dim)
  {
    hide VecSum, ContributionSum, ServerVariate, Scale, Add, Contribution;
    var a, f := Scale(n as real, ServerVariate(w.server, dim)), ContributionSum(w.inFlight, dim);
    var d := Contribution(step.u, dim);
    ContributionSnoc(w.inFlight, step.u, dim);
    AddShuffle(VecSum(w.clients, dim), w.foreign, d);
    AddShuffle(Add(a, f), w.lost, d);
    AddShuffle(a, f, d);
  }

  lemma TrainConserves(w: World, step: Step, lr: real, n: nat, dim: nat)
    requires n > 0 && GoodWorld(w, dim) && Enabled(w, step, dim) && Conserved(w, n, dim) && step.Train?
    ensures GoodWorld(Next(w, step, lr, n, dim), dim) && Conserved(Next(w, step, lr, n, dim), n, dim)
  {
    hide VariateDelta, VecSum, ContributionSum, ServerVariate, Scale, Add, Times, LocalScale;
    match step
    case Train(i, id, round, samples, x, y, received, steps, rate) =>
      var delta := VariateDelta(x, y, LocalScale(steps, rate), received);
      var m := Message(id, round, y, samples, steps, delta);
      UpdateSum(w.clients, dim, i, delta);
      ContributionSnoc(w.inFlight, m, dim);
      assert Contribution(m, dim) == delta;
      var a, f := Scale(n as real, ServerVariate(w.server, dim)), ContributionSum(w.inFlight, dim);
      AddShuffle(VecSum(w.clients, dim), w.foreign, delta);
      AddShuffle(Add(a, f), w.lost, delta);
      AddShuffle(a, f, delta);
      var next := Next(w, step, lr, n, dim);
      assert next.inFlight == w.inFlight + [m];
      assert next.clients == w.clients[i := Add(w.clients[i], delta)];
  }

  function Initial(population: nat, dim: nat): World {
    World(None, seq(population, _ => Zero(dim)), [], Zero(dim), Zero(dim))
  }

  /** The world after a sequence of steps, or `None` if some step was not possible in its turn. */
  function After(population: nat, steps: seq<Step>, lr: real, n: nat, dim: nat): Option<World>
    requires n > 0
  {
    if |steps| == 0 then Some(Initial(population, dim))
    else
      var before := After(population, steps[..|steps|-1], lr, n, dim);
      if before.Some? && GoodWorld(before.value, dim) && Enabled(before.value, steps[|steps|-1], dim)
      then Some(Next(before.value, steps[|steps|-1], lr, n, dim))
      else None
  }

  lemma {:induction false} ZeroClients(population: nat, dim: nat)
    ensures Rect(seq(population, _ => Zero(dim)), dim)
    ensures VecSum(seq(population, _ => Zero(dim)), dim) == Zero(dim)
  {
    if population > 0 {
      ZeroClients(population - 1, dim);
      assert seq(population, _ => Zero(dim))[..population - 1] == seq(population - 1, _ => Zero(dim));
    }
  }

  /** The protocol invariant over every run, whatever is submitted beside the clients' own results:
      Σ c_i + foreign = N·c + Σ in flight + lost. */
  lemma {:induction false} RunConserves(population: nat, steps: seq<Step>, lr: real, n: nat, dim: nat)
    requires n > 0
    ensures var w := After(population, steps, lr, n, dim);
      w.Some? ==> GoodWorld(w.value, dim) && Conserved(w.value, n, dim)
  {
    if |steps| == 0 {
      ZeroClients(population, dim);
      assert Times(n as real, 0.0) == 0.0;
    } else {
      var k := |steps| - 1;
      RunConserves(population, steps[..k], lr, n, dim);
      hide Conserved, Next, Enabled, GoodWorld;
      var before := After(population, steps[..k], lr, n, dim);
      if before.Some? && GoodWorld(before.value, dim) && Enabled(before.value, steps[k], dim) {
        StepConserves(before.value, steps[k], lr, n, dim);
      }
    }
  }

  /** In every reachable state N·c = Σ c_i exactly when the variates in flight and lost add up to what
      outsiders submitted; with nothing in flight or lost, N·c exceeds Σ c_i by exactly that. */
  lemma VariatesAgreeIff(population: nat, steps: seq<Step>, lr: real, n: nat, dim: nat)
    requires n > 0 && After(population, steps, lr, n, dim).Some?
    ensures var w := After(population, steps, lr, n, dim).value;
      && GoodWorld(w, dim)
      && (Scale(n as real, ServerVariate(w.server, dim)) == VecSum(w.clients, dim)
          <==> Add(ContributionSum(w.inFlight, dim), w.lost) == w.foreign)
      && (w.inFlight == [] && w.lost == Zero(dim)
          ==> Scale(n as real, ServerVariate(w.server, dim)) == Add(VecSum(w.clients, dim), w.foreign))
  {
    RunConserves(population, steps, lr, n, dim);
    NothingOutstanding(dim);
    hide After, Scale, Add, VecSum, ContributionSum, ServerVariate, Zero;
    var w := After(population, steps, lr, n, dim).value;
    var a := Scale(n as real, ServerVariate(w.server, dim));
    BalancedIff(a, ContributionSum(w.inFlight, dim), w.lost, VecSum(w.clients, dim), w.foreign);
  }

  /** What the server hands out is the mean of its n clients' own variates exactly when the variates in
      flight and lost add up to what outsiders submitted; and exactly then the corrections (c − c_i) they
      train along cancel out. */
  lemma HandedOutIsMean(population: nat, steps: seq<Step>, lr: real, dim: nat)
    requires population > 0 && After(population, steps, lr, population, dim).Some?
    requires var server := After(population, steps, lr, population, dim).value.server;
      server.Some? && |server.value.c| == dim
    ensures var w := After(population, steps, lr, population, dim).value;
      && GoodWorld(w, dim) && |w.clients| == population
      && var c := w.server.value.c;
         && (c == Scale(1.0 / population as real, VecSum(w.clients, dim))
             <==> Add(ContributionSum(w.inFlight, dim), w.lost) == w.foreign)
         && (VecSum(Corrections(w.clients, c), dim) == Zero(dim)
             <==> Add(ContributionSum(w.inFlight, dim), w.lost) == w.foreign)
  {
    VariatesAgreeIff(population, steps, lr, population, dim);
    ClientsStay(population, steps, lr, population, dim);
    hide After, VecSum, ContributionSum, Scale, Corrections, Add, Zero;
    var w := After(population, steps, lr, population, dim).value;
    var c, s := w.server.value.c, VecSum(w.clients, dim);
    CorrectionsSum(w.clients, c, dim);
    DampedIff(population, c, s);
    ApartIff(Scale(population as real, c), s);
  }

  /** The correction each client would train along, had it received c. */
  function Corrections(clients: seq<Vec>, c: Vec): (ds: seq<Vec>)
    requires Rect(clients, |c|)
    ensures |ds| == |clients| && Rect(ds, |c|)
  {
    seq(|clients|, i requires 0 <= i < |clients| => Sub(c, clients[i]))
  }

  lemma {:induction false} CorrectionsSum(clients: seq<Vec>, c: Vec, dim: nat)
    requires |c| == dim && Rect(clients, dim)
    ensures VecSum(Corrections(clients, c), dim) == Sub(Scale(|clients| as real, c), VecSum(clients, dim))
  {
    if |clients| == 0 {
      assert forall i | 0 <= i < |c| :: Times(0.0, c[i]) == 0.0;
    } else {
      var k := |clients| - 1;
      CorrectionsSum(clients[..k], c, dim);
      assert Corrections(clients, c)[..k] == Corrections(clients[..k], c);
      CountedScale(k, c);
      hide Times, Scale;
      assert VecSum(Corrections(clients, c), dim)
        == Add(Sub(Scale(k as real, c), VecSum(clients[..k], dim)), Sub(c, clients[k]));
      SubAdd(Scale(k as real, c), VecSum(clients[..k], dim), c, clients[k]);
    }
  }

  lemma DampedIff(n: nat, c: Vec, s: Vec)
    requires n > 0 && |c| == |s|
    ensures c == Scale(1.0 / n as real, s) <==> Scale(n as real, c) == s
  {
    var x, y := n as real, 1.0 / n as real;
    Divide(1.0, x);
    Commute(x, y);
    forall i | 0 <= i < |c|
      ensures Times(x, Times(y, s[i])) == s[i] && Times(y, Times(x, c[i])) == c[i]
    {
      Associate(x, y, s[i]);
      Associate(y, x, c[i]);
      OneTimes(s[i]);
      OneTimes(c[i]);
    }
    if Scale(x, c) == s {
      assert forall i | 0 <= i < |c| :: s[i] == Times(x, c[i]);
    }
  }

  lemma ApartIff(a: Vec, b: Vec)
    requires |a| == |b|
    ensures Sub(a, b) == Zero(|a|) <==> a == b
  {
    if Sub(a, b) == Zero(|a|) {
      forall i | 0 <= i < |a| ensures a[i] == b[i] {
        assert Sub(a, b)[i] == 0.0;
      }
    }
  }

  lemma {:induction false} ClientsStay(population: nat, steps: seq<Step>, lr: real, n: nat, dim: nat)
    requires n > 0 && After(population, steps, lr, n, dim).Some?
    ensures |After(population, steps, lr, n, dim).value.clients| == population
  {
    hide GoodWorld, ServerTurn, Select, ContributionSum, VariateDelta;
    if |steps| > 0 { ClientsStay(population, steps[..|steps|-1], lr, n, dim); }
  }

  lemma NothingOutstanding(dim: nat)
    ensures Add(ContributionSum([], dim), Zero(dim)) == Zero(dim)
  {
  }

  lemma BalancedIff(a: Vec, f: Vec, l: Vec, s: Vec, x: Vec)
    requires |a| == |f| == |l| == |s| == |x| && Add(s, x) == Add(Add(a, f), l)
    ensures a == s <==> Add(f, l) == x
    ensures Add(f, l) == Zero(|a|) ==> a == Add(s, x)
  {
    forall i | 0 <= i < |a|
      ensures s[i] + x[i] == a[i] + f[i] + l[i] && Add(f, l)[i] == f[i] + l[i]
    {
      assert Add(s, x)[i] == Add(Add(a, f), l)[i];
    }
  }

  // ----- full participation -----

  /** A submission as the client half writes it, for a model of dimension dim. */
  predicate Sane(u: ClientDelta, dim: nat) {
    Usable(u, dim) && AllFinite(u.weights) && |u.weights.values| == dim
  }

  /** Every update is some client's result of a round that started from x and c. */
  predicate FullRound(updates: seq<ClientDelta>, x: Vec, c: Vec, scale: real) {
    |c| == |x| && forall k | 0 <= k < |updates| ::
      && Sane(updates[k], |x|)
      && Plain(updates[k].controlVariate.value) == VariateDelta(x, Plain(updates[k].weights), scale, c)
  }

  function Evidences(updates: seq<ClientDelta>, x: Vec, scale: real): (es: seq<Vec>)
    requires forall k | 0 <= k < |updates| :: AllFinite(updates[k].weights) && |updates[k].weights.values| == |x|
    ensures |es| == |updates| && Rect(es, |x|)
  {
    seq(|updates|, k requires 0 <= k < |updates| => Evidence(x, Plain(updates[k].weights), scale))
  }

  lemma {:induction false} FullRoundSum(updates: seq<ClientDelta>, x: Vec, c: Vec, scale: real)
    requires FullRound(updates, x, c, scale)
    ensures ContributionSum(updates, |x|)
      == Sub(VecSum(Evidences(updates, x, scale), |x|), Scale(|updates| as real, c))
  {
    if |updates| == 0 {
      assert forall i | 0 <= i < |c| :: Times(0.0, c[i]) == 0.0;
    } else {
      var k := |updates| - 1;
      FullRoundSum(updates[..k], x, c, scale);
      assert Evidences(updates, x, scale)[..k] == Evidences(updates[..k], x, scale);
      CountedScale(k, c);
      hide Times, Evidence, ContributionSum, Scale;
      var e := Evidence(x, Plain(updates[k].weights), scale);
      assert Contribution(updates[k], |x|) == Sub(e, c);
      assert ContributionSum(updates, |x|) == Add(ContributionSum(updates[..k], |x|), Sub(e, c)) by {
        ContributionLast(updates, |x|);
      }
      assert VecSum(Evidences(updates, x, scale), |x|) == Add(VecSum(Evidences(updates[..k], x, scale), |x|), e);
      SubAdd(VecSum(Evidences(updates[..k], x, scale), |x|), Scale(k as real, c), e, c);
    }
  }

  lemma ContributionLast(updates: seq<ClientDelta>, dim: nat)
    requires |updates| > 0
    ensures ContributionSum(updates, dim)
      == Add(ContributionSum(updates[..|updates|-1], dim), Contribution(updates[|updates|-1], dim))
  {
  }

  lemma SubAdd(a: Vec, b: Vec, e: Vec, c: Vec)
    requires |a| == |b| == |c| == |e|
    ensures Add(Sub(a, b), Sub(e, c)) == Sub(Add(a, e), Add(b, c))
  {
  }

  lemma CountedScale(k: nat, c: Vec)
    ensures Scale((k + 1) as real, c) == Add(Scale(k as real, c), c)
  {
    forall i | 0 <= i < |c| ensures Times((k + 1) as real, c[i]) == Times(k as real, c[i]) + c[i] {
      Distribute(k as real, 1.0, c[i]);
      OneTimes(c[i]);
    }
  }

  /** c + (e − N·c)/N = e/N */
  lemma Rebase(n: nat, c: Vec, e: Vec)
    requires n > 0 && |c| == |e|
    ensures Add(c, Scale(1.0 / n as real, Sub(e, Scale(n as real, c)))) == Scale(1.0 / n as real, e)
  {
    var y := 1.0 / n as real;
    Divide(1.0, n as real);
    forall i | 0 <= i < |c| ensures c[i] + Times(y, e[i] - Times(n as real, c[i])) == Times(y, e[i]) {
      Distribute(e[i], Times(n as real, c[i]), y);
      Associate(y, n as real, c[i]);
      OneTimes(c[i]);
    }
  }

  /** After a round in which all N clients took part with the server's current c, the new c is the
      mean of their (x − y_i)/(K·lr), whether the round was the seed round or a later one. */
  lemma FullParticipation(lr: real, n: nat, state: Option<ServerState>, updates: seq<ClientDelta>, x: Vec, scale: real)
    requires n > 0 && |updates| == n && Acceptable(updates) && Dim(updates) == |x|
    requires state.Some? ==> |state.value.x| == |state.value.c| == |x|
    requires FullRound(updates, x, ServerVariate(state, |x|), scale)
    requires Round(lr, n, state, updates, None, false).1.Ok?
    ensures var after := Round(lr, n, state, updates, None, false).0;
      after.Some? && after.value.c == Scale(1.0 / n as real, VecSum(Evidences(updates, x, scale), |x|))
  {
    RoundVariate(lr, n, state, updates, |x|);
    FullRoundSum(updates, x, ServerVariate(state, |x|), scale);
    hide Round, Evidences, ContributionSum, VecSum, FullRound, Scale, Add, Sub;
    Rebase(n, ServerVariate(state, |x|), VecSum(Evidences(updates, x, scale), |x|));
  }

  /** In the clients' own terms: c is (x − mean(y_i))/(K·lr), for clients who took K steps at rate lr. */
  lemma FullParticipationIs(lr: real, n: nat, state: Option<ServerState>, updates: seq<ClientDelta>, x: Vec,
                            steps: nat, rate: real)
    requires n > 0 && |updates| == n && Acceptable(updates) && Dim(updates) == |x|
    requires state.Some? ==> |state.value.x| == |state.value.c| == |x|
    requires Times(steps as real, rate) != 0.0
    requires FullRound(updates, x, ServerVariate(state, |x|), LocalScale(steps, rate))
    requires Round(lr, n, state, updates, None, false).1.Ok?
    ensures var after := Round(lr, n, state, updates, None, false).0;
      after.Some? && |after.value.c| == |x|
      && Scale(Times(steps as real, rate), after.value.c) == Sub(x, Mean(Decoded(updates), |x|))
  {
    hide Round, FullRound, VecSum, Mean, Evidences, Times, ServerVariate, Scale, Sub;
    var scale := LocalScale(steps, rate);
    FullParticipation(lr, n, state, updates, x, scale);
    Divide(1.0, Times(steps as real, rate));
    SameUpdates(updates, x, ServerVariate(state, |x|), scale);
    var mean, sum := Mean(Decoded(updates), |x|), VecSum(Evidences(updates, x, scale), |x|);
    forall j | 0 <= j < |x| ensures sum[j] == Times(scale, Times(n as real, x[j]) - Times(n as real, mean[j])) {
      EvidenceAt(updates, x, scale, j);
      MeanIsAverage(Decoded(updates), |x|, j);
    }
    MeanOfEvidences(n, Times(steps as real, rate), scale, x, mean, sum);
  }

  lemma SameUpdates(updates: seq<ClientDelta>, x: Vec, c: Vec, scale: real)
    requires FullRound(updates, x, c, scale)
    ensures forall k | 0 <= k < |updates| :: AllFinite(updates[k].weights) && |updates[k].weights.values| == |x|
  {
  }

  /** With n evidences that sum to scale·n·(x − mean), their mean times K·lr is x − mean. */
  lemma MeanOfEvidences(n: nat, k: real, scale: real, x: Vec, mean: Vec, sum: Vec)
    requires n > 0 && Times(k, scale) == 1.0 && |x| == |mean| == |sum|
    requires forall j | 0 <= j < |x| :: sum[j] == Times(scale, Times(n as real, x[j]) - Times(n as real, mean[j]))
    ensures Scale(k, Scale(1.0 / n as real, sum)) == Sub(x, mean)
  {
    hide Times;
    forall j | 0 <= j < |x| ensures Times(k, Times(1.0 / n as real, sum[j])) == x[j] - mean[j] {
      EvidenceMean(n, k, scale, x[j], mean[j], sum[j]);
    }
  }

  lemma EvidenceMean(n: nat, k: real, scale: real, x: real, mean: real, sum: real)
    requires n > 0 && Times(k, scale) == 1.0
    requires sum == Times(scale, Times(n as real, x) - Times(n as real, mean))
    ensures Times(k, Times(1.0 / n as real, sum)) == x - mean
  {
    var m, y := n as real, 1.0 / n as real;
    Divide(1.0, m);
    hide Times;
    var d := x - mean;
    Distribute(x, mean, m);
    assert sum == Times(scale, Times(m, d));
    Associate(y, scale, Times(m, d));
    Commute(y, scale);
    Associate(scale, y, Times(m, d));
    Associate(y, m, d);
    OneTimes(d);
    Associate(k, scale, d);
  }

  lemma EvidenceAt(updates: seq<ClientDelta>, x: Vec, scale: real, j: nat)
    requires |updates| > 0 && Acceptable(updates) && j < |x| && Dim(updates) == |x|
    ensures VecSum(Evidences(updates, x, scale), |x|)[j]
      == Times(scale, Times(|updates| as real, x[j]) - Total(Coordinate(Decoded(updates), |x|, j)))
  {
    hide VecSum, Times, Total, Evidences, Decoded, Coordinate;
    var e, v := EvidenceEntries(updates, x, scale, j);
    VecSumAt(Evidences(updates, x, scale), |x|, j);
    TotalOfOffsets(e, v, x[j], scale);
  }

  lemma EvidenceEntries(updates: seq<ClientDelta>, x: Vec, scale: real, j: nat) returns (e: Vec, v: Vec)
    requires |updates| > 0 && Acceptable(updates) && j < |x| && Dim(updates) == |x|
    ensures e == Coordinate(Evidences(updates, x, scale), |x|, j) && v == Coordinate(Decoded(updates), |x|, j)
    ensures |e| == |v| == |updates| && forall k | 0 <= k < |v| :: e[k] == Times(scale, x[j] - v[k])
  {
    hide Times;
    e, v := Coordinate(Evidences(updates, x, scale), |x|, j), Coordinate(Decoded(updates), |x|, j);
  }

  lemma {:induction false} VecSumAt(vs: seq<Vec>, dim: nat, j: nat)
    requires Rect(vs, dim) && j < dim
    ensures VecSum(vs, dim)[j] == Total(Coordinate(vs, dim, j))
  {
    if |vs| > 0 {
      var k := |vs| - 1;
      VecSumAt(vs[..k], dim, j);
      assert Coordinate(vs, dim, j)[..k] == Coordinate(vs[..k], dim, j);
    }
  }

  lemma {:induction false} TotalOfOffsets(e: Vec, v: Vec, x: real, scale: real)
    requires |e| == |v| && forall k | 0 <= k < |v| :: e[k] == Times(scale, x - v[k])
    ensures Total(e) == Times(scale, Times(|v| as real, x) - Total(v))
  {
    if |v| == 0 {
      ZeroTimes(x);
      ZeroTimes(scale);
    } else {
      var k := |v| - 1;
      TotalOfOffsets(e[..k], v[..k], x, scale);
      EvidenceStep(k, scale, x, v[k], Total(v[..k]));
    }
  }

  lemma EvidenceStep(k: nat, scale: real, x: real, y: real, total: real)
    ensures Times(scale, Times(k as real, x) - total) + Times(scale, x - y)
      == Times(scale, Times((k + 1) as real, x) - (total + y))
  {
    Distribute(Times(k as real, x) - total, x - y, scale);
    Distribute(k as real, 1.0, x);
    OneTimes(x);
  }

  /** What a client reports: K·lr times its evidence, the report plus the c it received, is how far it moved. */
  lemma ReportIs(x: Vec, y: Vec, steps: nat, rate: real, c: Vec)
    requires |x| == |y| == |c| && Times(steps as real, rate) != 0.0
    ensures Scale(Times(steps as real, rate), Add(VariateDelta(x, y, LocalScale(steps, rate), c), c)) == Sub(x, y)
  {
    var k := Times(steps as real, rate);
    Divide(1.0, k);
    forall j | 0 <= j < |x| ensures Times(k, Times(1.0 / k, x[j] - y[j]) - c[j] + c[j]) == x[j] - y[j] {
      Associate(k, 1.0 / k, x[j] - y[j]);
      OneTimes(x[j] - y[j]);
    }
  }

  /** An accepted round without loss advances c by exactly the batch's damped variates. */
  lemma RoundVariate(lr: real, n: nat, state: Option<ServerState>, updates: seq<ClientDelta>, dim: nat)
    requires n > 0 && |updates| > 0 && Acceptable(updates) && Dim(updates) == dim
    requires state.Some? ==> |state.value.x| == |state.value.c| == dim
    requires Round(lr, n, state, updates, None, false).1.Ok?
    ensures var after := Round(lr, n, state, updates, None, false).0;
      after.Some? && after.value.c == Add(ServerVariate(state, dim), VariateStep(updates, n, dim))
  {
    hide VariateStep, FedAvg, NextModel;
    var step := VariateStep(updates, n, dim);
    assert Add(Zero(dim), step) == step;
  }
}
