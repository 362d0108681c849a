/** The two-set-point draft-temperature controller, over exact reals. */
module AdaptiveDtemp {
  import opened Wrappers

  const TRANSITION_LOG_CAP: nat := 32

  datatype Config = Config(boostTemperature: real, raiseAt: real, dropAt: real, floorAt: real, alpha: real,
                           seedRounds: int, dwellRounds: int)

  datatype ConfigError =
    BoostNotPositive | AlphaOutOfRange | ThresholdsNotOrdered | FloorAboveRaise | SeedBelowOne | DwellNegative

  /** `validation_error`, checks in order. */
  function ValidationError(c: Config): (e: Option<ConfigError>)
    ensures e.None? <==> && c.boostTemperature > 0.0 && 0.0 < c.alpha <= 1.0 && 0.0 < c.dropAt < c.raiseAt < 1.0
                         && 0.0 <= c.floorAt < c.raiseAt && c.seedRounds >= 1 && c.dwellRounds >= 0
  {
    if !(c.boostTemperature > 0.0) then Some(BoostNotPositive)
    else if !(0.0 < c.alpha <= 1.0) then Some(AlphaOutOfRange)
    else if !(0.0 < c.dropAt < c.raiseAt < 1.0) then Some(ThresholdsNotOrdered)
    else if !(0.0 <= c.floorAt < c.raiseAt) then Some(FloorAboveRaise)
    else if c.seedRounds < 1 then Some(SeedBelowOne)
    else if c.dwellRounds < 0 then Some(DwellNegative)
    else None
  }

  datatype Mode = Seed | Default | Boost

  /** The controller's fields. `since` counts observed rounds since the last transition. */
  datatype State = State(mode: Mode, temperature: real, ema: Option<real>, observed: nat, boostRounds: nat,
                         transitions: nat,
                         log: seq<(nat, real)>, armed: bool, seedSum: real, since: int)

  function Start(base: real): State {
    State(Seed, base, None, 0, 0, 0, [], true, 0.0, 0)
  }

  function Clamp(x: real): (r: real)
    ensures 0.0 <= r <= 1.0 && (0.0 <= x <= 1.0 ==> r == x)
  {
    if x < 0.0 then 0.0 else if x > 1.0 then 1.0 else x
  }

  /** One step of the exponential moving average. */
  function Blend(a: real, e: real, x: real): real {
    Part(1.0 - a, e) + Part(a, x)
  }

  function Part(k: real, v: real): real {
    k * v
  }

  function Mean(sum: real, n: nat): real
    requires n > 0
  {
    sum / n as real
  }

  function Moved(s: State, mode: Mode, temperature: real): State {
    s.(mode := mode, temperature := temperature, transitions := s.transitions + 1, since := 0,
       armed := if mode == Default then false else s.armed,
       log := if |s.log| < TRANSITION_LOG_CAP then s.log + [(s.observed, temperature)] else s.log)
  }

  function Decided(c: Config, base: real, s: State): State
    requires s.ema.Some?
  {
    if s.since < c.dwellRounds then s
    else if s.mode == Default && s.armed && c.floorAt <= s.ema.value <= c.raiseAt then
      Moved(s, Boost, c.boostTemperature)
    else if s.mode == Boost && s.ema.value < c.dropAt then Moved(s, Default, base)
    else s
  }

  /** One observed round up to the decision: the counters, and the seed sum or the average. */
  function Averaged(c: Config, s: State, x: real): State {
    var x := Clamp(x);
    var s := s.(boostRounds := s.boostRounds + if s.mode == Boost then 1 else 0, observed := s.observed + 1);
    if s.ema.None? then
      var s := s.(seedSum := s.seedSum + x);
      if s.observed >= c.seedRounds then
        s.(ema := Some(Mean(s.seedSum, s.observed)), mode := Default, since := c.dwellRounds)
      else s
    else
      var ema := Blend(c.alpha, s.ema.value, x);
      s.(ema := Some(ema), since := s.since + 1, armed := s.armed || (s.mode == Default && ema > c.raiseAt))
  }

  /** One observed round. */
  function Observed(c: Config, base: real, s: State, x: real): State {
    var s := Averaged(c, s, x);
    if s.ema.None? then s else Decided(c, base, s)
  }

  /** The state after the first `n` of the observed probabilities. */
  function After(c: Config, base: real, xs: seq<real>, n: nat): State
    requires n <= |xs|
  {
    if n == 0 then Start(base) else Observed(c, base, After(c, base, xs, n - 1), xs[n - 1])
  }

  class Controller {
    const config: Config
    const base: real
    var mode: Mode
    var temperature: real
    var ema: Option<real>
    var observed: nat
    var boostRounds: nat
    var transitions: nat
    var log: seq<(nat, real)>
    var armed: bool
    var seedSum: real
    var since: int

    function Now(): State
      reads this
    {
      State(mode, temperature, ema, observed, boostRounds, transitions, log, armed, seedSum, since)
    }

    constructor (base: real, config: Config)
      ensures this.config == config && this.base == base && Now() == Start(base)
    {
      this.config, this.base := config, base;
      mode, temperature, ema, observed, boostRounds, transitions := Seed, base, None, 0, 0, 0;
      log, armed, seedSum, since := [], true, 0.0, 0;
    }

    /** `observe_round`: the new temperature exactly when a transition fired. */
    method ObserveRound(p: real) returns (moved: Option<real>)
      modifies this
      ensures Now() == Observed(config, base, old(Now()), p)
      ensures moved == if transitions == old(transitions) then None else Some(temperature)
    {
      hide Averaged, Decided;
      Average(p);
      if ema.None? {
        return None;
      }
      moved := Decide();
    }

    /** The part of a round before the decision. */
    method Average(p: real)
      modifies this
      ensures Now() == Averaged(config, old(Now()), p) && transitions == old(transitions)
    {
      hide Blend, Part, Mean;
      var x := p;
      if x < 0.0 {
        x := 0.0;
      } else if x > 1.0 {
        x := 1.0;
      }
      if mode == Boost {
        boostRounds := boostRounds + 1;
      }
      observed := observed + 1;
      if ema.None? {
        seedSum := seedSum + x;
        if observed >= config.seedRounds {
          ema := Some(Mean(seedSum, observed));
          mode := Default;
          since := config.dwellRounds;
        }
        return;
      }
      ema := Some(Blend(config.alpha, ema.value, x));
      since := since + 1;
      if !armed && mode == Default && ema.value > config.raiseAt {
        armed := true;
      }
    }

    method Decide() returns (moved: Option<real>)
      requires ema.Some?
      modifies this
      ensures Now() == Decided(config, base, old(Now()))
      ensures moved == if transitions == old(transitions) then None else Some(temperature)
    {
      if since < config.dwellRounds {
        return None;
      }
      if mode == Default {
        if armed && config.floorAt <= ema.value <= config.raiseAt {
          moved := Transition(Boost, config.boostTemperature);
          return;
        }
        return None;
      }
      if mode == Boost {
        if ema.value < config.dropAt {
          moved := Transition(Default, base);
          return;
        }
      }
      return None;
    }

    method Transition(mode: Mode, temperature: real) returns (moved: Option<real>)
      modifies this
      ensures Now() == Moved(old(Now()), mode, temperature) && moved == Some(temperature)
    {
      if mode == Default {
        armed := false;
      }
      this.mode := mode;
      this.temperature := temperature;
      transitions := transitions + 1;
      since := 0;
      if |log| < TRANSITION_LOG_CAP {
        log := log + [(observed, this.temperature)];
      }
      return Some(this.temperature);
    }
  }

  /** A request: every observed round in turn. */
  method Serve(c: Config, base: real, xs: seq<real>) returns (controller: Controller)
    ensures controller.Now() == After(c, base, xs, |xs|)
  {
    controller := new Controller(base, c);
    for i := 0 to |xs|
      invariant fresh(controller) && controller.config == c && controller.base == base
      invariant controller.Now() == After(c, base, xs, i)
    {
      var _ := controller.ObserveRound(xs[i]);
    }
  }

  /* ---- whole runs ---- */

  /** What holds after every round of a run with a valid schedule. */
  ghost predicate Steady(c: Config, base: real, s: State, n: nat) {
    && s.observed == n
    && (s.mode == Seed <==> s.ema.None?) && (s.ema.None? <==> n < c.seedRounds)
    && (s.ema.None? ==> 0.0 <= s.seedSum <= n as real && s.transitions == 0 && s.armed)
    && (s.ema.Some? ==> 0.0 <= s.ema.value <= 1.0 && s.since >= 0)
    && (!s.armed ==> s.mode == Default)
    && (s.mode == Boost <==> s.transitions % 2 == 1)
    && s.temperature == (if s.mode == Boost then c.boostTemperature else base)
  }

  lemma PartOf(k: real, v: real)
    requires 0.0 <= k && 0.0 <= v <= 1.0
    ensures 0.0 <= Part(k, v) <= k && Part(1.0 - k, v) == v - Part(k, v)
  {
    assert k * (1.0 - v) >= 0.0;
    assert k * (1.0 - v) == k - k * v;
  }

  /** A step stays between zero and one, and climbs by at most `a`. */
  lemma BlendIn(a: real, e: real, x: real)
    requires 0.0 <= a <= 1.0 && 0.0 <= e <= 1.0 && 0.0 <= x <= 1.0
    ensures 0.0 <= Blend(a, e, x) <= 1.0 && Blend(a, e, x) <= e + a
  {
    hide Part;
    PartOf(1.0 - a, e);
    PartOf(a, x);
    PartOf(a, e);
  }

  lemma MeanIn(sum: real, n: nat)
    requires n > 0 && 0.0 <= sum <= n as real
    ensures 0.0 <= Mean(sum, n) <= 1.0
  {
  }

  lemma StepSteady(c: Config, base: real, s: State, x: real, n: nat)
    requires ValidationError(c).None? && Steady(c, base, s, n)
    ensures Steady(c, base, Observed(c, base, s, x), n + 1)
  {
    hide Blend, Mean;
    if s.ema.Some? {
      BlendIn(c.alpha, s.ema.value, Clamp(x));
    } else {
      MeanIn(s.seedSum + Clamp(x), n + 1);
    }
  }

  /** The average stays a probability, a disarmed controller is in the default state, and transitions
      alternate between the two set-points. */
  lemma {:induction false} RunIsSteady(c: Config, base: real, xs: seq<real>, n: nat)
    requires ValidationError(c).None? && n <= |xs|
    ensures Steady(c, base, After(c, base, xs, n), n)
  {
    hide Observed;
    if n > 0 {
      RunIsSteady(c, base, xs, n - 1);
      StepSteady(c, base, After(c, base, xs, n - 1), xs[n - 1], n - 1);
    }
  }

  function Flips(k: int, dwell: int): int {
    k * dwell
  }

  lemma FlipsStep(k: int, dwell: int)
    ensures Flips(k, dwell) == Flips(k - 1, dwell) + dwell && Flips(0, dwell) == 0
  {
  }

  /** Rounds since the seed, at `dwell` of them per transition but the first. */
  ghost predicate Dwelt(c: Config, s: State) {
    if s.transitions == 0 then s.since >= c.dwellRounds && s.observed >= c.seedRounds
    else Flips(s.transitions - 1, c.dwellRounds) + s.since <= s.observed - c.seedRounds
  }

  lemma StepDwelt(c: Config, base: real, s: State, x: real, n: nat)
    requires ValidationError(c).None? && Steady(c, base, s, n) && n + 1 >= c.seedRounds && (s.ema.Some? ==> Dwelt(c, s))
    ensures Dwelt(c, Observed(c, base, s, x))
  {
    hide Blend, Mean, Flips;
    FlipsStep(s.transitions, c.dwellRounds);
  }

  /** The dwell floor caps the flip rate: once seeded, transitions are at least `dwell` rounds apart. */
  lemma {:induction false} DwellCapsFlips(c: Config, base: real, xs: seq<real>, n: nat)
    requires ValidationError(c).None? && c.seedRounds <= n <= |xs|
    ensures var s := After(c, base, xs, n);
            Dwelt(c, s) && s.transitions * c.dwellRounds <= s.observed - c.seedRounds + c.dwellRounds
  {
    hide Observed, Flips;
    RunIsSteady(c, base, xs, n - 1);
    if n > c.seedRounds {
      DwellCapsFlips(c, base, xs, n - 1);
    }
    StepDwelt(c, base, After(c, base, xs, n - 1), xs[n - 1], n - 1);
    RunIsSteady(c, base, xs, n);
    DweltBound(c, base, After(c, base, xs, n), n);
  }

  lemma DweltBound(c: Config, base: real, s: State, n: nat)
    requires ValidationError(c).None? && Steady(c, base, s, n) && Dwelt(c, s) && s.ema.Some?
    ensures s.transitions * c.dwellRounds <= s.observed - c.seedRounds + c.dwellRounds
  {
    hide Flips;
    FlipsStep(s.transitions, c.dwellRounds);
    assert Flips(s.transitions, c.dwellRounds) == s.transitions * c.dwellRounds by {
      FlipsIs(s.transitions, c.dwellRounds);
    }
  }

  lemma FlipsIs(k: int, dwell: int)
    ensures Flips(k, dwell) == k * dwell
  {
  }

  /** Rounds observed in the boosted state among the first `n`. */
  function BoostedRounds(c: Config, base: real, xs: seq<real>, n: nat): nat
    requires n <= |xs|
  {
    if n == 0 then 0 else BoostedRounds(c, base, xs, n - 1) + if After(c, base, xs, n - 1).mode == Boost then 1 else 0
  }

  lemma StepBoosts(c: Config, base: real, s: State, x: real)
    ensures Observed(c, base, s, x).boostRounds == s.boostRounds + if s.mode == Boost then 1 else 0
  {
    hide Blend, Mean;
  }

  lemma {:induction false} BoostRoundsCount(c: Config, base: real, xs: seq<real>, n: nat)
    requires n <= |xs|
    ensures After(c, base, xs, n).boostRounds == BoostedRounds(c, base, xs, n)
  {
    hide Observed;
    if n > 0 {
      BoostRoundsCount(c, base, xs, n - 1);
      StepBoosts(c, base, After(c, base, xs, n - 1), xs[n - 1]);
    }
  }

  ghost predicate DropsAt(c: Config, base: real, xs: seq<real>, i: nat)
    requires i < |xs|
  {
    After(c, base, xs, i).mode == Boost && After(c, base, xs, i + 1).mode == Default
  }

  ghost predicate RaisesAt(c: Config, base: real, xs: seq<real>, i: nat)
    requires i < |xs|
  {
    After(c, base, xs, i).mode != Boost && After(c, base, xs, i + 1).mode == Boost
  }

  /** What one round does to the arm, the average and the mode. */
  lemma StepMoves(c: Config, base: real, s: State, x: real, n: nat)
    requires ValidationError(c).None? && Steady(c, base, s, n)
    ensures var s' := Observed(c, base, s, x);
            && (!s.armed && s'.armed ==> s'.ema.Some? && s'.ema.value > c.raiseAt)
            && (s.ema.Some? ==> s'.ema.Some? && s'.ema.value <= s.ema.value + c.alpha)
            && (s.mode == Boost && s'.mode == Default ==> !s'.armed && s'.ema.Some? && s'.ema.value < c.dropAt)
            && (s.mode != Boost && s'.mode == Boost ==> s'.armed && s'.ema.Some? && s'.ema.value <= c.raiseAt)
  {
    hide Blend, Mean;
    if s.ema.Some? {
      BlendIn(c.alpha, s.ema.value, Clamp(x));
    }
  }

  /** A disarmed controller is re-armed only by an average above the raise threshold. */
  lemma {:induction false} ReArmed(c: Config, base: real, xs: seq<real>, i: nat, j: nat) returns (k: nat)
    requires ValidationError(c).None? && i <= j <= |xs| && !After(c, base, xs, i).armed && After(c, base, xs, j).armed
    ensures i < k <= j && After(c, base, xs, k).ema.Some? && After(c, base, xs, k).ema.value > c.raiseAt
    decreases j
  {
    hide Observed, ValidationError;
    RunIsSteady(c, base, xs, j - 1);
    StepMoves(c, base, After(c, base, xs, j - 1), xs[j - 1], j - 1);
    k := j;
    if After(c, base, xs, j - 1).armed {
      k := ReArmed(c, base, xs, i, j - 1);
    }
  }

  /** `n` rounds of climbing by at most `alpha`. */
  function Climb(c: Config, n: nat): real {
    c.alpha * n as real
  }

  lemma ClimbGrows(c: Config, m: nat, n: nat)
    requires c.alpha > 0.0 && m <= n
    ensures Climb(c, m) <= Climb(c, n) && Climb(c, m + 1) == Climb(c, m) + c.alpha && Climb(c, 0) == 0.0
  {
    assert c.alpha * n as real - c.alpha * m as real == c.alpha * (n - m) as real;
    assert c.alpha * (n - m) as real >= 0.0;
  }

  /** The average climbs by at most `alpha` a round. */
  lemma {:induction false} ClimbIsSlow(c: Config, base: real, xs: seq<real>, i: nat, j: nat)
    requires ValidationError(c).None? && i <= j <= |xs| && After(c, base, xs, i).ema.Some?
    ensures After(c, base, xs, j).ema.Some?
    ensures After(c, base, xs, j).ema.value <= After(c, base, xs, i).ema.value + Climb(c, j - i)
    decreases j
  {
    hide Observed, Climb;
    if i < j {
      ClimbIsSlow(c, base, xs, i, j - 1);
      RunIsSteady(c, base, xs, j - 1);
      StepMoves(c, base, After(c, base, xs, j - 1), xs[j - 1], j - 1);
      ClimbGrows(c, j - 1 - i, j - i);
    } else {
      ClimbGrows(c, 0, 0);
    }
  }

  /** No re-boost into the register that just hurt: between a drop and a later raise the average was
      above the raise threshold, so at least the climb from drop to raise was observed. */
  lemma RaiseNeedsRecovery(c: Config, base: real, xs: seq<real>, d: nat, r: nat) returns (k: nat)
    requires ValidationError(c).None? && d < r < |xs| && DropsAt(c, base, xs, d) && RaisesAt(c, base, xs, r)
    ensures d + 1 < k < r + 1 && After(c, base, xs, k).ema.Some? && After(c, base, xs, k).ema.value > c.raiseAt
    ensures c.raiseAt - c.dropAt < Climb(c, r - d - 1)
  {
    hide Observed, Climb;
    RunIsSteady(c, base, xs, d);
    StepMoves(c, base, After(c, base, xs, d), xs[d], d);
    RunIsSteady(c, base, xs, r);
    StepMoves(c, base, After(c, base, xs, r), xs[r], r);
    k := ReArmed(c, base, xs, d + 1, r + 1);
    ClimbIsSlow(c, base, xs, d + 1, k);
    ClimbGrows(c, k - (d + 1), r - d - 1);
  }

  /* ---- when a set-point moves, and what the average is ---- */

  ghost predicate MovesAt(c: Config, base: real, xs: seq<real>, i: nat)
    requires i < |xs|
  {
    RaisesAt(c, base, xs, i) || DropsAt(c, base, xs, i)
  }

  /** A raise fires exactly on an armed default (or just seeded) controller whose new average lies in the
      band, a drop exactly on a boosted one whose new average is below the drop threshold, both only when
      the dwell is over; and nothing else moves a set-point. */
  lemma FiresExactly(c: Config, base: real, xs: seq<real>, i: nat)
    requires ValidationError(c).None? && i < |xs|
    ensures var s, s' := After(c, base, xs, i), After(c, base, xs, i + 1);
            var rested := i + 1 == c.seedRounds || s.since + 1 >= c.dwellRounds;
            && (RaisesAt(c, base, xs, i) <==>
                  s'.ema.Some? && s.mode != Boost && s.armed && rested && c.floorAt <= s'.ema.value <= c.raiseAt)
            && (DropsAt(c, base, xs, i) <==> s'.ema.Some? && s.mode == Boost && rested && s'.ema.value < c.dropAt)
            && s'.transitions == s.transitions + (if MovesAt(c, base, xs, i) then 1 else 0)
            && s'.temperature == (if s'.mode == Boost then c.boostTemperature else base)
  {
    RunIsSteady(c, base, xs, i);
    RunIsSteady(c, base, xs, i + 1);
    hide Blend, Mean;
  }

  /** The dwell counter counts the rounds since the last move, made in round `i`; before the first one the
      seed satisfies it. */
  lemma {:induction false} DwellSince(c: Config, base: real, xs: seq<real>, n: nat) returns (i: nat)
    requires ValidationError(c).None? && c.seedRounds <= n <= |xs|
    ensures var s := After(c, base, xs, n);
            if s.transitions == 0 then s.since == c.dwellRounds + (n - c.seedRounds)
            else
              && i < n && MovesAt(c, base, xs, i) && s.since == n - (i + 1)
              && forall k :: i < k < n ==> !MovesAt(c, base, xs, k)
  {
    hide *;
    SeedRoundsPositive(c);
    SinceStepsAt(c, base, xs, n - 1);
    i := n - 1;
    if n > c.seedRounds {
      var j := DwellSince(c, base, xs, n - 1);
      if !MovesAt(c, base, xs, n - 1) {
        i := j;
      }
    }
  }

  lemma SeedRoundsPositive(c: Config)
    requires ValidationError(c).None?
    ensures c.seedRounds >= 1
  {
  }

  lemma SinceStepsAt(c: Config, base: real, xs: seq<real>, i: nat)
    requires ValidationError(c).None? && i < |xs| && i + 1 >= c.seedRounds
    ensures var s, s' := After(c, base, xs, i), After(c, base, xs, i + 1);
            && s'.transitions == s.transitions + (if MovesAt(c, base, xs, i) then 1 else 0)
            && s'.since == (if MovesAt(c, base, xs, i) then 0
                            else if i + 1 == c.seedRounds then c.dwellRounds else s.since + 1)
            && (i + 1 == c.seedRounds ==> s.transitions == 0)
  {
    RunIsSteady(c, base, xs, i);
    FiresExactly(c, base, xs, i);
    SinceSteps(c, base, After(c, base, xs, i), xs[i], i);
    hide Observed, MovesAt;
  }

  lemma SinceSteps(c: Config, base: real, s: State, x: real, n: nat)
    requires ValidationError(c).None? && Steady(c, base, s, n) && n + 1 >= c.seedRounds
    ensures var s' := Observed(c, base, s, x);
            s'.since == if s'.transitions != s.transitions then 0
                        else if n + 1 == c.seedRounds then c.dwellRounds else s.since + 1
  {
    hide Blend, Mean;
  }

  /** No average after round `d` has been above the raise threshold. */
  ghost predicate LowSince(c: Config, base: real, xs: seq<real>, d: nat, n: nat)
    requires n <= |xs|
  {
    forall k :: d + 1 < k <= n ==> After(c, base, xs, k).ema.Some? && After(c, base, xs, k).ema.value <= c.raiseAt
  }

  /** The controller is disarmed exactly while the average has not been above the raise threshold since
      the last drop. */
  lemma {:induction false} DisarmedSince(c: Config, base: real, xs: seq<real>, n: nat)
    requires ValidationError(c).None? && n <= |xs|
    ensures !After(c, base, xs, n).armed <==>
              exists d :: 0 <= d < n && DropsAt(c, base, xs, d) && LowSince(c, base, xs, d, n)
  {
    hide *;
    NoneDisarmedYet(c, base, xs);
    if n > 0 {
      DisarmedSince(c, base, xs, n - 1);
      ArmStepsAt(c, base, xs, n - 1);
      forall d | 0 <= d < n - 1
        ensures LowSince(c, base, xs, d, n) <==>
                  && LowSince(c, base, xs, d, n - 1)
                  && After(c, base, xs, n).ema.Some? && After(c, base, xs, n).ema.value <= c.raiseAt
      {
        LowSinceStep(c, base, xs, d, n);
      }
      if After(c, base, xs, n).armed {
        assert forall d :: 0 <= d < n - 1 && DropsAt(c, base, xs, d) ==> !LowSince(c, base, xs, d, n);
      } else if DropsAt(c, base, xs, n - 1) {
        assert LowSince(c, base, xs, n - 1, n);
      } else {
        var d :| 0 <= d < n - 1 && DropsAt(c, base, xs, d) && LowSince(c, base, xs, d, n - 1);
        assert LowSince(c, base, xs, d, n);
      }
    }
  }

  lemma LowSinceStep(c: Config, base: real, xs: seq<real>, d: nat, n: nat)
    requires d + 1 < n <= |xs|
    ensures LowSince(c, base, xs, d, n) <==>
              && LowSince(c, base, xs, d, n - 1)
              && After(c, base, xs, n).ema.Some? && After(c, base, xs, n).ema.value <= c.raiseAt
  {
    hide After;
  }

  lemma NoneDisarmedYet(c: Config, base: real, xs: seq<real>)
    ensures After(c, base, xs, 0).armed
  {
  }

  lemma ArmStepsAt(c: Config, base: real, xs: seq<real>, i: nat)
    requires ValidationError(c).None? && i < |xs|
    ensures var s, s' := After(c, base, xs, i), After(c, base, xs, i + 1);
            && (s'.armed <==> !DropsAt(c, base, xs, i) && (s.armed || (s'.ema.Some? && s'.ema.value > c.raiseAt)))
            && (!s.armed ==> s.ema.Some? && s'.ema.Some?)
            && LowSince(c, base, xs, i, i + 1)
  {
    RunIsSteady(c, base, xs, i);
    RunIsSteady(c, base, xs, i + 1);
    ArmSteps(c, base, After(c, base, xs, i), xs[i], i);
    hide Observed;
  }

  lemma ArmSteps(c: Config, base: real, s: State, x: real, n: nat)
    requires ValidationError(c).None? && Steady(c, base, s, n)
    ensures var s' := Observed(c, base, s, x);
            s'.armed <==>
              !(s.mode == Boost && s'.mode == Default) && (s.armed || (s'.ema.Some? && s'.ema.value > c.raiseAt))
  {
    hide Blend, Mean;
  }

  function Power(q: real, k: nat): real {
    if k == 0 then 1.0 else Part(q, Power(q, k - 1))
  }

  /** The sum of the first `n` observations, each clamped to a probability. */
  function SumOf(xs: seq<real>, n: nat): real
    requires n <= |xs|
  {
    if n == 0 then 0.0 else SumOf(xs, n - 1) + Clamp(xs[n - 1])
  }

  /** The observations from `i` up to `n`, each weighted by `a` and by `1 - a` for every later one. */
  function WeightedSum(a: real, xs: seq<real>, i: nat, n: nat): real
    requires i <= n <= |xs|
    decreases n - i
  {
    if i == n then 0.0
    else Part(Part(a, Power(1.0 - a, n - 1 - i)), Clamp(xs[i])) + WeightedSum(a, xs, i + 1, n)
  }

  lemma PartTimes(k: real, l: real, u: real, v: real)
    ensures Part(k, u + v) == Part(k, u) + Part(k, v) && Part(k, Part(l, u)) == Part(Part(k, l), u)
    ensures Part(Part(k, l), u) == Part(Part(l, k), u) && Part(k, 0.0) == 0.0 && Part(1.0, u) == u && Part(u, 1.0) == u
  {
    assert k * (u + v) == k * u + k * v;
    assert k * (l * u) == (k * l) * u;
    assert k * l == l * k;
  }

  lemma {:induction false} WeightsStep(a: real, xs: seq<real>, i: nat, n: nat)
    requires i <= n < |xs|
    ensures WeightedSum(a, xs, i, n + 1) == Part(1.0 - a, WeightedSum(a, xs, i, n)) + Part(a, Clamp(xs[n]))
    decreases n - i
  {
    hide Part, Clamp;
    var q := 1.0 - a;
    if i == n {
      assert WeightedSum(a, xs, n + 1, n + 1) == 0.0 && WeightedSum(a, xs, n, n) == 0.0;
      assert WeightedSum(a, xs, n, n + 1) == Part(Part(a, Power(q, 0)), Clamp(xs[n])) + 0.0;
      PartTimes(q, q, 0.0, 0.0);
      PartTimes(a, a, a, 0.0);
    } else {
      WeightsStep(a, xs, i + 1, n);
      var w, x := Power(q, n - 1 - i), Clamp(xs[i]);
      assert Power(q, n - i) == Part(q, w);
      PartTimes(q, q, Part(Part(a, w), x), WeightedSum(a, xs, i + 1, n));
      PartTimes(q, Part(a, w), x, 0.0);
      PartTimes(q, a, w, 0.0);
      PartTimes(a, q, w, 0.0);
    }
  }

  /** The average is the mean of the seed rounds, fading by `1 - alpha` a round, and every later observation
      at weight `alpha` fading alike. */
  lemma AverageIs(c: Config, base: real, xs: seq<real>, n: nat)
    requires ValidationError(c).None? && c.seedRounds <= n <= |xs|
    ensures var mean := SumOf(xs, c.seedRounds) / c.seedRounds as real;
            After(c, base, xs, n).ema
              == Some(Part(Power(1.0 - c.alpha, n - c.seedRounds), mean) + WeightedSum(c.alpha, xs, c.seedRounds, n))
  {
    SeedIs(c, base, xs, c.seedRounds);
    AverageFrom(c, base, xs, n, SumOf(xs, c.seedRounds) / c.seedRounds as real);
  }

  lemma {:induction false} AverageFrom(c: Config, base: real, xs: seq<real>, n: nat, mean: real)
    requires 1 <= c.seedRounds <= n <= |xs| && After(c, base, xs, c.seedRounds).ema == Some(mean)
    ensures After(c, base, xs, n).ema
              == Some(Part(Power(1.0 - c.alpha, n - c.seedRounds), mean) + WeightedSum(c.alpha, xs, c.seedRounds, n))
  {
    var seed := c.seedRounds;
    hide Part, Clamp, Observed;
    if n == seed {
      PartTimes(1.0, 1.0, mean, 0.0);
    } else {
      AverageFrom(c, base, xs, n - 1, mean);
      AverageSteps(c, base, After(c, base, xs, n - 1), xs[n - 1]);
      WeightsStep(c.alpha, xs, seed, n - 1);
      var q := 1.0 - c.alpha;
      var w := Power(q, n - 1 - seed);
      assert Power(q, n - seed) == Part(q, w);
      PartTimes(q, w, mean, 0.0);
      PartTimes(q, q, Part(w, mean), WeightedSum(c.alpha, xs, seed, n - 1));
    }
  }

  lemma AverageSteps(c: Config, base: real, s: State, x: real)
    requires s.ema.Some?
    ensures Observed(c, base, s, x).ema == Some(Part(1.0 - c.alpha, s.ema.value) + Part(c.alpha, Clamp(x)))
  {
    hide Part, Clamp;
  }

  lemma {:induction false} SeedIs(c: Config, base: real, xs: seq<real>, n: nat)
    requires ValidationError(c).None? && n <= c.seedRounds && n <= |xs|
    ensures After(c, base, xs, n).seedSum == SumOf(xs, n)
    ensures n == c.seedRounds ==> After(c, base, xs, n).ema == Some(SumOf(xs, n) / n as real)
  {
    if n > 0 {
      SeedIs(c, base, xs, n - 1);
      RunIsSteady(c, base, xs, n - 1);
      hide Clamp;
    }
  }

  /** The logged transitions: set-points alternate, starting with the boost, at least `dwell` rounds
      apart, none before the seed is complete. */
  ghost predicate LogRight(c: Config, base: real, s: State) {
    && (forall i :: 0 <= i < |s.log| ==>
          s.log[i].1 == (if i % 2 == 0 then c.boostTemperature else base) && s.log[i].0 >= c.seedRounds)
    && (forall i :: 0 < i < |s.log| ==> s.log[i].0 >= s.log[i - 1].0 + c.dwellRounds)
    && |s.log| == (if s.transitions < TRANSITION_LOG_CAP then s.transitions else TRANSITION_LOG_CAP)
    && (0 < |s.log| == s.transitions ==> s.log[|s.log| - 1].0 + s.since == s.observed)
  }

  lemma StepLog(c: Config, base: real, s: State, x: real, n: nat)
    requires ValidationError(c).None? && Steady(c, base, s, n) && LogRight(c, base, s)
    ensures LogRight(c, base, Observed(c, base, s, x))
  {
    hide Blend, Mean;
  }

  lemma {:induction false} LogIsRight(c: Config, base: real, xs: seq<real>, n: nat)
    requires ValidationError(c).None? && n <= |xs|
    ensures LogRight(c, base, After(c, base, xs, n))
  {
    hide Observed;
    if n > 0 {
      LogIsRight(c, base, xs, n - 1);
      RunIsSteady(c, base, xs, n - 1);
      StepLog(c, base, After(c, base, xs, n - 1), xs[n - 1], n - 1);
    }
  }
}
