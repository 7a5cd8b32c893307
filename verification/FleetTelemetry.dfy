/** The telemetry slot: any number of tasks load the time of the last sample, decide, and claim the slot
    with a compare-and-swap. Load and swap are separate steps, so other tasks run in between. */
module FleetTelemetry {
  type Millis = int
  type Task = nat

  /** Nothing has been published yet: the smallest 64-bit integer. */
  const NEVER: Millis := -0x8000_0000_0000_0000

  predicate CadenceReached(last: Millis, now: Millis, every: nat) {
    last == NEVER || now < last || now - last >= every
  }

  /** What a task holds between its load and its swap. */
  datatype Pending = Pending(loaded: Millis, now: Millis)

  /** One successful claim: the value it replaced and the time it put there. */
  datatype Claim = Claim(loaded: Millis, now: Millis)

  datatype State = State(last: Millis, pending: map<Task, Pending>, claims: seq<Claim>)

  const START := State(NEVER, map[], [])

  /** A step of one task: load and decide at its own clock, or swap. */
  datatype Action = Load(task: Task, now: Millis) | Swap(task: Task)

  function Act(s: State, a: Action, every: nat): State {
    match a
    case Load(task, now) =>
      if CadenceReached(s.last, now, every) then s.(pending := s.pending[task := Pending(s.last, now)])
      else s.(pending := s.pending - {task})
    case Swap(task) =>
      if task !in s.pending then s else
        var p := s.pending[task];
        if s.last == p.loaded
        then State(p.now, s.pending - {task}, s.claims + [Claim(p.loaded, p.now)])
        else s.(pending := s.pending - {task})
  }

  /** A whole schedule, step by step. */
  function Run(schedule: seq<Action>, every: nat): State {
    if schedule == [] then START
    else Act(Run(schedule[..|schedule| - 1], every), schedule[|schedule| - 1], every)
  }

  // ---- every reachable state -------------------------------------------------------------------

  /** Each claim replaced the value of the one before it, the first one NEVER; the slot holds the last. */
  ghost predicate Chained(s: State) {
    && (s.claims == [] ==> s.last == NEVER)
    && (s.claims != [] ==> s.claims[0].loaded == NEVER && s.last == s.claims[|s.claims| - 1].now)
    && (forall k, l :: 0 <= k < l < |s.claims| && l == k + 1 ==> s.claims[l].loaded == s.claims[k].now)
  }

  /** Nobody claims or holds a decision the cadence did not allow. */
  ghost predicate Allowed(s: State, every: nat) {
    && (forall task :: task in s.pending ==> CadenceReached(s.pending[task].loaded, s.pending[task].now, every))
    && (forall k :: 0 <= k < |s.claims| ==> CadenceReached(s.claims[k].loaded, s.claims[k].now, every))
  }

  lemma ActKeepsChain(s: State, a: Action, every: nat)
    requires Chained(s) && Allowed(s, every)
    ensures Chained(Act(s, a, every)) && Allowed(Act(s, a, every), every)
    ensures s.claims <= Act(s, a, every).claims
  {
  }

  lemma {:induction false} RunIsChained(schedule: seq<Action>, every: nat)
    ensures Chained(Run(schedule, every)) && Allowed(Run(schedule, every), every)
  {
    if schedule != [] {
      RunIsChained(schedule[..|schedule| - 1], every);
      ActKeepsChain(Run(schedule[..|schedule| - 1], every), schedule[|schedule| - 1], every);
    }
  }

  /** Left alone, a task that loads and swaps claims the slot exactly when nothing was published yet, its clock
      stands before the last claim, or the interval is over; and then the slot is its own. */
  lemma LoneTaskClaimsIff(schedule: seq<Action>, every: nat, task: Task, now: Millis)
    ensures (var s, after := Run(schedule, every), Run(schedule + [Load(task, now), Swap(task)], every);
      if s.claims == [] || now < s.claims[|s.claims| - 1].now || now - s.claims[|s.claims| - 1].now >= every
         || s.last == -9_223_372_036_854_775_808
      then after.claims == s.claims + [Claim(s.last, now)] && after.last == now
      else after.claims == s.claims && after.last == s.last)
  {
    var loaded, swapped := schedule + [Load(task, now)], schedule + [Load(task, now), Swap(task)];
    RunIsChained(schedule, every);
    assert swapped[..|swapped| - 1] == loaded && loaded[..|loaded| - 1] == schedule;
  }

  // ---- the claims are spaced -------------------------------------------------------------------

  /** No claim was made on a clock that stood before the value it loaded. */
  ghost predicate ClocksForward(claims: seq<Claim>) {
    forall k :: 0 <= k < |claims| && claims[k].loaded != NEVER ==> claims[k].loaded <= claims[k].now
  }

  /** Every clock value is a real time, not the start-up marker. */
  ghost predicate RealTimes(claims: seq<Claim>) {
    forall k :: 0 <= k < |claims| ==> claims[k].now > NEVER
  }

  ghost predicate Spaced(claims: seq<Claim>, every: nat) {
    forall k, l :: 0 <= k < l < |claims| ==> claims[l].now - claims[k].now >= every
  }

  lemma {:induction false} ForwardIsSpaced(s: State, every: nat, k: nat, l: nat)
    requires Chained(s) && Allowed(s, every) && ClocksForward(s.claims) && RealTimes(s.claims)
    requires k < l < |s.claims|
    ensures s.claims[l].now - s.claims[k].now >= every
    decreases l - k
  {
    assert s.claims[l].loaded == s.claims[l - 1].now;
    assert CadenceReached(s.claims[l].loaded, s.claims[l].now, every);
    if k < l - 1 {
      ForwardIsSpaced(s, every, k, l - 1);
    }
  }

  /** The slot is claimed at most once per interval, in every schedule, as long as no claim is made on a
      clock standing before the value it loaded; and for a positive interval, only then: a clock that
      went back is let through on purpose, and its claim comes early. */
  lemma ClaimsAreSpacedIff(schedule: seq<Action>, every: nat)
    requires RealTimes(Run(schedule, every).claims)
    ensures ClocksForward(Run(schedule, every).claims) ==> Spaced(Run(schedule, every).claims, every)
    ensures every > 0 ==> (Spaced(Run(schedule, every).claims, every) <==> ClocksForward(Run(schedule, every).claims))
  {
    var s := Run(schedule, every);
    RunIsChained(schedule, every);
    if ClocksForward(s.claims) {
      forall k, l | 0 <= k < l < |s.claims|
        ensures s.claims[l].now - s.claims[k].now >= every
      {
        ForwardIsSpaced(s, every, k, l);
      }
    }
    if Spaced(s.claims, every) {
      forall k | 0 <= k < |s.claims| && s.claims[k].loaded != NEVER
        ensures s.claims[k].loaded <= s.claims[k].now
      {
        assert k > 0;
        assert s.claims[k].loaded == s.claims[k - 1].now;
      }
    }
  }

  /** A schedule in which a clock set back lets two claims through within one interval. */
  lemma BackwardClockClaimsEarly()
    ensures var s := Run([Load(0, 5000), Swap(0), Load(1, 4000), Swap(1)], 5000);
            |s.claims| == 2 && !Spaced(s.claims, 5000)
  {
    var schedule := [Load(0, 5000), Swap(0), Load(1, 4000), Swap(1)];
    assert schedule[..3] == [Load(0, 5000), Swap(0), Load(1, 4000)];
    assert schedule[..3][..2] == [Load(0, 5000), Swap(0)];
    assert schedule[..3][..2][..1] == [Load(0, 5000)];
    assert schedule[..3][..2][..1][..0] == [];
    var s1 := Run([Load(0, 5000)], 5000);
    assert s1 == State(NEVER, map[0 := Pending(NEVER, 5000)], []);
    var s2 := Run([Load(0, 5000), Swap(0)], 5000);
    assert s2.last == 5000 && s2.claims == [Claim(NEVER, 5000)];
    var s3 := Run(schedule[..3], 5000);
    assert s3.pending[1] == Pending(5000, 4000) && s3.claims == s2.claims && s3.last == 5000;
    var s4 := Run(schedule, 5000);
    assert s4.claims == [Claim(NEVER, 5000), Claim(5000, 4000)];
    assert s4.claims[1].now - s4.claims[0].now < 5000;
  }
}
