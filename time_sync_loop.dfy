/**
 * `TimeSyncLoop` of ntp.go: one pass of its `for {}` body is a step over the
 * two package variables `timeSyncRetryInterval` and `timeSyncSuccess`. All
 * durations are in milliseconds.
 */
module TimeSyncLoop {
  import opened Wrappers
  import opened TimeSources

  const RetryStepMs: int := 5_000
  const RetryMaxMs: int := 60_000
  const WaitNetCheckMs: int := 100
  const WaitNetUpMs: int := 3_000
  const SyncIntervalMs: int := 3_600_000

  /** The externally maintained network readiness flags the loop polls. */
  datatype NetworkState = NetworkState(checked: bool, up: bool)

  datatype LoopState = LoopState(retryInterval: int, syncSuccess: bool)

  /** One pass: the new state, how long it sleeps, and whether `SyncSystemTime` was called. */
  datatype StepResult = StepResult(next: LoopState, sleep: int, attempted: bool)

  /** What the world looks like during one pass. */
  datatype Tick = Tick(net: NetworkState, env: SyncEnv)

  /** A trace of passes: the final state and each pass's sleep. */
  datatype Run = Run(final: LoopState, sleeps: seq<int>, attempts: nat)

  /** The value the variables have at program start. */
  const Initial: LoopState := LoopState(0, false)

  /** At the top of every pass the retry interval is a multiple of 5 s in [0, 60 s]. */
  predicate Valid(s: LoopState)
  {
    0 <= s.retryInterval <= RetryMaxMs && s.retryInterval % RetryStepMs == 0
  }

  function Ready(net: NetworkState): bool { net.checked && net.up }

  /** The body of the loop, given whether the sync (if it is attempted) succeeds. */
  function Step(s: LoopState, net: NetworkState, syncOk: bool): StepResult
  {
    if !net.checked then StepResult(s, WaitNetCheckMs, false)
    else if !net.up then StepResult(s, WaitNetUpMs, false)
    else if !syncOk then
      var raised := s.retryInterval + RetryStepMs;
      StepResult(LoopState(if raised > RetryMaxMs then 0 else raised, s.syncSuccess), raised, true)
    else StepResult(LoopState(s.retryInterval, true), SyncIntervalMs, true)
  }

  function SyncSucceeds(env: SyncEnv): bool { Sync(env).err.None? }

  function Trace(s: LoopState, ticks: seq<Tick>): (r: Run)
    ensures |r.sleeps| == |ticks|
    decreases |ticks|
  {
    if ticks == [] then Run(s, [], 0)
    else
      var st := Step(s, ticks[0].net, SyncSucceeds(ticks[0].env));
      var rest := Trace(st.next, ticks[1..]);
      Run(rest.final, [st.sleep] + rest.sleeps, rest.attempts + if st.attempted then 1 else 0)
  }

  /** No sync is attempted unless both readiness flags are set; until then the sleep is 100 ms or 3 s and nothing changes. */
  lemma NotReadyNoSync(s: LoopState, net: NetworkState, syncOk: bool)
    ensures var r := Step(s, net, syncOk);
      && (r.attempted <==> Ready(net))
      && (!net.checked ==> r.sleep == 100 && r.next == s)
      && (net.checked && !net.up ==> r.sleep == 3_000 && r.next == s)
  {
  }

  /** A failed sync raises the interval by exactly 5 s and sleeps the raised value; the reset to 0 happens only past 60 s. */
  lemma FailureBacksOff(s: LoopState, net: NetworkState)
    requires Ready(net)
    ensures var r := Step(s, net, false);
      && r.sleep == s.retryInterval + 5_000
      && r.next.syncSuccess == s.syncSuccess
      && (s.retryInterval + 5_000 > 60_000 ==> r.next.retryInterval == 0)
      && (s.retryInterval + 5_000 <= 60_000 ==> r.next.retryInterval == s.retryInterval + 5_000)
  {
  }

  /** A successful sync sets the success flag, sleeps one hour and leaves the retry interval alone. */
  lemma SuccessKeepsInterval(s: LoopState, net: NetworkState)
    requires Ready(net)
    ensures Step(s, net, true) == StepResult(LoopState(s.retryInterval, true), 3_600_000, true)
  {
  }

  /** Every pass keeps the interval a multiple of 5 s in [0, 60 s]. */
  lemma StepPreservesValid(s: LoopState, net: NetworkState, syncOk: bool)
    requires Valid(s)
    ensures Valid(Step(s, net, syncOk).next)
  {
  }

  lemma {:induction false} TracePreservesValid(s: LoopState, ticks: seq<Tick>)
    requires Valid(s)
    ensures Valid(Trace(s, ticks).final)
    decreases |ticks|
  {
    if ticks != [] {
      var st := Step(s, ticks[0].net, SyncSucceeds(ticks[0].env));
      StepPreservesValid(s, ticks[0].net, SyncSucceeds(ticks[0].env));
      TracePreservesValid(st.next, ticks[1..]);
    }
  }

  /** While the network is never ready the loop never syncs, sleeps only 100 ms or 3 s, and keeps its state. */
  lemma {:induction false} NeverReadyNeverSyncs(s: LoopState, ticks: seq<Tick>)
    requires forall i :: 0 <= i < |ticks| ==> !Ready(ticks[i].net)
    ensures var r := Trace(s, ticks);
      && r.final == s && r.attempts == 0
      && forall i :: 0 <= i < |ticks| ==> r.sleeps[i] == (if ticks[i].net.checked then 3_000 else 100)
  {
    if ticks != [] {
      NeverReadyNeverSyncs(s, ticks[1..]);
    }
  }

  /** Once a sync has succeeded the flag stays set. */
  lemma {:induction false} SuccessIsSticky(s: LoopState, ticks: seq<Tick>)
    requires s.syncSuccess
    ensures Trace(s, ticks).final.syncSuccess
    decreases |ticks|
  {
    if ticks != [] {
      SuccessIsSticky(Step(s, ticks[0].net, SyncSucceeds(ticks[0].env)).next, ticks[1..]);
    }
  }

  lemma ShiftMod13(j: nat, k: nat)
    requires j <= 12
    ensures ((j + 1) % 13 + k) % 13 == (j + 1 + k) % 13
  {
  }

  /** Every pass of `ticks` finds the network ready and the sync failing. */
  predicate AllFail(ticks: seq<Tick>)
  {
    forall i :: 0 <= i < |ticks| ==> Ready(ticks[i].net) && !SyncSucceeds(ticks[i].env)
  }

  /** The sleep of the k-th failure of a run that starts at interval 5 s * j. */
  function SawtoothSleep(j: nat, k: nat): int
  {
    ((j + k) % 13 + 1) * RetryStepMs
  }

  lemma FailureFrom(s: LoopState, j: nat, tick: Tick)
    requires j <= 12 && s.retryInterval == j * RetryStepMs
    requires Ready(tick.net) && !SyncSucceeds(tick.env)
    ensures var st := Step(s, tick.net, SyncSucceeds(tick.env));
      st.attempted && st.sleep == SawtoothSleep(j, 0) && st.next.retryInterval == (j + 1) % 13 * RetryStepMs
  {
  }

  /**
   * Backoff is a sawtooth: starting from interval 5 s * j, the k-th of a run
   * of consecutive failures sleeps 5 s * ((j + k) mod 13 + 1). From 0 the
   * sleeps are 5, 10, ..., 60, 65 s, and the failure after that sleeps 5 s.
   */
  lemma {:induction false} FailuresSawtooth(s: LoopState, j: nat, ticks: seq<Tick>)
    requires j <= 12 && s.retryInterval == j * RetryStepMs
    requires AllFail(ticks)
    ensures var r := Trace(s, ticks);
      && r.attempts == |ticks|
      && r.final.retryInterval == (j + |ticks|) % 13 * RetryStepMs
      && forall k :: 0 <= k < |ticks| ==> r.sleeps[k] == SawtoothSleep(j, k)
    decreases |ticks|
  {
    if ticks != [] {
      var st := Step(s, ticks[0].net, SyncSucceeds(ticks[0].env));
      FailureFrom(s, j, ticks[0]);
      var j' := (j + 1) % 13;
      assert AllFail(ticks[1..]) by {
        forall i | 0 <= i < |ticks| - 1
          ensures Ready(ticks[1..][i].net) && !SyncSucceeds(ticks[1..][i].env)
        {
          assert ticks[1..][i] == ticks[i + 1];
        }
      }
      FailuresSawtooth(st.next, j', ticks[1..]);
      var rest := Trace(st.next, ticks[1..]);
      var r := Trace(s, ticks);
      assert r.sleeps == [st.sleep] + rest.sleeps;
      forall k | 1 <= k < |ticks|
        ensures r.sleeps[k] == SawtoothSleep(j, k)
      {
        assert r.sleeps[k] == rest.sleeps[k - 1] == SawtoothSleep(j', k - 1);
        ShiftMod13(j, k - 1);
      }
      ShiftMod13(j, |ticks| - 1);
    }
  }

  /** From program start, consecutive failures sleep 5, 10, ..., 60, 65 s and then start over at 5 s. */
  lemma FailuresFromStart(ticks: seq<Tick>)
    requires AllFail(ticks)
    ensures forall k :: 0 <= k < |ticks| ==> Trace(Initial, ticks).sleeps[k] == (k % 13 + 1) * 5_000
  {
    FailuresSawtooth(Initial, 0, ticks);
  }

  /** The loop's two package variables and one pass of its body. */
  class TimeSync {
    var retryInterval: int
    var syncSuccess: bool

    function State(): LoopState
      reads this
    {
      LoopState(retryInterval, syncSuccess)
    }

    constructor ()
      ensures State() == Initial && Valid(State())
    {
      retryInterval := 0;
      syncSuccess := false;
    }

    /**
     * One pass of the loop body. `report` is the outcome of the
     * `SyncSystemTime` call, `None` when the pass did not call it.
     */
    method Iterate(net: NetworkState, env: SyncEnv) returns (sleep: int, report: Option<SyncReport>)
      modifies this
      ensures var st := Step(old(State()), net, SyncSucceeds(env));
        State() == st.next && sleep == st.sleep && (report.Some? <==> st.attempted)
      ensures report.Some? ==> report.value == Sync(env)
      ensures Valid(old(State())) ==> Valid(State())
    {
      if !net.checked {
        return WaitNetCheckMs, None;
      }
      if !net.up {
        return WaitNetUpMs, None;
      }
      var r, _ := SyncSystemTime(env);
      report := Some(r);
      if r.err.Some? {
        retryInterval := retryInterval + RetryStepMs;
        sleep := retryInterval;
        if retryInterval > RetryMaxMs {
          retryInterval := 0;
        }
        return;
      }
      syncSuccess := true;
      sleep := SyncIntervalMs;
    }

    /** The first `|ticks|` passes of the endless loop; `attempts` counts the `SyncSystemTime` calls. */
    method RunFor(ticks: seq<Tick>) returns (sleeps: seq<int>, attempts: nat)
      modifies this
      ensures State() == Trace(old(State()), ticks).final
      ensures sleeps == Trace(old(State()), ticks).sleeps
      ensures attempts == Trace(old(State()), ticks).attempts
    {
      ghost var whole := Trace(State(), ticks);
      sleeps, attempts := [], 0;
      var i := 0;
      while i < |ticks|
        invariant 0 <= i <= |ticks|
        invariant Trace(State(), ticks[i..]).final == whole.final
        invariant sleeps + Trace(State(), ticks[i..]).sleeps == whole.sleeps
        invariant attempts + Trace(State(), ticks[i..]).attempts == whole.attempts
      {
        ghost var st := Step(State(), ticks[i].net, SyncSucceeds(ticks[i].env));
        ghost var rest := Trace(st.next, ticks[i + 1..]);
        assert ticks[i..][1..] == ticks[i + 1..];
        assert Trace(State(), ticks[i..]).final == rest.final;
        assert Trace(State(), ticks[i..]).sleeps == [st.sleep] + rest.sleeps;
        assert Trace(State(), ticks[i..]).attempts == rest.attempts + if st.attempted then 1 else 0;
        var sleep, report := Iterate(ticks[i].net, ticks[i].env);
        assert State() == st.next && sleep == st.sleep;
        sleeps := sleeps + [sleep];
        if report.Some? {
          attempts := attempts + 1;
        }
        i := i + 1;
      }
    }
  }
}
