/**
 * `Target::run_hooks`: start the hooks from the last one down, at most
 * `jobs` at a time by its own count, poll the started ones, then wait every
 * hook and report whether the or of all `wait` results is positive.
 *
 * What the operating system does is an oracle, a `HookOracle` value: the
 * outcome of `fork` for each hook, whether the process a `WNOHANG` probe
 * asks about has terminated by then, and the status word each hook's
 * process leaves when it is reaped. The spawning loop may poll forever, so
 * its model takes `fuel`, the number of polling rounds it may do before the
 * outcome is `OutOfFuel`.
 *
 * Every function of the scheduler takes a flag `fixed`. With `fixed` false
 * it is the code as written; with `fixed` true it is the corrected
 * scheduler: `has_exited` looks at what `waitpid` returns and leaves the
 * status for `wait`, `wait` caches its result in `exited`, and the polling
 * loop skips a hook that has been waited.
 */
module Hooks {
  import opened Wrappers
  import opened Commands

  // ---------------------------------------------------------------------------
  // The scheduler's state
  // ---------------------------------------------------------------------------

  /**
   * The operating system's answers: the outcome of `fork` for hook `i`,
   * whether the process asked about in the `q`-th `WNOHANG` probe had
   * terminated by then, and the status word the forked child of hook `i`
   * leaves (what `ChildStatus` says that child exits with).
   */
  datatype HookOracle = HookOracle(fork: nat -> ForkResult, done: nat -> bool, status: nat -> WaitStatus)

  /** How many probes have been made, and which hooks' processes have been reaped. */
  datatype Os = Os(probes: nat, reaped: set<nat>)

  /**
   * The scheduler's state: the copied hooks, the counters `num_hooks`,
   * `running_children` and `status`, the operating system's side, and a
   * record of what happened: which hooks have been waited, the order hooks
   * were started in, how many started hooks were still unwaited at each
   * start, and every `wait` result in order.
   */
  datatype Sched = Sched(
    cmds: seq<Cmd>,
    numHooks: int,
    running: int,
    status: Code,
    os: Os,
    waited: seq<bool>,
    started: seq<nat>,
    pendingAtStart: seq<nat>,
    results: seq<Code>)

  predicate Valid(s: Sched) {
    |s.waited| == |s.cmds| && 0 <= s.numHooks <= |s.cmds|
  }

  /** How many of the hooks from `lo` on have not been waited. */
  function Pending(waited: seq<bool>, lo: nat): nat
    requires lo <= |waited|
    decreases |waited| - lo
  {
    if lo == |waited| then 0 else (if waited[lo] then 0 else 1) + Pending(waited, lo + 1)
  }

  /** `hooks` copied, `num_hooks = hooks.size()`, `running_children = 0`, `status = 0`. */
  function Initial(hooks: seq<string>): (s: Sched)
    ensures Valid(s) && |s.cmds| == |hooks| && s.numHooks == |hooks| && s.running == 0
    ensures forall k :: 0 <= k < |hooks| ==> s.cmds[k] == NewCmd(hooks[k]) && !s.waited[k]
  {
    Sched(seq(|hooks|, k requires 0 <= k < |hooks| => NewCmd(hooks[k])), |hooks|, 0, 0, Os(0, {}),
          seq(|hooks|, k => false), [], [], [])
  }

  /** `hooks[--num_hooks].run(); running_children++;` */
  function Start(s: Sched, o: HookOracle): (r: Sched)
    requires Valid(s) && s.numHooks > 0
    ensures Valid(r) && |r.cmds| == |s.cmds| && r.numHooks == s.numHooks - 1
  {
    var i := s.numHooks - 1;
    s.(cmds := s.cmds[i := RunCmd(s.cmds[i], o.fork(i))],
       numHooks := i,
       running := s.running + 1,
       started := s.started + [i],
       pendingAtStart := s.pendingAtStart + [Pending(s.waited, s.numHooks)])
  }

  /**
   * `hooks[i].has_exited()`: a `WNOHANG` `waitpid`, then
   * `WIFEXITED(status) || WIFSIGNALED(status)`. As written, the status word
   * starts at 0 and stays 0 when the process is still running or was reaped
   * before, and 0 reads as a normal exit: the answer is always yes. A
   * process that has terminated is reaped by the probe and its status is
   * dropped. A hook whose `fork` failed probes pid -1, which may reap some
   * other child; that is not modelled. Corrected, the answer is whether the
   * process has terminated, and the probe leaves it for `wait`.
   */
  function Probe(c: Cmd, i: nat, os: Os, o: HookOracle, fixed: bool): (r: (bool, Os))
    ensures !fixed ==> r.0
    ensures fixed ==> (r.0 <==> c.failed || i in os.reaped || o.done(os.probes)) && r.1.reaped == os.reaped
  {
    if c.failed || i in os.reaped then (true, os)
    else
      var d := o.done(os.probes);
      (d || !fixed, os.(probes := os.probes + 1, reaped := if d && !fixed then os.reaped + {i} else os.reaped))
  }

  /**
   * The blocking `waitpid` inside `wait` on hook `i` in state `c`: the
   * status word it leaves and the operating system afterwards. A process
   * already reaped cannot be waited again: the call fails and the status
   * word stays 0, which reads as exit status 0.
   */
  function WaitPid(c: Cmd, i: nat, os: Os, o: HookOracle): (WaitStatus, Os) {
    if !Asks(c) || i in os.reaped then (Exited(0), os)
    else
      var w := o.status(i);
      (w, os.(reaped := if w.Neither? then os.reaped else os.reaped + {i}))
  }

  /** `status |= hooks[i].wait()`; corrected, `wait` also sets `exited`, caching its result. */
  function WaitHook(s: Sched, i: nat, o: HookOracle, fixed: bool): (r: Sched)
    requires Valid(s) && i < |s.cmds|
    ensures Valid(r) && |r.cmds| == |s.cmds| && r.numHooks == s.numHooks && r.running == s.running
    ensures r.started == s.started && r.pendingAtStart == s.pendingAtStart
  {
    var (w, os) := WaitPid(s.cmds[i], i, s.os, o);
    var (c, code) := WaitCmd(s.cmds[i], w);
    s.(cmds := s.cmds[i := if fixed then c.(exited := true) else c],
       status := Or(s.status, code),
       os := os,
       waited := s.waited[i := true],
       results := s.results + [code])
  }

  /** One turn of the polling loop, on hook `i`; corrected, a hook already waited is skipped. */
  function PollOne(s: Sched, i: nat, o: HookOracle, fixed: bool): (r: Sched)
    requires Valid(s) && i < |s.cmds|
    ensures Valid(r) && |r.cmds| == |s.cmds| && r.numHooks == s.numHooks
    ensures r.started == s.started && r.pendingAtStart == s.pendingAtStart
  {
    if fixed && s.cmds[i].exited then s
    else
      var (answer, os) := Probe(s.cmds[i], i, s.os, o, fixed);
      var s' := s.(os := os);
      if answer then WaitHook(s', i, o, fixed).(running := s'.running - 1) else s'
  }

  /**
   * The polling loop `for (i = hooks.size() - 1; i >= num_hooks; i--)`:
   * every started hook that `has_exited` is waited and `running_children`
   * goes down.
   */
  function PollFrom(s: Sched, i: int, o: HookOracle, fixed: bool): (r: Sched)
    requires Valid(s) && -1 <= i < |s.cmds|
    decreases i + 1, 1
    ensures Valid(r) && |r.cmds| == |s.cmds| && r.numHooks == s.numHooks
    ensures r.started == s.started && r.pendingAtStart == s.pendingAtStart
  {
    if i < s.numHooks then s else PollThen(s, i, o, fixed)
  }

  /** A turn of the polling loop on hook `i`, then the rest of the loop. */
  function PollThen(s: Sched, i: nat, o: HookOracle, fixed: bool): (r: Sched)
    requires Valid(s) && i < |s.cmds|
    decreases i + 1, 0
    ensures Valid(r) && |r.cmds| == |s.cmds| && r.numHooks == s.numHooks
    ensures r.started == s.started && r.pendingAtStart == s.pendingAtStart
  {
    PollFrom(PollOne(s, i, o, fixed), i - 1, o, fixed)
  }

  /** The `while (num_hooks > 0)` loop; `None` when it needs more than `fuel` polling rounds. */
  function Spawn(s: Sched, jobs: int, o: HookOracle, fixed: bool, fuel: nat): (r: Option<Sched>)
    requires Valid(s)
    decreases fuel, s.numHooks, 1
    ensures r.Some? ==> Valid(r.value) && |r.value.cmds| == |s.cmds| && r.value.numHooks == 0
  {
    if s.numHooks == 0 then Some(s) else Advance(s, jobs, o, fixed, fuel)
  }

  /** One turn of the `while (num_hooks > 0)` loop, then the rest of the loop. */
  function Advance(s: Sched, jobs: int, o: HookOracle, fixed: bool, fuel: nat): (r: Option<Sched>)
    requires Valid(s) && s.numHooks > 0
    decreases fuel, s.numHooks, 0
    ensures r.Some? ==> Valid(r.value) && |r.value.cmds| == |s.cmds| && r.value.numHooks == 0
  {
    if s.running < jobs then Spawn(Start(s, o), jobs, o, fixed, fuel)
    else if fuel == 0 then None
    else Spawn(PollFrom(s, |s.cmds| - 1, o, fixed), jobs, o, fixed, fuel - 1)
  }

  /** The final loop: wait every hook, from index `i` up. */
  function WaitAll(s: Sched, i: nat, o: HookOracle, fixed: bool): (r: Sched)
    requires Valid(s) && i <= |s.cmds|
    decreases |s.cmds| - i, 1
    ensures Valid(r) && |r.cmds| == |s.cmds| && r.numHooks == s.numHooks && r.started == s.started
    ensures r.pendingAtStart == s.pendingAtStart
  {
    if i == |s.cmds| then s else WaitThen(s, i, o, fixed)
  }

  /** A turn of the final loop on hook `i`, then the rest of the loop. */
  function WaitThen(s: Sched, i: nat, o: HookOracle, fixed: bool): (r: Sched)
    requires Valid(s) && i < |s.cmds|
    decreases |s.cmds| - i, 0
    ensures Valid(r) && |r.cmds| == |s.cmds| && r.numHooks == s.numHooks && r.started == s.started
    ensures r.pendingAtStart == s.pendingAtStart
  {
    WaitAll(WaitHook(s, i, o, fixed), i + 1, o, fixed)
  }

  /** The state at `return`, or `None` when the spawning loop runs out of fuel. */
  function Finish(hooks: seq<string>, jobs: int, o: HookOracle, fixed: bool, fuel: nat): Option<Sched> {
    match Spawn(Initial(hooks), jobs, o, fixed, fuel)
    case None => None
    case Some(s) => Some(WaitAll(s, 0, o, fixed))
  }

  datatype HookOutcome = Finished(result: bool) | OutOfFuel

  /**
   * `run_hooks(hooks)`: `status > 0` once every hook has been waited. An
   * empty list returns false; with `jobs <= 0` and at least one hook, no
   * hook starts and the spawning loop never ends.
   */
  function RunHooksSpec(hooks: seq<string>, jobs: int, o: HookOracle, fixed: bool, fuel: nat): (r: HookOutcome)
    ensures hooks == [] ==> r == Finished(false)
    ensures jobs <= 0 && hooks != [] ==> r == OutOfFuel
  {
    NoJobsStuck(hooks, jobs, o, fixed, fuel);
    match Finish(hooks, jobs, o, fixed, fuel)
    case None => OutOfFuel
    case Some(s) => Finished(s.status > 0)
  }

  /** What `wait` on hook `i` should return: -1 for a failed `fork` or an odd status word, else the signal or the exit status. */
  function CodeOf(o: HookOracle, i: nat): Code {
    if o.fork(i).ForkFailed? then -1
    else match o.status(i)
      case Exited(x) => x
      case Signaled(n) => n
      case Neither => -1
  }

  // ---------------------------------------------------------------------------
  // What `run_hooks` does, as written and corrected
  // ---------------------------------------------------------------------------

  /** With every hook still unstarted and no room to start one, a polling round changes nothing. */
  lemma {:induction false} SpawnStuck(s: Sched, jobs: int, o: HookOracle, fixed: bool, fuel: nat)
    requires Valid(s) && 0 < s.numHooks == |s.cmds| && s.running >= jobs
    ensures Spawn(s, jobs, o, fixed, fuel) == None
    decreases fuel
  {
    if fuel > 0 {
      assert PollFrom(s, |s.cmds| - 1, o, fixed) == s;
      SpawnStuck(s, jobs, o, fixed, fuel - 1);
    }
  }

  /** With `jobs <= 0` and at least one hook, the spawning loop never starts a hook and never ends. */
  lemma NoJobsStuck(hooks: seq<string>, jobs: int, o: HookOracle, fixed: bool, fuel: nat)
    ensures jobs <= 0 && hooks != [] ==> Spawn(Initial(hooks), jobs, o, fixed, fuel) == None
  {
    if jobs <= 0 && hooks != [] {
      SpawnStuck(Initial(hooks), jobs, o, fixed, fuel);
    }
  }

  /** The indices `m - 1` down to 0. */
  function Desc(m: nat): (r: seq<nat>)
    ensures |r| == m && forall k :: 0 <= k < m ==> r[k] == m - 1 - k
  {
    if m == 0 then [] else [m - 1] + Desc(m - 1)
  }

  /** Every hook from `num_hooks` on has been run. */
  predicate RanFrom(s: Sched)
    requires Valid(s)
  {
    forall k :: s.numHooks <= k < |s.cmds| ==> s.cmds[k].ran
  }

  lemma PollOneRuns(s: Sched, i: nat, o: HookOracle, fixed: bool)
    requires Valid(s) && i < |s.cmds| && RanFrom(s)
    ensures RanFrom(PollOne(s, i, o, fixed))
  {
  }

  lemma {:induction false} PollFromRuns(s: Sched, i: int, o: HookOracle, fixed: bool)
    requires Valid(s) && -1 <= i < |s.cmds| && RanFrom(s)
    ensures RanFrom(PollFrom(s, i, o, fixed))
    decreases i + 1
  {
    if i >= s.numHooks {
      PollOneRuns(s, i, o, fixed);
      PollFromRuns(PollOne(s, i, o, fixed), i - 1, o, fixed);
    }
  }

  /** The spawning loop starts the hooks `num_hooks - 1` down to 0, one each, and runs them all. */
  lemma {:induction false} SpawnOrder(s: Sched, jobs: int, o: HookOracle, fixed: bool, fuel: nat)
    requires Valid(s) && RanFrom(s)
    ensures var r := Spawn(s, jobs, o, fixed, fuel);
            r.Some? ==> r.value.started == s.started + Desc(s.numHooks) && RanFrom(r.value)
    decreases fuel, s.numHooks
  {
    if s.numHooks == 0 {
      assert s.started + Desc(0) == s.started;
    } else if s.running < jobs {
      var t := Start(s, o);
      SpawnOrder(t, jobs, o, fixed, fuel);
      assert t.started + Desc(t.numHooks) == s.started + Desc(s.numHooks);
    } else if fuel > 0 {
      PollFromRuns(s, |s.cmds| - 1, o, fixed);
      SpawnOrder(PollFrom(s, |s.cmds| - 1, o, fixed), jobs, o, fixed, fuel - 1);
    }
  }

  /** The final loop waits hook `i` and every later hook once, in index order. */
  lemma {:induction false} WaitAllWaits(s: Sched, i: nat, o: HookOracle, fixed: bool)
    requires Valid(s) && i <= |s.cmds|
    ensures var r := WaitAll(s, i, o, fixed);
            |r.results| == |s.results| + |s.cmds| - i && r.results[..|s.results|] == s.results &&
            forall k :: 0 <= k < |s.cmds| ==> (r.waited[k] <==> k >= i || s.waited[k])
    decreases |s.cmds| - i
  {
    if i < |s.cmds| {
      var t := WaitHook(s, i, o, fixed);
      WaitAllWaits(t, i + 1, o, fixed);
      var r := WaitAll(t, i + 1, o, fixed);
      assert r.results[..|s.results|] == r.results[..|t.results|][..|s.results|];
    }
  }

  /** Once every hook has been started and waited, each one has run and been waited. */
  lemma StartsAndWaitsAll(hooks: seq<string>, jobs: int, o: HookOracle, fixed: bool, fuel: nat)
    ensures var r := Finish(hooks, jobs, o, fixed, fuel);
            r.Some? ==> r.value.started == Desc(|hooks|) && |r.value.results| >= |hooks| &&
                        forall k :: 0 <= k < |hooks| ==> r.value.cmds[k].ran && r.value.waited[k]
  {
    var s := Initial(hooks);
    SpawnOrder(s, jobs, o, fixed, fuel);
    match Spawn(s, jobs, o, fixed, fuel)
    case None =>
    case Some(t) =>
      WaitAllWaits(t, 0, o, fixed);
      WaitAllRuns(t, 0, o, fixed);
  }

  lemma {:induction false} WaitAllRuns(s: Sched, i: nat, o: HookOracle, fixed: bool)
    requires Valid(s) && i <= |s.cmds| && RanFrom(s)
    ensures RanFrom(WaitAll(s, i, o, fixed))
    decreases |s.cmds| - i
  {
    if i < |s.cmds| {
      WaitAllRuns(WaitHook(s, i, o, fixed), i + 1, o, fixed);
    }
  }

  /** `status` is the or of every `wait` result so far. */
  predicate Aggregates(s: Sched) {
    s.status == OrAll(s.results)
  }

  lemma WaitHookAggregates(s: Sched, i: nat, o: HookOracle, fixed: bool)
    requires Valid(s) && i < |s.cmds| && Aggregates(s)
    ensures Aggregates(WaitHook(s, i, o, fixed))
  {
    var r := WaitHook(s, i, o, fixed);
    assert r.results[..|r.results| - 1] == s.results;
  }

  lemma PollOneAggregates(s: Sched, i: nat, o: HookOracle, fixed: bool)
    requires Valid(s) && i < |s.cmds| && Aggregates(s)
    ensures Aggregates(PollOne(s, i, o, fixed))
  {
    var (answer, os) := Probe(s.cmds[i], i, s.os, o, fixed);
    WaitHookAggregates(s.(os := os), i, o, fixed);
  }

  lemma {:induction false} PollFromAggregates(s: Sched, i: int, o: HookOracle, fixed: bool)
    requires Valid(s) && -1 <= i < |s.cmds| && Aggregates(s)
    ensures Aggregates(PollFrom(s, i, o, fixed))
    decreases i + 1
  {
    if i >= s.numHooks {
      PollOneAggregates(s, i, o, fixed);
      PollFromAggregates(PollOne(s, i, o, fixed), i - 1, o, fixed);
    }
  }

  lemma {:induction false} SpawnAggregates(s: Sched, jobs: int, o: HookOracle, fixed: bool, fuel: nat)
    requires Valid(s) && Aggregates(s)
    ensures var r := Spawn(s, jobs, o, fixed, fuel); r.Some? ==> Aggregates(r.value)
    decreases fuel, s.numHooks
  {
    if s.numHooks > 0 {
      if s.running < jobs {
        SpawnAggregates(Start(s, o), jobs, o, fixed, fuel);
      } else if fuel > 0 {
        PollFromAggregates(s, |s.cmds| - 1, o, fixed);
        SpawnAggregates(PollFrom(s, |s.cmds| - 1, o, fixed), jobs, o, fixed, fuel - 1);
      }
    }
  }

  lemma {:induction false} WaitAllAggregates(s: Sched, i: nat, o: HookOracle, fixed: bool)
    requires Valid(s) && i <= |s.cmds| && Aggregates(s)
    ensures Aggregates(WaitAll(s, i, o, fixed))
    decreases |s.cmds| - i
  {
    if i < |s.cmds| {
      WaitHookAggregates(s, i, o, fixed);
      WaitAllAggregates(WaitHook(s, i, o, fixed), i + 1, o, fixed);
    }
  }

  /**
   * `run_hooks` returns true exactly when no `wait` result was -1 and some
   * was positive: -1 absorbs every other result, and the or of results
   * between 0 and 255 is positive exactly when one of them is.
   */
  lemma ResultIsOr(hooks: seq<string>, jobs: int, o: HookOracle, fixed: bool, fuel: nat)
    ensures var r := Finish(hooks, jobs, o, fixed, fuel);
            r.Some? ==> r.value.status == OrAll(r.value.results) &&
                        (RunHooksSpec(hooks, jobs, o, fixed, fuel).result <==>
                         -1 !in r.value.results && exists k :: 0 <= k < |r.value.results| && r.value.results[k] > 0)
  {
    SpawnAggregates(Initial(hooks), jobs, o, fixed, fuel);
    match Spawn(Initial(hooks), jobs, o, fixed, fuel)
    case None =>
    case Some(t) =>
      WaitAllAggregates(t, 0, o, fixed);
      OrAllPositive(WaitAll(t, 0, o, fixed).results);
  }

  // ---------------------------------------------------------------------------
  // Corrected: at most `jobs` hooks run at once
  // ---------------------------------------------------------------------------

  /**
   * The corrected scheduler's count is right: `running_children` is the
   * number of started hooks not yet waited, a hook has been waited exactly
   * when it has `exited`, no unstarted hook has been waited, and at every
   * start fewer than `jobs` hooks were running.
   */
  predicate Counts(s: Sched, jobs: int)
    requires Valid(s)
  {
    && s.running == Pending(s.waited, s.numHooks)
    && (forall k :: 0 <= k < |s.cmds| ==> (s.waited[k] <==> s.cmds[k].exited))
    && (forall k :: 0 <= k < s.numHooks ==> !s.waited[k])
    && (forall k :: 0 <= k < |s.pendingAtStart| ==> s.pendingAtStart[k] < jobs)
  }

  /** Marking an unwaited hook as waited lowers the count by one. */
  lemma {:induction false} PendingWait(waited: seq<bool>, lo: nat, i: nat)
    requires lo <= i < |waited| && !waited[i]
    ensures Pending(waited[i := true], lo) == Pending(waited, lo) - 1
    decreases |waited| - lo
  {
    if lo < i {
      PendingWait(waited, lo + 1, i);
    } else {
      PendingSame(waited[i := true], waited, lo + 1);
    }
  }

  /** The count from `lo` on depends only on the hooks from `lo` on. */
  lemma {:induction false} PendingSame(a: seq<bool>, b: seq<bool>, lo: nat)
    requires lo <= |a| == |b| && forall k :: lo <= k < |a| ==> a[k] == b[k]
    ensures Pending(a, lo) == Pending(b, lo)
    decreases |a| - lo
  {
    if lo < |a| {
      PendingSame(a, b, lo + 1);
    }
  }

  lemma StartCounts(s: Sched, jobs: int, o: HookOracle)
    requires Valid(s) && s.numHooks > 0 && s.running < jobs && Counts(s, jobs)
    ensures Counts(Start(s, o), jobs)
  {
  }

  lemma PollOneCounts(s: Sched, i: nat, o: HookOracle, jobs: int)
    requires Valid(s) && s.numHooks <= i < |s.cmds| && Counts(s, jobs)
    ensures Counts(PollOne(s, i, o, true), jobs)
  {
    if !s.cmds[i].exited {
      PendingWait(s.waited, s.numHooks, i);
    }
  }

  lemma {:induction false} PollFromCounts(s: Sched, i: int, o: HookOracle, jobs: int)
    requires Valid(s) && -1 <= i < |s.cmds| && Counts(s, jobs)
    ensures Counts(PollFrom(s, i, o, true), jobs)
    decreases i + 1
  {
    if i >= s.numHooks {
      PollOneCounts(s, i, o, jobs);
      PollFromCounts(PollOne(s, i, o, true), i - 1, o, jobs);
    }
  }

  lemma {:induction false} SpawnCounts(s: Sched, jobs: int, o: HookOracle, fuel: nat)
    requires Valid(s) && Counts(s, jobs)
    ensures var r := Spawn(s, jobs, o, true, fuel); r.Some? ==> Counts(r.value, jobs)
    decreases fuel, s.numHooks
  {
    if s.numHooks > 0 {
      if s.running < jobs {
        StartCounts(s, jobs, o);
        SpawnCounts(Start(s, o), jobs, o, fuel);
      } else if fuel > 0 {
        PollFromCounts(s, |s.cmds| - 1, o, jobs);
        SpawnCounts(PollFrom(s, |s.cmds| - 1, o, true), jobs, o, fuel - 1);
      }
    }
  }

  /** Corrected, every hook starts while fewer than `jobs` started hooks are unwaited. */
  lemma FixedRespectsJobs(hooks: seq<string>, jobs: int, o: HookOracle, fuel: nat)
    ensures var r := Finish(hooks, jobs, o, true, fuel);
            r.Some? ==> forall k :: 0 <= k < |r.value.pendingAtStart| ==> r.value.pendingAtStart[k] < jobs
  {
    SpawnCounts(Initial(hooks), jobs, o, fuel);
  }

  // ---------------------------------------------------------------------------
  // Corrected: the result reports every hook's own exit
  // ---------------------------------------------------------------------------

  /** The results hooks `0` to `n - 1` should give. */
  function Codes(o: HookOracle, n: nat): set<Code> {
    set k | 0 <= k < n :: CodeOf(o, k)
  }

  /**
   * In the corrected scheduler every waited hook has cached its own code and
   * that code is among the results; an unwaited hook has not exited, its
   * process has not been reaped and it has failed only if its `fork` did;
   * every result so far is the code of some hook.
   */
  predicate Reports(s: Sched, o: HookOracle)
    requires Valid(s)
  {
    && RanFrom(s)
    && (forall k :: 0 <= k < |s.cmds| && s.waited[k] ==>
          s.cmds[k].exited && s.cmds[k].exitCode == CodeOf(o, k) && CodeOf(o, k) in s.results)
    && (forall k :: 0 <= k < |s.cmds| && !s.waited[k] ==>
          !s.cmds[k].exited && k !in s.os.reaped && (s.cmds[k].failed <==> s.cmds[k].ran && o.fork(k).ForkFailed?))
    && (forall j :: 0 <= j < |s.results| ==> s.results[j] in Codes(o, |s.cmds|))
  }

  lemma StartReports(s: Sched, o: HookOracle)
    requires Valid(s) && s.numHooks > 0 && Reports(s, o)
    ensures Reports(Start(s, o), o)
  {
  }

  /** Waiting a started hook, corrected, records exactly that hook's code. */
  lemma WaitHookReports(s: Sched, i: nat, o: HookOracle)
    requires Valid(s) && i < |s.cmds| && s.cmds[i].ran && Reports(s, o)
    ensures var r := WaitHook(s, i, o, true);
            Reports(r, o) && r.results == s.results + [CodeOf(o, i)]
  {
    var r := WaitHook(s, i, o, true);
    assert r.results[|s.results|] == CodeOf(o, i);
    assert CodeOf(o, i) in Codes(o, |s.cmds|);
  }

  lemma PollOneReports(s: Sched, i: nat, o: HookOracle)
    requires Valid(s) && s.numHooks <= i < |s.cmds| && Reports(s, o)
    ensures Reports(PollOne(s, i, o, true), o)
  {
    if !s.cmds[i].exited {
      var (answer, os) := Probe(s.cmds[i], i, s.os, o, true);
      assert os.reaped == s.os.reaped;
      WaitHookReports(s.(os := os), i, o);
    }
  }

  lemma {:induction false} PollFromReports(s: Sched, i: int, o: HookOracle)
    requires Valid(s) && -1 <= i < |s.cmds| && Reports(s, o)
    ensures Reports(PollFrom(s, i, o, true), o)
    decreases i + 1
  {
    if i >= s.numHooks {
      PollOneReports(s, i, o);
      PollFromReports(PollOne(s, i, o, true), i - 1, o);
    }
  }

  lemma {:induction false} SpawnReports(s: Sched, jobs: int, o: HookOracle, fuel: nat)
    requires Valid(s) && Reports(s, o)
    ensures var r := Spawn(s, jobs, o, true, fuel); r.Some? ==> Reports(r.value, o)
    decreases fuel, s.numHooks
  {
    if s.numHooks > 0 {
      if s.running < jobs {
        StartReports(s, o);
        SpawnReports(Start(s, o), jobs, o, fuel);
      } else if fuel > 0 {
        PollFromReports(s, |s.cmds| - 1, o);
        SpawnReports(PollFrom(s, |s.cmds| - 1, o, true), jobs, o, fuel - 1);
      }
    }
  }

  lemma {:induction false} WaitAllReports(s: Sched, i: nat, o: HookOracle)
    requires Valid(s) && i <= |s.cmds| && s.numHooks == 0 && Reports(s, o)
    ensures Reports(WaitAll(s, i, o, true), o)
    decreases |s.cmds| - i
  {
    if i < |s.cmds| {
      WaitHookReports(s, i, o);
      WaitAllReports(WaitHook(s, i, o, true), i + 1, o);
    }
  }

  /**
   * Corrected, `run_hooks` returns true exactly when no hook's `fork` or
   * `wait` failed and some hook's process exited with a nonzero status or
   * was killed by a signal.
   */
  lemma FixedReportsFailures(hooks: seq<string>, jobs: int, o: HookOracle, fuel: nat)
    ensures var r := RunHooksSpec(hooks, jobs, o, true, fuel);
            r.Finished? ==> (r.result <==> (forall k :: 0 <= k < |hooks| ==> CodeOf(o, k) != -1) &&
                                           exists k :: 0 <= k < |hooks| && CodeOf(o, k) > 0)
  {
    var s := Initial(hooks);
    SpawnReports(s, jobs, o, fuel);
    ResultIsOr(hooks, jobs, o, true, fuel);
    match Spawn(s, jobs, o, true, fuel)
    case None =>
    case Some(t) =>
      WaitAllReports(t, 0, o);
      WaitAllWaits(t, 0, o, true);
      var u := WaitAll(t, 0, o, true);
      assert forall k :: 0 <= k < |hooks| ==> CodeOf(o, k) in u.results;
      SameCodes(u.results, o, |hooks|);
  }

  /** Results that are exactly the codes of hooks `0` to `n - 1` hold a -1, or a positive value, exactly when some hook's code does. */
  lemma SameCodes(rs: seq<Code>, o: HookOracle, n: nat)
    requires forall j :: 0 <= j < |rs| ==> rs[j] in Codes(o, n)
    requires forall k :: 0 <= k < n ==> CodeOf(o, k) in rs
    ensures -1 in rs <==> exists k :: 0 <= k < n && CodeOf(o, k) == -1
    ensures (exists j :: 0 <= j < |rs| && rs[j] > 0) <==> exists k :: 0 <= k < n && CodeOf(o, k) > 0
  {
    if -1 in rs {
      var j :| 0 <= j < |rs| && rs[j] == -1;
      assert rs[j] in Codes(o, n);
    }
    if exists j :: 0 <= j < |rs| && rs[j] > 0 {
      var j :| 0 <= j < |rs| && rs[j] > 0;
      assert rs[j] in Codes(o, n);
    }
    if exists k :: 0 <= k < n && CodeOf(o, k) > 0 {
      var k :| 0 <= k < n && CodeOf(o, k) > 0;
      assert CodeOf(o, k) in rs;
    }
  }

  // ---------------------------------------------------------------------------
  // The code as written, on concrete runs
  // ---------------------------------------------------------------------------

  /**
   * A still-running hook is reported as exited: its probe leaves the status
   * word 0. Corrected, the answer is whether the process has terminated.
   */
  lemma RunningHookReportedExited(c: Cmd, i: nat, os: Os, o: HookOracle)
    requires !c.failed && i !in os.reaped && !o.done(os.probes)
    ensures Probe(c, i, os, o, false).0 && !Probe(c, i, os, o, true).0
  {
  }

  /**
   * Two hooks that start fine; the later one's child exits with status 1,
   * and every probe finds its process terminated.
   */
  function QuickFailure(): HookOracle {
    HookOracle(k => Forked(100), q => true, k => if k == 1 then Exited(1) else Exited(0))
  }

  /**
   * As written, the probe reaps hook 1 and drops its status, the later
   * `wait` reads 0, and `run_hooks` returns false although hook 1 failed.
   * Corrected, it returns true. Hook 1's child exits with status 1 when its
   * shell is killed by signal 1 (`SIGHUP`), or, with the child corrected,
   * when its command exits with status 1.
   */
  lemma LostExitStatus()
    ensures CodeOf(QuickFailure(), 1) == 1
    ensures QuickFailure().status(1) == ChildStatus(ShellSignaled(1), false) == ChildStatus(ShellExited(1), true)
    ensures RunHooksSpec(["a", "b"], 1, QuickFailure(), false, 1) == Finished(false)
    ensures RunHooksSpec(["a", "b"], 1, QuickFailure(), true, 1) == Finished(true)
  {
    QuickFailureWritten();
    QuickFailureFixed();
  }

  /** Waiting hook `i` leaves every other hook's command as it was. */
  lemma WaitHookOthers(s: Sched, i: nat, j: nat, o: HookOracle, fixed: bool)
    requires Valid(s) && i < |s.cmds| && j < |s.cmds| && i != j
    ensures WaitHook(s, i, o, fixed).cmds[j] == s.cmds[j]
  {
  }

  /** As written, hook 1 is waited after its probe has reaped it, and every `wait` reads 0. */
  lemma QuickFailureWritten()
    ensures var r := Finish(["a", "b"], 1, QuickFailure(), false, 1);
            r.Some? && r.value.status == 0
  {
    var o := QuickFailure();
    var s2 := QuickFailureSpawn(false);
    WaitAllStep(s2, 0, o, false);
    var b := WaitHook(s2, 0, o, false);
    WaitHookOthers(s2, 0, 1, o, false);
    assert b.status == s2.status && 1 in b.os.reaped;
    WaitAllStep(b, 1, o, false);
    var c := WaitHook(b, 1, o, false);
    assert c.status == s2.status;
  }

  /** Corrected, hook 1's `wait` reads its status 1, and its cached code is read again by the final loop. */
  lemma QuickFailureFixed()
    ensures var r := Finish(["a", "b"], 1, QuickFailure(), true, 1);
            r.Some? && r.value.status == 1
  {
    var o := QuickFailure();
    var s2 := QuickFailureSpawn(true);
    WaitAllStep(s2, 0, o, true);
    var b := WaitHook(s2, 0, o, true);
    WaitHookOthers(s2, 0, 1, o, true);
    assert b.status == s2.status && 1 in b.os.reaped;
    WaitAllStep(b, 1, o, true);
    var c := WaitHook(b, 1, o, true);
    assert c.status == s2.status;
  }

  /** The spawning loop on `QuickFailure`: as written, the probe of hook 1 reaps it and its `wait` reads 0. */
  lemma QuickFailureSpawn(fixed: bool) returns (s2: Sched)
    ensures Spawn(Initial(["a", "b"]), 1, QuickFailure(), fixed, 1) == Some(s2)
    ensures Valid(s2) && |s2.cmds| == 2 && s2.status == (if fixed then 1 else 0)
    ensures s2.cmds[0] == RunCmd(NewCmd("a"), Forked(100)) && s2.cmds[1].exited == fixed
    ensures 1 in s2.os.reaped && !s2.cmds[1].failed && s2.cmds[1].exitCode == s2.status
  {
    var o := QuickFailure();
    var s0 := Initial(["a", "b"]);
    SpawnStarts(s0, 1, o, fixed, 1);
    var s1 := Start(s0, o);
    SpawnPolls(s1, 1, o, fixed, 1);
    PollFromStep(s1, 1, o, fixed);
    var a := PollOne(s1, 1, o, fixed);
    assert a.running == 0 && a.status == (if fixed then 1 else 0);
    SpawnStarts(a, 1, o, fixed, 0);
    s2 := Start(a, o);
  }

  /** Hooks that start fine and exit with status 0, none of them terminated when probed. */
  function SlowHooks(): HookOracle {
    HookOracle(k => Forked(100), q => false, k => Exited(0))
  }

  /**
   * As written, with `jobs` 1 the second polling round waits hook 3 a
   * second time and counts it down again, so hooks 1 and 0 are started one
   * after the other without a wait: when hook 0 starts, hook 1 is still
   * running. Corrected, no start sees a running hook.
   */
  lemma DoubleWaitOverrunsJobs()
    ensures var r := Finish(["a", "b", "c", "d"], 1, SlowHooks(), false, 2);
            r.Some? && r.value.pendingAtStart == [0, 0, 0, 1]
  {
    var o := SlowHooks();
    var s0 := Initial(["a", "b", "c", "d"]);
    SpawnStarts(s0, 1, o, false, 2);
    var s1 := Start(s0, o);
    assert s1.running == 1 && s1.pendingAtStart == [0];
    var s2 := FirstRound(s1);
    SpawnPolls(s1, 1, o, false, 2);
    SpawnStarts(PollFrom(s1, 3, o, false), 1, o, false, 1);
    assert s2.running == 1 && s2.pendingAtStart == [0, 0];
    var s3 := SecondRound(s2);
    SpawnPolls(s2, 1, o, false, 1);
    SpawnStarts(s3, 1, o, false, 0);
    assert Start(s3, o).numHooks == 0;
  }

  /** The first polling round waits and reaps hook 3; then hook 2 starts. */
  lemma FirstRound(s1: Sched) returns (s2: Sched)
    requires s1 == Start(Initial(["a", "b", "c", "d"]), SlowHooks())
    ensures s2 == Start(PollFrom(s1, 3, SlowHooks(), false), SlowHooks())
    ensures Valid(s2) && s2.numHooks == 2 && s2.running == 1 && s2.pendingAtStart == [0, 0]
    ensures s2.waited == [false, false, false, true] && s2.os.reaped == {3}
    ensures forall k :: 0 <= k < 4 ==> !s2.cmds[k].failed && !s2.cmds[k].exited
  {
    var o := SlowHooks();
    PollFromStep(s1, 3, o, false);
    var a := PollOne(s1, 3, o, false);
    assert a.running == 0 && a.os.reaped == {3} && a.waited == [false, false, false, true];
    assert Pending(a.waited, 3) == 0;
    s2 := Start(a, o);
  }

  /** The second polling round waits hook 3 again and hook 2, counting down twice; then hook 1 starts. */
  lemma SecondRound(s2: Sched) returns (s3: Sched)
    requires Valid(s2) && |s2.cmds| == 4 && s2.numHooks == 2 && s2.running == 1 && s2.pendingAtStart == [0, 0]
    requires s2.waited == [false, false, false, true] && s2.os.reaped == {3}
    requires forall k :: 0 <= k < 4 ==> !s2.cmds[k].failed && !s2.cmds[k].exited
    ensures s3 == Start(PollFrom(s2, 3, SlowHooks(), false), SlowHooks())
    ensures Valid(s3) && s3.numHooks == 1 && s3.running == 0 && s3.pendingAtStart == [0, 0, 0]
    ensures s3.waited == [false, false, true, true]
    ensures Start(s3, SlowHooks()).pendingAtStart == [0, 0, 0, 1]
  {
    var o := SlowHooks();
    PollFromStep(s2, 3, o, false);
    var b := PollOne(s2, 3, o, false);
    assert b.running == 0 && b.os.reaped == {3} && b.waited == s2.waited;
    PollFromStep(b, 2, o, false);
    var c := PollOne(b, 2, o, false);
    assert c.running == -1 && c.waited == [false, false, true, true];
    assert Pending(c.waited, 3) == 0 && Pending(c.waited, 2) == 0;
    s3 := Start(c, o);
    assert Pending(s3.waited, 1) == 1;
  }

  // ---------------------------------------------------------------------------
  // `run_hooks`, as written
  // ---------------------------------------------------------------------------

  predicate Distinct(objs: seq<SystemCommand>) {
    forall a, b :: 0 <= a < |objs| && 0 <= b < |objs| && a != b ==> objs[a] != objs[b]
  }

  /** The objects hold the commands of `s`, in order. */
  predicate Mirrors(objs: seq<SystemCommand>, s: Sched)
    reads objs
  {
    |objs| == |s.cmds| && forall k {:trigger objs[k]} :: 0 <= k < |objs| ==> objs[k].State() == s.cmds[k]
  }

  /** `hooks` is passed by value: `run_hooks` works on fresh copies of never-run commands. */
  method CopyHooks(hooks: seq<string>) returns (objs: seq<SystemCommand>)
    ensures |objs| == |hooks| && Distinct(objs)
    ensures forall k :: 0 <= k < |objs| ==> fresh(objs[k]) && objs[k].State() == NewCmd(hooks[k])
  {
    objs := [];
    for k := 0 to |hooks|
      invariant |objs| == k && Distinct(objs)
      invariant forall j :: 0 <= j < k ==> fresh(objs[j]) && objs[j].State() == NewCmd(hooks[j])
    {
      var c := new SystemCommand(hooks[k]);
      objs := objs + [c];
    }
  }

  /** `hooks[i].wait()` together with the blocking `waitpid` it makes. */
  method WaitOn(h: SystemCommand, i: nat, o: HookOracle, os: Os) returns (code: Code, os': Os)
    modifies h
    ensures var (w, after) := WaitPid(old(h.State()), i, os, o);
            (h.State(), code) == WaitCmd(old(h.State()), w) && os' == after
  {
    var asked := WaitPid(h.State(), i, os, o);
    os' := asked.1;
    code := h.Wait(asked.0);
  }

  /** `hooks[--num_hooks].run()`, with `num_hooks` already decremented to `i`. */
  method RunAt(objs: seq<SystemCommand>, i: nat, o: HookOracle, s: Sched) returns (s': Sched)
    requires Valid(s) && Distinct(objs) && Mirrors(objs, s) && i + 1 == s.numHooks
    modifies objs
    ensures s' == Start(s, o) && Mirrors(objs, s')
  {
    objs[i].Run(o.fork(i));
    s' := Start(s, o);
  }

  /** The polling `for` loop of `run_hooks`: wait every started hook whose process has exited. */
  method PollRound(objs: seq<SystemCommand>, numHooks: int, o: HookOracle,
                   running: int, status: Code, os: Os, s: Sched)
    returns (running': int, status': Code, os': Os, s': Sched)
    requires Valid(s) && Distinct(objs) && Mirrors(objs, s) && numHooks == s.numHooks
    requires running == s.running && status == s.status && os == s.os
    modifies objs
    ensures s' == PollFrom(s, |s.cmds| - 1, o, false) && Mirrors(objs, s')
    ensures running' == s'.running && status' == s'.status && os' == s'.os
  {
    running', status', os', s' := running, status, os, s;
    var goal := PollFrom(s, |s.cmds| - 1, o, false);
    var i := |objs| - 1;
    while i >= numHooks
      invariant numHooks - 1 <= i < |objs|
      invariant Valid(s') && Mirrors(objs, s') && numHooks == s'.numHooks
      invariant running' == s'.running && status' == s'.status && os' == s'.os
      invariant PollFrom(s', i, o, false) == goal
      decreases i + 1
    {
      running', status', os', s' := PollAt(objs, i, o, running', status', os', s', goal);
      i := i - 1;
    }
    assert PollFrom(s', i, o, false) == s';
  }

  /** The body of the polling loop: wait hook `i` if its process has exited. */
  method PollAt(objs: seq<SystemCommand>, i: nat, o: HookOracle,
                running: int, status: Code, os: Os, s: Sched, goal: Sched)
    returns (running': int, status': Code, os': Os, s': Sched)
    requires Valid(s) && Distinct(objs) && Mirrors(objs, s) && s.numHooks <= i < |objs|
    requires running == s.running && status == s.status && os == s.os
    requires PollFrom(s, i, o, false) == goal
    modifies objs
    ensures Valid(s') && Mirrors(objs, s') && s'.numHooks == s.numHooks
    ensures running' == s'.running && status' == s'.status && os' == s'.os
    ensures PollFrom(s', i - 1, o, false) == goal
  {
    var answer := Probe(objs[i].State(), i, os, o, false);
    os' := answer.1;
    running', status', s' := running, status, s.(os := os');
    if answer.0 {
      var code;
      code, os' := WaitOn(objs[i], i, o, os');
      status' := Or(status', code);
      running' := running' - 1;
      s' := WaitHook(s', i, o, false).(running := s'.running - 1);
    }
    PollFromStep(s, i, o, false);
  }

  /** The final `for` loop of `run_hooks`: wait every hook, from index 0 up. */
  method WaitEvery(objs: seq<SystemCommand>, o: HookOracle, status: Code, os: Os, s: Sched)
    returns (status': Code, s': Sched)
    requires Valid(s) && Distinct(objs) && Mirrors(objs, s)
    requires status == s.status && os == s.os
    modifies objs
    ensures s' == WaitAll(s, 0, o, false) && status' == s'.status
  {
    status', s' := status, s;
    var goal := WaitAll(s, 0, o, false);
    var os' := os;
    for i := 0 to |objs|
      invariant Valid(s') && Mirrors(objs, s')
      invariant status' == s'.status && os' == s'.os
      invariant WaitAll(s', i, o, false) == goal
    {
      status', os', s' := WaitAt(objs, i, o, status', os', s', goal);
    }
  }

  /** The body of the final loop: `status |= hooks[i].wait()`. */
  method WaitAt(objs: seq<SystemCommand>, i: nat, o: HookOracle, status: Code, os: Os,
                s: Sched, goal: Sched)
    returns (status': Code, os': Os, s': Sched)
    requires Valid(s) && Distinct(objs) && Mirrors(objs, s) && i < |objs|
    requires status == s.status && os == s.os && WaitAll(s, i, o, false) == goal
    modifies objs
    ensures Valid(s') && Mirrors(objs, s') && status' == s'.status && os' == s'.os
    ensures WaitAll(s', i + 1, o, false) == goal
  {
    var code;
    code, os' := WaitOn(objs[i], i, o, os);
    status' := Or(status, code);
    s' := WaitHook(s, i, o, false);
    WaitAllStep(s, i, o, false);
  }

  /** A turn of the final loop: hook `i` is waited, then the rest. */
  lemma WaitAllStep(s: Sched, i: nat, o: HookOracle, fixed: bool)
    requires Valid(s) && i < |s.cmds|
    ensures WaitAll(s, i, o, fixed) == WaitAll(WaitHook(s, i, o, fixed), i + 1, o, fixed)
  {
  }

  /** A turn of the polling loop: hook `i` is probed, then the rest. */
  lemma PollFromStep(s: Sched, i: nat, o: HookOracle, fixed: bool)
    requires Valid(s) && s.numHooks <= i < |s.cmds|
    ensures PollFrom(s, i, o, fixed) == PollFrom(PollOne(s, i, o, fixed), i - 1, o, fixed)
  {
  }

  /** A starting turn of the spawning loop: the next hook is started, then the rest. */
  lemma SpawnStarts(s: Sched, jobs: int, o: HookOracle, fixed: bool, fuel: nat)
    requires Valid(s) && s.numHooks > 0 && s.running < jobs
    ensures Spawn(s, jobs, o, fixed, fuel) == Spawn(Start(s, o), jobs, o, fixed, fuel)
  {
  }

  /** A polling turn of the spawning loop: one polling round, then the rest. */
  lemma SpawnPolls(s: Sched, jobs: int, o: HookOracle, fixed: bool, fuel: nat)
    requires Valid(s) && s.numHooks > 0 && s.running >= jobs && fuel > 0
    ensures Spawn(s, jobs, o, fixed, fuel) == Spawn(PollFrom(s, |s.cmds| - 1, o, fixed), jobs, o, fixed, fuel - 1)
  {
  }

  /** A turn of the `while (num_hooks > 0)` loop that starts `hooks[--num_hooks]`. */
  method StartTurn(objs: seq<SystemCommand>, jobs: int, o: HookOracle, numHooks: int, running: int,
                   left: nat, s: Sched, goal: Option<Sched>)
    returns (numHooks': int, running': int, s': Sched)
    requires Valid(s) && Distinct(objs) && Mirrors(objs, s) && numHooks > 0
    requires numHooks == s.numHooks && running == s.running && running < jobs
    requires Spawn(s, jobs, o, false, left) == goal
    modifies objs
    ensures Valid(s') && Mirrors(objs, s') && Spawn(s', jobs, o, false, left) == goal
    ensures numHooks' == s'.numHooks == numHooks - 1 && running' == s'.running
    ensures s'.status == s.status && s'.os == s.os
  {
    numHooks' := numHooks - 1;
    s' := RunAt(objs, numHooks', o, s);
    SpawnStarts(s, jobs, o, false, left);
    running' := running + 1;
  }

  /** A turn of the `while (num_hooks > 0)` loop that polls the running hooks. */
  method PollTurn(objs: seq<SystemCommand>, jobs: int, o: HookOracle, numHooks: int, running: int,
                  status: Code, os: Os, left: nat, s: Sched, goal: Option<Sched>)
    returns (running': int, status': Code, os': Os, s': Sched)
    requires Valid(s) && Distinct(objs) && Mirrors(objs, s) && numHooks > 0
    requires numHooks == s.numHooks && running == s.running && status == s.status && os == s.os
    requires running >= jobs && left > 0
    requires Spawn(s, jobs, o, false, left) == goal
    modifies objs
    ensures Valid(s') && Mirrors(objs, s') && Spawn(s', jobs, o, false, left - 1) == goal
    ensures numHooks == s'.numHooks && running' == s'.running && status' == s'.status && os' == s'.os
  {
    running', status', os', s' := PollRound(objs, numHooks, o, running, status, os, s);
    SpawnPolls(s, jobs, o, false, left);
  }

  /** One turn of the `while (num_hooks > 0)` loop. */
  method Turn(objs: seq<SystemCommand>, jobs: int, o: HookOracle, numHooks: int, running: int,
              status: Code, os: Os, left: nat, s: Sched, goal: Option<Sched>)
    returns (numHooks': int, running': int, status': Code, os': Os, left': nat, s': Sched)
    requires Valid(s) && Distinct(objs) && Mirrors(objs, s) && numHooks > 0
    requires numHooks == s.numHooks && running == s.running && status == s.status && os == s.os
    requires running < jobs || left > 0
    requires Spawn(s, jobs, o, false, left) == goal
    modifies objs
    ensures Valid(s') && Mirrors(objs, s') && Spawn(s', jobs, o, false, left') == goal
    ensures numHooks' == s'.numHooks && running' == s'.running && status' == s'.status && os' == s'.os
    ensures left' < left || (left' == left && numHooks' < numHooks)
  {
    if running < jobs {
      numHooks', running', s' := StartTurn(objs, jobs, o, numHooks, running, left, s, goal);
      status', os', left' := status, os, left;
    } else {
      running', status', os', s' := PollTurn(objs, jobs, o, numHooks, running, status, os, left, s, goal);
      numHooks', left' := numHooks, left - 1;
    }
  }

  /** The `while (num_hooks > 0)` loop of `run_hooks`. */
  method SpawnLoop(objs: seq<SystemCommand>, jobs: int, o: HookOracle, fuel: nat, s0: Sched)
    returns (done: bool, status: Code, os: Os, s: Sched)
    requires Valid(s0) && Distinct(objs) && Mirrors(objs, s0)
    requires s0.numHooks == |s0.cmds| && s0.running == 0 && s0.status == 0 && s0.os == Os(0, {})
    modifies objs
    ensures done <==> Spawn(s0, jobs, o, false, fuel).Some?
    ensures done ==> s == Spawn(s0, jobs, o, false, fuel).value
    ensures Valid(s) && Mirrors(objs, s) && status == s.status && os == s.os
  {
    var goal := Spawn(s0, jobs, o, false, fuel);
    s := s0;
    status, os := 0, Os(0, {});
    var numHooks := |objs|;
    var running := 0;
    var left := fuel;
    while numHooks > 0
      invariant Valid(s) && Mirrors(objs, s)
      invariant numHooks == s.numHooks && running == s.running && status == s.status && os == s.os
      invariant Spawn(s, jobs, o, false, left) == goal
      decreases left, numHooks
    {
      if running >= jobs && left == 0 {
        return false, status, os, s;
      }
      numHooks, running, status, os, left, s := Turn(objs, jobs, o, numHooks, running, status, os, left, s, goal);
    }
    done := true;
  }

  /** `Target::run_hooks`, as written. */
  method RunHooks(hooks: seq<string>, jobs: int, o: HookOracle, fuel: nat) returns (r: HookOutcome)
    ensures r == RunHooksSpec(hooks, jobs, o, false, fuel)
  {
    var objs := CopyHooks(hooks);
    var done, status, os, s := SpawnLoop(objs, jobs, o, fuel, Initial(hooks));
    if !done {
      return OutOfFuel;
    }
    status, s := WaitEvery(objs, o, status, os, s);
    r := Finished(status > 0);
  }
}
