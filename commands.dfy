/**
 * `Target::SystemCommand`: a small state machine over `failed`, `ran`,
 * `exited`, `exit_code` and `cpid`. What the operating system does (the
 * outcome of `fork`, the status word `waitpid` leaves) comes in as
 * parameters, and `ChildStatus` says what status word the child of `run`
 * leaves. Also the `|=` with which `run_hooks` collects `wait` results.
 */
module Commands {
  import opened Wrappers

  /** A process id as `fork` returns it to the parent. */
  type Pid = x: int | x > 0 witness 1
  /** `WEXITSTATUS` of a status word. */
  type ExitStatus = x: int | 0 <= x < 256
  /** `WTERMSIG` of a status word that `WIFSIGNALED` accepts. */
  type SignalNumber = x: int | 1 <= x < 127 witness 1
  /** What `wait` can return: -1, a signal number or an exit status. */
  type Code = x: int | -1 <= x < 256

  datatype ForkResult = Forked(pid: Pid) | ForkFailed

  /** The status word a blocking `waitpid` leaves: a normal exit, a death by signal, or neither. */
  datatype WaitStatus = Exited(code: ExitStatus) | Signaled(signal: SignalNumber) | Neither

  /** The fields of a `SystemCommand`. */
  datatype Cmd = Cmd(command: string, failed: bool, ran: bool, exited: bool, exitCode: Code, cpid: int)

  /** A freshly constructed command: nothing has happened to it yet. */
  function NewCmd(command: string): Cmd {
    Cmd(command, false, false, false, 0, -1)
  }

  /** `run` in the parent: it always records that it ran, and records a failed fork. */
  function RunCmd(c: Cmd, f: ForkResult): (r: Cmd)
    ensures r.ran
    ensures r.failed <==> c.failed || f.ForkFailed?
    ensures r.exited == c.exited && r.command == c.command
    ensures f.Forked? ==> r.cpid == f.pid
  {
    match f
    case ForkFailed => c.(ran := true, failed := true)
    case Forked(pid) => c.(ran := true, cpid := pid)
  }

  /** Whether `wait` asks the operating system: unless the code is cached or the fork failed. */
  predicate Asks(c: Cmd) {
    !c.exited && !c.failed
  }

  /**
   * `wait`: the cached code if `exited`, -1 if `failed`, otherwise the
   * signal number or exit status from `w`, or -1 (and `failed`) when the
   * status word shows neither.
   */
  function WaitCmd(c: Cmd, w: WaitStatus): (r: (Cmd, Code))
    ensures !c.exited ==> (r.1 == -1 <==> r.0.failed)
    ensures r.0.exited == c.exited && r.0.ran == c.ran && r.0.command == c.command
    ensures c.failed ==> r.0.failed
    ensures Asks(c) && w.Exited? ==> r.1 == w.code
    ensures Asks(c) && w.Signaled? ==> r.1 == w.signal
  {
    if c.exited then (c, c.exitCode)
    else if c.failed then (c.(exitCode := -1), -1)
    else match w
      case Signaled(s) => (c.(exitCode := s), s)
      case Exited(x) => (c.(exitCode := x), x)
      case Neither => (c.(failed := true, exitCode := -1), -1)
  }

  /** Nothing sets `exited`: a command that starts without it never has it, so `wait` never returns a cached code. */
  lemma ExitedNeverSet(c: Cmd, f: ForkResult, w: WaitStatus)
    requires !c.exited
    ensures !RunCmd(c, f).exited && !WaitCmd(c, w).0.exited
    ensures WaitCmd(c, w).1 == -1 ==> c.failed || w.Neither?
  {
  }

  /**
   * What `system(command)` comes back with in the child of `run`: the
   * shell exited with a status, was killed by a signal, or could not be
   * started.
   */
  datatype ShellResult = ShellExited(code: ExitStatus) | ShellSignaled(signal: SignalNumber) | SystemFailed

  /** The `int` that `system` returns: the shell's wait status, with its exit status in bits 8 to 15, or -1. */
  function SystemValue(s: ShellResult): int {
    match s
    case ShellExited(k) => k * 256
    case ShellSignaled(sig) => sig
    case SystemFailed => -1
  }

  /**
   * The status word the parent reads for the child of `run`, which ends
   * with `std::exit(system(command))`. As written, the child's exit status
   * is the low eight bits of what `system` returns, so every exit status
   * of the command becomes 0. Corrected, the child passes on the shell's
   * exit status, and otherwise exits as written.
   */
  function ChildStatus(s: ShellResult, fixed: bool): (r: WaitStatus)
    ensures r.Exited?
    ensures !fixed && s.ShellExited? ==> r.code == 0
    ensures fixed && s.ShellExited? ==> r.code == s.code
    ensures s.ShellSignaled? ==> r.code == s.signal
    ensures s.SystemFailed? ==> r.code == 255
  {
    if fixed && s.ShellExited? then Exited(s.code) else Exited(SystemValue(s) % 256)
  }

  /** As written, `wait` on a started command returns 0 whatever status its command exited with. */
  lemma CommandExitLost(command: string, pid: Pid, k: ExitStatus)
    ensures WaitCmd(RunCmd(NewCmd(command), Forked(pid)), ChildStatus(ShellExited(k), false)).1 == 0
    ensures ChildStatus(ShellExited(1), false) == ChildStatus(ShellExited(0), false)
  {
  }

  /** Corrected, `wait` on a started command returns the status its command exited with, 0 only for success. */
  lemma CommandExitKept(command: string, pid: Pid, k: ExitStatus)
    ensures WaitCmd(RunCmd(NewCmd(command), Forked(pid)), ChildStatus(ShellExited(k), true)).1 == k
    ensures ChildStatus(ShellExited(k), true) == ChildStatus(ShellExited(0), true) <==> k == 0
  {
  }

  class SystemCommand {
    var failed: bool
    var ran: bool
    var exited: bool
    var exitCode: Code
    var cpid: int
    var command: string

    function State(): Cmd
      reads this
    {
      Cmd(command, failed, ran, exited, exitCode, cpid)
    }

    constructor(command: string)
      ensures State() == NewCmd(command)
    {
      this.command := command;
      failed := false;
      ran := false;
      exited := false;
      exitCode := 0;
      cpid := -1;
    }

    /** `SystemCommand::run` in the parent, with the outcome of `fork` as a parameter; how the child exits is `ChildStatus`. */
    method Run(f: ForkResult)
      modifies this
      ensures State() == RunCmd(old(State()), f)
    {
      ran := true;
      match f
      case ForkFailed =>
        failed := true;
      case Forked(pid) =>
        cpid := pid;
    }

    /** `SystemCommand::wait`, with the status word `waitpid` leaves as a parameter. */
    method Wait(w: WaitStatus) returns (code: Code)
      modifies this
      ensures (State(), code) == WaitCmd(old(State()), w)
    {
      if exited {
        return exitCode;
      }
      if failed {
        exitCode := -1;
        return -1;
      }
      if w.Signaled? {
        exitCode := w.signal;
        return exitCode;
      }
      if w.Exited? {
        exitCode := w.code;
        return exitCode;
      }
      failed := true;
      exitCode := -1;
      return -1;
    }
  }

  // ---------------------------------------------------------------------------
  // The `|=` of the scheduler
  // ---------------------------------------------------------------------------

  function Pow2(n: nat): (r: nat)
    ensures r > 0
  {
    if n == 0 then 1 else 2 * Pow2(n - 1)
  }

  /** The bitwise or of the low `width` bits of `a` and `b`, lowest bit first. */
  function BitOr(a: nat, b: nat, width: nat): (r: nat)
    requires a < Pow2(width) && b < Pow2(width)
    ensures r < Pow2(width)
    ensures r == 0 <==> a == 0 && b == 0
    ensures a == 0 ==> r == b
    ensures b == 0 ==> r == a
    ensures a == b ==> r == a
  {
    if width == 0 then 0
    else (if a % 2 == 1 || b % 2 == 1 then 1 else 0) + 2 * BitOr(a / 2, b / 2, width - 1)
  }

  /**
   * `a | b` on two `int`s between -1 and 255: -1 has every bit set, so it
   * absorbs; otherwise only the low eight bits can be set.
   */
  function Or(a: Code, b: Code): (r: Code)
    ensures r == -1 <==> a == -1 || b == -1
    ensures r == 0 <==> a == 0 && b == 0
    ensures a == 0 ==> r == b
    ensures b == 0 ==> r == a
    ensures a == b ==> r == a
  {
    if a == -1 || b == -1 then -1 else BitOr(a, b, 8)
  }

  /** The scheduler's `status`: 0 or-ed with every result in order. */
  function OrAll(rs: seq<Code>): Code {
    if rs == [] then 0 else Or(OrAll(rs[..|rs| - 1]), rs[|rs| - 1])
  }

  /** The or of several results is -1 exactly when one of them is. */
  lemma {:induction false} OrAllMinusOne(rs: seq<Code>)
    ensures OrAll(rs) == -1 <==> -1 in rs
  {
    if rs != [] {
      var front := rs[..|rs| - 1];
      OrAllMinusOne(front);
      assert rs == front + [rs[|rs| - 1]];
    }
  }

  /** The or of several results is 0 exactly when all of them are. */
  lemma {:induction false} OrAllZero(rs: seq<Code>)
    ensures OrAll(rs) == 0 <==> forall k :: 0 <= k < |rs| ==> rs[k] == 0
  {
    if rs != [] {
      var front := rs[..|rs| - 1];
      OrAllZero(front);
      assert forall k :: 0 <= k < |front| ==> front[k] == rs[k];
    }
  }

  /** `status > 0` holds exactly when no result is -1 and some result is positive. */
  lemma OrAllPositive(rs: seq<Code>)
    ensures OrAll(rs) > 0 <==> (-1 !in rs && exists k :: 0 <= k < |rs| && rs[k] > 0)
  {
    OrAllMinusOne(rs);
    OrAllZero(rs);
    if -1 !in rs && OrAll(rs) == 0 {
      assert forall k :: 0 <= k < |rs| ==> !(rs[k] > 0);
    }
  }
}
