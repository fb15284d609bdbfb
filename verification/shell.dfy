/**
 * The command runner of the block-volume driver: run a shell command, read its
 * exit code and output, raise `ShellError` on failure when asked to, and retry
 * a command up to a bound, sleeping after every failed attempt.
 *
 * The shell itself is an oracle: what a command yields may depend on the
 * command and on everything run before it. Each run and each sleep is
 * recorded in a trace.
 */
module Shell {
  import opened Wrappers
  import Text

  /** What the shell reports for one run: exit code and captured output. */
  datatype Exit = Exit(code: int, stdout: string, stderr: string)

  /** One finished process: its command, exit code and captured output. */
  datatype Proc = Proc(cmd: string, code: int, stdout: string, stderr: string)

  /** The observable effects of this layer: a process ran, or the caller slept one second. */
  datatype Event = Ran(proc: Proc) | Slept

  /** The shell: what running a command yields, given the trace so far. */
  type Shell = (seq<Event>, string) -> Exit

  /** `ShellError`, carrying its message; `ValueError` is what `long()` raises on bad text. */
  datatype LichError = ShellError(message: string) | ValueError(text: string)

  /** An operation's effects and its result. */
  datatype Step<T> = Step(events: seq<Event>, result: Result<T, LichError>)

  /** What `call_try` returns: the effects, and the last process run (`None` when none ran). */
  datatype Tried = Tried(events: seq<Event>, last: Option<Proc>)

  /** Running `cmd` once after trace `h`. */
  function Run(sh: Shell, h: seq<Event>, cmd: string): (p: Proc)
    ensures p.cmd == cmd
    ensures p.code == sh(h, cmd).code && p.stdout == sh(h, cmd).stdout && p.stderr == sh(h, cmd).stderr
  {
    var e := sh(h, cmd);
    Proc(cmd, e.code, e.stdout, e.stderr)
  }

  /** The processes of a trace, in the order they ran. */
  function Procs(evs: seq<Event>): (ps: seq<Proc>)
    ensures |ps| <= |evs|
  {
    if |evs| == 0 then []
    else (if evs[0].Ran? then [evs[0].proc] else []) + Procs(evs[1..])
  }

  /** Every process of the trace ran command `cmd`. */
  predicate AllRan(evs: seq<Event>, cmd: string) {
    forall p :: p in Procs(evs) ==> p.cmd == cmd
  }

  /** Each process of the trace is what the shell yields for its command after the events before it. */
  predicate FromShell(sh: Shell, h: seq<Event>, evs: seq<Event>) {
    forall i :: 0 <= i < |evs| && evs[i].Ran? ==> evs[i].proc == Run(sh, h + evs[..i], evs[i].proc.cmd)
  }

  /**
   * Exactly one sleep follows every run with a non-zero exit code, and no
   * sleep happens anywhere else.
   */
  predicate SleepsAfterFailures(evs: seq<Event>) {
    && (forall i :: 0 <= i < |evs| && evs[i].Slept? ==> i > 0 && evs[i - 1].Ran? && evs[i - 1].proc.code != 0)
    && (forall i :: 0 <= i < |evs| && evs[i].Ran? && evs[i].proc.code != 0 ==> i + 1 < |evs| && evs[i + 1].Slept?)
  }

  const CmdLabel := "failed to execute shell command: "
  const CodeLabel := "return code: "

  /** The message `ShellCmd.__call__` and `raise_exp` build: command, return code, stdout, stderr. */
  function ErrorMessage(p: Proc): string {
    CmdLabel + p.cmd + "\n" + CodeLabel + Text.IntToString(p.code) + "\nstdout: " + p.stdout + "\nstderr: " + p.stderr
  }

  /** `raise_exp(shellcmd)`. */
  function RaiseExp(p: Proc): LichError {
    ShellError(ErrorMessage(p))
  }

  /** The second line of the message: the exit code. */
  function CodeLine(p: Proc): string {
    CodeLabel + Text.IntToString(p.code)
  }

  /** What follows the code line: stdout and stderr verbatim. */
  function Outputs(p: Proc): string {
    "stdout: " + p.stdout + "\nstderr: " + p.stderr
  }

  /**
   * For a one-line command, the message's first line names the command, and
   * everything after it is the code line followed by the outputs.
   */
  lemma ErrorMessageCommandLine(p: Proc)
    requires '\n' !in p.cmd
    ensures var m := ErrorMessage(p);
      var first := |CmdLabel + p.cmd|;
      && Text.Find(m, '\n') == first
      && m[..first] == CmdLabel + p.cmd
      && m[first + 1..] == CodeLine(p) + "\n" + Outputs(p)
  {
    ErrorMessageLines(p);
    Text.NotInConcat(CmdLabel, p.cmd, '\n');
    Text.FindAfterLine(CmdLabel + p.cmd, '\n', CodeLine(p) + "\n" + Outputs(p));
  }

  /** The code line ends at the next newline and parses back to the exit code. */
  lemma ErrorMessageCodeLine(p: Proc)
    ensures var rest := CodeLine(p) + "\n" + Outputs(p);
      var second := |CodeLine(p)|;
      && Text.Find(rest, '\n') == second
      && Text.ParseInt(rest[|CodeLabel|..second]) == Some(p.code)
      && rest[second + 1..] == Outputs(p)
  {
    var code := Text.IntToString(p.code);
    IntToStringHasNoNewline(p.code);
    Text.NotInConcat(CodeLabel, code, '\n');
    Text.FindAfterLine(CodeLine(p), '\n', Outputs(p));
    var rest := CodeLine(p) + "\n" + Outputs(p);
    assert rest[|CodeLabel|..|CodeLine(p)|] == code;
    Text.ParseIntOfIntToString(p.code);
  }

  lemma ErrorMessageLines(p: Proc)
    ensures ErrorMessage(p) == (CmdLabel + p.cmd) + "\n" + (CodeLine(p) + "\n" + Outputs(p))
  {
  }

  lemma IntToStringHasNoNewline(n: int)
    ensures '\n' !in Text.IntToString(n)
  {
    var s := Text.IntToString(n);
    if n < 0 {
      assert forall i :: 1 <= i < |s| ==> Text.IsDigit(s[i]) by {
        assert s[1..] == Text.NatToString(-n);
      }
    }
  }

  /**
   * `call(cmd, exception)` (equally `ShellCmd(cmd)(exception)`): one run; with
   * `exception` set a non-zero exit raises, otherwise stdout is returned.
   */
  function Call(sh: Shell, h: seq<Event>, cmd: string, exception: bool): (s: Step<string>)
    ensures s.events == [Ran(Run(sh, h, cmd))]
    ensures Procs(s.events) == [Run(sh, h, cmd)] && FromShell(sh, h, s.events)
    ensures s.result.Err? <==> exception && Run(sh, h, cmd).code != 0
    ensures s.result.Err? ==> s.result.error == ShellError(ErrorMessage(Run(sh, h, cmd)))
    ensures s.result.Ok? ==> s.result.value == Run(sh, h, cmd).stdout
  {
    var p := Run(sh, h, cmd);
    assert Procs([Ran(p)]) == [p] by {
      assert [Ran(p)][1..] == [];
    }
    assert h + [Ran(p)][..0] == h;
    Step([Ran(p)], if exception && p.code != 0 then Err(RaiseExp(p)) else Ok(p.stdout))
  }

  /** The attempt bound of `call_try`: `None` means 10. */
  function TryLimit(tryNum: Option<int>): int {
    if tryNum.None? then 10 else tryNum.value
  }

  lemma {:induction false} ProcsConcat(a: seq<Event>, b: seq<Event>)
    ensures Procs(a + b) == Procs(a) + Procs(b)
    decreases |a|
  {
    if |a| > 0 {
      var head := if a[0].Ran? then [a[0].proc] else [];
      assert (a + b)[0] == a[0];
      assert (a + b)[1..] == a[1..] + b;
      ProcsConcat(a[1..], b);
      calc {
        Procs(a + b);
        head + Procs(a[1..] + b);
        head + (Procs(a[1..]) + Procs(b));
        (head + Procs(a[1..])) + Procs(b);
        Procs(a) + Procs(b);
      }
    } else {
      assert a + b == b;
    }
  }

  lemma SleepsAfterFailuresConcat(a: seq<Event>, b: seq<Event>)
    requires SleepsAfterFailures(a) && SleepsAfterFailures(b)
    requires |a| > 0 && a[|a| - 1].Slept?
    ensures SleepsAfterFailures(a + b)
  {
    var s := a + b;
    forall i | 0 <= i < |s| && s[i].Slept?
      ensures i > 0 && s[i - 1].Ran? && s[i - 1].proc.code != 0
    {
      if i > |a| {
        assert s[i] == b[i - |a|];
        assert s[i - 1] == b[i - 1 - |a|];
      } else if i < |a| {
        assert s[i] == a[i];
      }
    }
  }

  lemma FromShellConcat(sh: Shell, h: seq<Event>, a: seq<Event>, b: seq<Event>)
    requires FromShell(sh, h, a) && FromShell(sh, h + a, b)
    ensures FromShell(sh, h, a + b)
  {
    var s := a + b;
    forall i | 0 <= i < |s| && s[i].Ran?
      ensures s[i].proc == Run(sh, h + s[..i], s[i].proc.cmd)
    {
      if i < |a| {
        assert s[..i] == a[..i];
      } else {
        assert s[..i] == a + b[..i - |a|];
        assert h + s[..i] == (h + a) + b[..i - |a|];
      }
    }
  }

  /** The retry loop of `call_try` with `n` attempts left, after trace `h`. */
  function Attempts(sh: Shell, h: seq<Event>, cmd: string, n: int): (t: Tried)
    decreases n
  {
    if n <= 0 then Tried([], None)
    else
      var p := Run(sh, h, cmd);
      if p.code == 0 then Tried([Ran(p)], Some(p))
      else
        var rest := Attempts(sh, h + [Ran(p), Slept], cmd, n - 1);
        Tried([Ran(p), Slept] + rest.events, if rest.last.None? then Some(p) else rest.last)
  }

  /**
   * The processes `n` attempts leave: none when `n` is not positive, otherwise
   * one to `n`, the last one returned, all but the last failed, and fewer than
   * `n` only when the last succeeded.
   */
  predicate StopsAtSuccess(t: Tried, n: int) {
    var ps := Procs(t.events);
    && (n <= 0 ==> t == Tried([], None))
    && (n > 0 ==> 1 <= |ps| <= n && t.last == Some(ps[|ps| - 1]) && t.events[0].Ran?)
    && (forall i :: 0 <= i < |ps| - 1 ==> ps[i].code != 0)
    && (0 < |ps| < n ==> ps[|ps| - 1].code == 0)
  }

  /** What `n` attempts of `cmd` after trace `h` leave behind. */
  predicate Retried(sh: Shell, h: seq<Event>, cmd: string, n: int, t: Tried) {
    && StopsAtSuccess(t, n)
    && AllRan(t.events, cmd)
    && SleepsAfterFailures(t.events)
    && FromShell(sh, h, t.events)
  }

  lemma {:induction false} AttemptsRetried(sh: Shell, h: seq<Event>, cmd: string, n: int)
    ensures Retried(sh, h, cmd, n, Attempts(sh, h, cmd, n))
    decreases n
  {
    if n > 0 {
      var p := Run(sh, h, cmd);
      if p.code == 0 {
        AttemptSucceeds(sh, h, cmd, n);
      } else {
        AttemptsRetried(sh, h + [Ran(p), Slept], cmd, n - 1);
        AttemptFails(sh, h, cmd, n);
      }
    }
  }

  lemma AttemptSucceeds(sh: Shell, h: seq<Event>, cmd: string, n: int)
    requires n > 0 && Run(sh, h, cmd).code == 0
    ensures Retried(sh, h, cmd, n, Attempts(sh, h, cmd, n))
  {
    var p := Run(sh, h, cmd);
    var one := [Ran(p)];
    assert Procs(one) == [p] by {
      assert one[1..] == [];
    }
    assert h + one[..0] == h;
  }

  lemma AttemptFails(sh: Shell, h: seq<Event>, cmd: string, n: int)
    requires n > 0 && Run(sh, h, cmd).code != 0
    requires Retried(sh, h + [Ran(Run(sh, h, cmd)), Slept], cmd, n - 1,
                     Attempts(sh, h + [Ran(Run(sh, h, cmd)), Slept], cmd, n - 1))
    ensures Retried(sh, h, cmd, n, Attempts(sh, h, cmd, n))
  {
    var p := Run(sh, h, cmd);
    var pre := [Ran(p), Slept];
    var rest := Attempts(sh, h + pre, cmd, n - 1);
    var t := Attempts(sh, h, cmd, n);
    assert t == Tried(pre + rest.events, if rest.last.None? then Some(p) else rest.last);
    StopsAtSuccessCons(p, rest, n);
    AllRanCons(p, rest.events, cmd);
    assert h + pre[..0] == h;
    assert FromShell(sh, h, pre);
    FromShellConcat(sh, h, pre, rest.events);
    SleepsAfterFailuresConcat(pre, rest.events);
  }

  /** A failed attempt in front of the remaining `n - 1` attempts keeps the stop rule for `n`. */
  lemma StopsAtSuccessCons(p: Proc, rest: Tried, n: int)
    requires n > 0 && p.code != 0 && StopsAtSuccess(rest, n - 1)
    ensures StopsAtSuccess(Tried([Ran(p), Slept] + rest.events, if rest.last.None? then Some(p) else rest.last), n)
  {
    var t := Tried([Ran(p), Slept] + rest.events, if rest.last.None? then Some(p) else rest.last);
    ProcsCons(p, rest.events);
    var rps := Procs(rest.events);
    var ps := Procs(t.events);
    assert ps == [p] + rps;
    assert t.events[0] == Ran(p);
    if n - 1 <= 0 {
      assert rps == [];
      assert ps == [p];
    } else {
      assert t.last == Some(ps[|ps| - 1]) by {
        assert ps[|ps| - 1] == rps[|rps| - 1];
      }
      forall i | 0 <= i < |ps| - 1
        ensures ps[i].code != 0
      {
        if i > 0 {
          assert ps[i] == rps[i - 1];
        }
      }
    }
  }

  lemma AllRanCons(p: Proc, rest: seq<Event>, cmd: string)
    requires p.cmd == cmd && AllRan(rest, cmd)
    ensures AllRan([Ran(p), Slept] + rest, cmd)
  {
    ProcsCons(p, rest);
  }

  /** Attempts that ended in a failure used up the whole bound, every one of them failing. */
  lemma ExhaustedAttempts(t: Tried, n: int)
    requires StopsAtSuccess(t, n) && t.last.Some? && t.last.value.code != 0
    ensures |Procs(t.events)| == n && Failures(Procs(t.events)) == n
  {
    var ps := Procs(t.events);
    assert ps[|ps| - 1].code != 0;
    FailuresAll(ps);
  }

  /** The number of sleeps in a trace. */
  function Sleeps(evs: seq<Event>): nat
    decreases |evs|
  {
    if |evs| == 0 then 0 else (if evs[0].Slept? then 1 else 0) + Sleeps(evs[1..])
  }

  /** The number of processes that exited with a non-zero code. */
  function Failures(ps: seq<Proc>): nat
    decreases |ps|
  {
    if |ps| == 0 then 0 else (if ps[0].code != 0 then 1 else 0) + Failures(ps[1..])
  }

  lemma {:induction false} FailuresAll(ps: seq<Proc>)
    requires forall i :: 0 <= i < |ps| ==> ps[i].code != 0
    ensures Failures(ps) == |ps|
    decreases |ps|
  {
    if |ps| > 0 {
      assert forall i :: 0 <= i < |ps[1..]| ==> ps[1..][i] == ps[i + 1];
      FailuresAll(ps[1..]);
    }
  }

  /** A run and a sleep in front of a trace add that one process in front. */
  lemma ProcsCons(p: Proc, rest: seq<Event>)
    ensures Procs([Ran(p), Slept] + rest) == [p] + Procs(rest)
  {
    var pre := [Ran(p), Slept];
    assert Procs(pre) == [p] by {
      assert pre[1..] == [Slept];
      assert pre[1..][1..] == [];
    }
    ProcsConcat(pre, rest);
  }

  /** A failed attempt and its sleep, in front of a trace, add one process, one failure and one sleep. */
  lemma FailedStep(p: Proc, rest: seq<Event>)
    requires p.code != 0
    ensures Procs([Ran(p), Slept] + rest) == [p] + Procs(rest)
    ensures Sleeps([Ran(p), Slept] + rest) == 1 + Sleeps(rest)
    ensures Failures([p] + Procs(rest)) == 1 + Failures(Procs(rest))
  {
    var evs := [Ran(p), Slept] + rest;
    assert evs[1..] == [Slept] + rest;
    assert evs[1..][1..] == rest;
    ProcsCons(p, rest);
    assert ([p] + Procs(rest))[1..] == Procs(rest);
  }

  /** The retry loop sleeps exactly as often as an attempt fails. */
  lemma {:induction false} AttemptsSleeps(sh: Shell, h: seq<Event>, cmd: string, n: int)
    ensures var t := Attempts(sh, h, cmd, n);
      Sleeps(t.events) == Failures(Procs(t.events))
    decreases n
  {
    if n > 0 {
      var p := Run(sh, h, cmd);
      if p.code == 0 {
        var one := [Ran(p)];
        assert one[1..] == [];
        assert Procs(one) == [p];
        assert [p][1..] == [];
      } else {
        var pre := [Ran(p), Slept];
        AttemptsSleeps(sh, h + pre, cmd, n - 1);
        FailedStep(p, Attempts(sh, h + pre, cmd, n - 1).events);
      }
    }
  }

  /**
   * A command that fails with code `c` whatever ran before it is attempted
   * all `n` times, with a sleep after each attempt.
   */
  lemma {:induction false} AttemptsPersistentFailure(sh: Shell, h: seq<Event>, cmd: string, n: nat, c: int)
    requires c != 0
    requires forall g :: Run(sh, g, cmd).code == c
    ensures var t := Attempts(sh, h, cmd, n);
      && |Procs(t.events)| == n && Sleeps(t.events) == n
      && forall i :: 0 <= i < |Procs(t.events)| ==> Procs(t.events)[i].code == c
    decreases n
  {
    if n > 0 {
      var p := Run(sh, h, cmd);
      var pre := [Ran(p), Slept];
      var rest := Attempts(sh, h + pre, cmd, n - 1);
      AttemptsPersistentFailure(sh, h + pre, cmd, n - 1, c);
      assert Attempts(sh, h, cmd, n).events == pre + rest.events;
      FailedAgain(p, rest.events, n - 1, c);
    }
  }

  /** One more failure with code `c` in front of `m` of them makes `m + 1`. */
  lemma FailedAgain(p: Proc, rest: seq<Event>, m: nat, c: int)
    requires p.code == c != 0
    requires |Procs(rest)| == m && Sleeps(rest) == m
    requires forall i :: 0 <= i < |Procs(rest)| ==> Procs(rest)[i].code == c
    ensures var evs := [Ran(p), Slept] + rest;
      && |Procs(evs)| == m + 1 && Sleeps(evs) == m + 1
      && forall i :: 0 <= i < |Procs(evs)| ==> Procs(evs)[i].code == c
  {
    FailedStep(p, rest);
    var rps := Procs(rest);
    var ps := [p] + rps;
    forall i | 0 <= i < |ps|
      ensures ps[i].code == c
    {
      if i > 0 {
        assert ps[i] == rps[i - 1];
      }
    }
  }

  /**
   * `call_try(cmd, try_num=tryNum)`: at most `try_num` attempts (10 when not
   * given), stopping at the first zero exit code, sleeping after every failed
   * attempt including the last; the last attempt's process is returned, and
   * nothing when no attempt was made.
   */
  function CallTry(sh: Shell, h: seq<Event>, cmd: string, tryNum: Option<int>): (t: Tried)
    ensures var ps := Procs(t.events);
      && (TryLimit(tryNum) <= 0 <==> t.last.None?)
      && (t.last.None? ==> t.events == [])
      && (t.last.Some? ==> 1 <= |ps| <= TryLimit(tryNum) && t.last.value == ps[|ps| - 1])
      && (forall i :: 0 <= i < |ps| - 1 ==> ps[i].code != 0)
      && (0 < |ps| < TryLimit(tryNum) ==> ps[|ps| - 1].code == 0)
      && AllRan(t.events, cmd)
      && SleepsAfterFailures(t.events)
      && FromShell(sh, h, t.events)
  {
    AttemptsRetried(sh, h, cmd, TryLimit(tryNum));
    Attempts(sh, h, cmd, TryLimit(tryNum))
  }
}
