/**
 * The block-volume operations of the lichbd driver, each a policy over
 * `call_try`: which exit codes count as success, what is cleaned up between
 * copy rounds, and how a status report is read.
 */
module Lichbd {
  import opened Wrappers
  import opened Shell
  import Text

  /** `errno.EEXIST` and `errno.ENOENT` on Linux. */
  const EEXIST := 17
  const ENOENT := 2

  /** How many `call_try` rounds `lichbd_copy` makes before giving up. */
  const CopyRounds := 5

  const Lich := "/opt/mds/lich/libexec/lich"

  function MkdirCmd(path: string): string {
    Lich + " --mkdir " + path
  }

  function CreateRawCmd(path: string, size: string): string {
    "qemu-img create -f raw " + path + " " + size
  }

  function CopyCmd(src: string, dst: string): string {
    Lich + " --copy " + src + " " + dst
  }

  function UnlinkCmd(path: string): string {
    Lich + " --unlink " + path
  }

  function StatCmd(path: string): string {
    Lich + " --stat " + path + "|grep Size|awk '{print $2}'"
  }

  const ClusterStatCmd := "lich.cluster --stat"

  function RmCmd(path: string): string {
    "rm -rf " + path
  }

  /** The process a trace ran last. */
  function LastProc(evs: seq<Event>): Proc
    requires |Procs(evs)| > 0
  {
    Procs(evs)[|Procs(evs)| - 1]
  }

  /**
   * `evs` is exactly one `call_try(cmd)` with its default ten attempts after
   * trace `h`: between one and ten runs of `cmd`, each what the shell yields
   * after the events before it; every run but the last failed, and fewer than
   * ten runs means the last one succeeded; one sleep follows each failure and
   * there is no other sleep.
   */
  predicate TriedTen(sh: Shell, h: seq<Event>, cmd: string, evs: seq<Event>) {
    && |Procs(evs)| > 0
    && Retried(sh, h, cmd, 10, Tried(evs, Some(LastProc(evs))))
    && Sleeps(evs) == Failures(Procs(evs))
  }

  /** `call_try(cmd)` with its default ten attempts: it always ends with a process. */
  function TryTen(sh: Shell, h: seq<Event>, cmd: string): (t: Tried)
    ensures |Procs(t.events)| > 0 && t.last == Some(LastProc(t.events))
    ensures TriedTen(sh, h, cmd, t.events)
  {
    var t := CallTry(sh, h, cmd, None);
    assert t == Attempts(sh, h, cmd, 10);
    AttemptsRetried(sh, h, cmd, 10);
    AttemptsSleeps(sh, h, cmd, 10);
    t
  }

  /** The events of `call_try(cmd)` when the first attempt succeeds: that one run. */
  lemma TryTenFirstSucceeds(sh: Shell, h: seq<Event>, cmd: string)
    requires Run(sh, h, cmd).code == 0
    ensures TryTen(sh, h, cmd) == Tried([Ran(Run(sh, h, cmd))], Some(Run(sh, h, cmd)))
    ensures LastProc([Ran(Run(sh, h, cmd))]) == Run(sh, h, cmd)
  {
    var one := [Ran(Run(sh, h, cmd))];
    assert one[1..] == [];
    assert Procs(one) == [Run(sh, h, cmd)];
  }

  /** The events of `call_try(cmd)` when every attempt fails with code `c`: ten runs and ten sleeps. */
  lemma TryTenPersistentFailure(sh: Shell, h: seq<Event>, cmd: string, c: int)
    requires c != 0 && forall g :: Run(sh, g, cmd).code == c
    ensures var t := TryTen(sh, h, cmd);
      |Procs(t.events)| == 10 && Sleeps(t.events) == 10 && LastProc(t.events).code == c
  {
    AttemptsPersistentFailure(sh, h, cmd, 10, c);
    assert TryTen(sh, h, cmd) == Attempts(sh, h, cmd, 10);
  }

  /**
   * The policy `lichbd_mkdir`, `lichbd_create_raw` and `lichbd_unlink` share:
   * one `call_try` of the command, then success when the final exit code is 0
   * or the one `benign` code; otherwise it raises from the final process.
   */
  function Tolerant(sh: Shell, h: seq<Event>, cmd: string, benign: int): (s: Step<()>)
    ensures TriedTen(sh, h, cmd, s.events)
    ensures s.result.Ok? <==> LastProc(s.events).code == 0 || LastProc(s.events).code == benign
    ensures s.result.Err? ==> s.result.error == RaiseExp(LastProc(s.events))
  {
    var t := TryTen(sh, h, cmd);
    var p := t.last.value;
    Step(t.events, if p.code == 0 || p.code == benign then Ok(()) else Err(RaiseExp(p)))
  }

  /** A command that succeeds at once runs once, never sleeps, and the policy succeeds. */
  lemma TolerantFirstSucceeds(sh: Shell, h: seq<Event>, cmd: string, benign: int)
    requires Run(sh, h, cmd).code == 0
    ensures Tolerant(sh, h, cmd, benign) == Step([Ran(Run(sh, h, cmd))], Ok(()))
  {
    TryTenFirstSucceeds(sh, h, cmd);
  }

  /**
   * A command that keeps failing with code `c` is run ten times with ten
   * sleeps, and the policy succeeds exactly when `c` is the benign code.
   */
  lemma TolerantPersistentFailure(sh: Shell, h: seq<Event>, cmd: string, benign: int, c: int)
    requires c != 0 && forall g :: Run(sh, g, cmd).code == c
    ensures var s := Tolerant(sh, h, cmd, benign);
      && |Procs(s.events)| == 10 && Sleeps(s.events) == 10
      && (s.result.Ok? <==> c == benign)
  {
    TryTenPersistentFailure(sh, h, cmd, c);
  }

  /** `lichbd_mkdir`: an existing directory is not an error. */
  function Mkdir(sh: Shell, h: seq<Event>, path: string): (s: Step<()>)
    ensures TriedTen(sh, h, MkdirCmd(path), s.events)
    ensures s.result.Ok? <==> LastProc(s.events).code in {0, EEXIST}
    ensures s.result.Err? ==> s.result.error == RaiseExp(LastProc(s.events))
  {
    Tolerant(sh, h, MkdirCmd(path), EEXIST)
  }

  /** A directory that already exists costs ten attempts and ten sleeps, and then counts as made. */
  lemma MkdirExisting(sh: Shell, h: seq<Event>, path: string)
    requires forall g :: Run(sh, g, MkdirCmd(path)).code == EEXIST
    ensures var s := Mkdir(sh, h, path);
      |Procs(s.events)| == 10 && Sleeps(s.events) == 10 && s.result == Ok(())
  {
    TolerantPersistentFailure(sh, h, MkdirCmd(path), EEXIST, EEXIST);
  }

  /** A mkdir that succeeds at once runs once and never sleeps. */
  lemma MkdirFirstSucceeds(sh: Shell, h: seq<Event>, path: string)
    requires Run(sh, h, MkdirCmd(path)).code == 0
    ensures Mkdir(sh, h, path) == Step([Ran(Run(sh, h, MkdirCmd(path)))], Ok(()))
  {
    TolerantFirstSucceeds(sh, h, MkdirCmd(path), EEXIST);
  }

  /** `lichbd_create_raw`: an existing volume is not an error. */
  function CreateRaw(sh: Shell, h: seq<Event>, path: string, size: string): (s: Step<()>)
    ensures TriedTen(sh, h, CreateRawCmd(path, size), s.events)
    ensures s.result.Ok? <==> LastProc(s.events).code in {0, EEXIST}
    ensures s.result.Err? ==> s.result.error == RaiseExp(LastProc(s.events))
  {
    Tolerant(sh, h, CreateRawCmd(path, size), EEXIST)
  }

  /** A create that keeps failing with code `c` runs ten times, and only `EEXIST` is success. */
  lemma CreateRawPersistentFailure(sh: Shell, h: seq<Event>, path: string, size: string, c: int)
    requires c != 0 && forall g :: Run(sh, g, CreateRawCmd(path, size)).code == c
    ensures var s := CreateRaw(sh, h, path, size);
      && |Procs(s.events)| == 10 && Sleeps(s.events) == 10
      && (s.result.Ok? <==> c == EEXIST)
  {
    TolerantPersistentFailure(sh, h, CreateRawCmd(path, size), EEXIST, c);
  }

  /** `lichbd_unlink`: a volume that is already gone is not an error. */
  function Unlink(sh: Shell, h: seq<Event>, path: string): (s: Step<()>)
    ensures TriedTen(sh, h, UnlinkCmd(path), s.events)
    ensures s.result.Ok? <==> LastProc(s.events).code in {0, ENOENT}
    ensures s.result.Err? ==> s.result.error == RaiseExp(LastProc(s.events))
  {
    Tolerant(sh, h, UnlinkCmd(path), ENOENT)
  }

  /** Unlinking a volume that is already gone costs ten attempts and ten sleeps, and then succeeds. */
  lemma UnlinkMissing(sh: Shell, h: seq<Event>, path: string)
    requires forall g :: Run(sh, g, UnlinkCmd(path)).code == ENOENT
    ensures var s := Unlink(sh, h, path);
      |Procs(s.events)| == 10 && Sleeps(s.events) == 10 && s.result == Ok(())
  {
    TolerantPersistentFailure(sh, h, UnlinkCmd(path), ENOENT, ENOENT);
  }

  /** An unlink that succeeds at once runs once and never sleeps. */
  lemma UnlinkFirstSucceeds(sh: Shell, h: seq<Event>, path: string)
    requires Run(sh, h, UnlinkCmd(path)).code == 0
    ensures Unlink(sh, h, path) == Step([Ran(Run(sh, h, UnlinkCmd(path)))], Ok(()))
  {
    TolerantFirstSucceeds(sh, h, UnlinkCmd(path), ENOENT);
  }

  /** A destination written as `:path` is a local file. */
  predicate IsLocal(dst: string) {
    |dst| > 0 && dst[0] == ':'
  }

  /** The command that removes a copy destination: `rm -rf` without the colons, or an unlink. */
  function CleanupCmd(dst: string): string {
    if IsLocal(dst) then RmCmd(Text.LStrip(dst, {':'})) else UnlinkCmd(dst)
  }

  /**
   * Removing a partial copy destination after a failed round: a local path is
   * removed by a single `rm -rf`, which raises on any non-zero exit; anything
   * else goes through `lichbd_unlink`.
   */
  function Cleanup(sh: Shell, h: seq<Event>, dst: string): (s: Step<()>)
    ensures |Procs(s.events)| > 0 && AllRan(s.events, CleanupCmd(dst)) && FromShell(sh, h, s.events)
    ensures IsLocal(dst) ==>
      && s.events == [Ran(Run(sh, h, CleanupCmd(dst)))]
      && (s.result.Ok? <==> LastProc(s.events).code == 0)
    ensures !IsLocal(dst) ==>
      && TriedTen(sh, h, CleanupCmd(dst), s.events)
      && (s.result.Ok? <==> LastProc(s.events).code in {0, ENOENT})
    ensures s.result.Err? ==> s.result.error == RaiseExp(LastProc(s.events))
  {
    if IsLocal(dst) then
      var c := Call(sh, h, CleanupCmd(dst), true);
      Step(c.events, if c.result.Ok? then Ok(()) else Err(c.result.error))
    else
      Unlink(sh, h, dst)
  }

  /** The cleanup of a destination that is not local is exactly `lichbd_unlink`. */
  lemma CleanupUnlinks(sh: Shell, h: seq<Event>, dst: string)
    requires !IsLocal(dst)
    ensures Cleanup(sh, h, dst) == Unlink(sh, h, dst)
  {
  }

  /** One round of `lichbd_copy`: the copy attempts, and the cleanup when they failed. */
  datatype Round = Round(copy: Tried, cleanup: Option<Step<()>>)

  /** What `lichbd_copy` did, round by round, and its result. */
  datatype Copied = Copied(rounds: seq<Round>, result: Result<Proc, LichError>)

  function RoundEvents(r: Round): seq<Event> {
    r.copy.events + (if r.cleanup.Some? then r.cleanup.value.events else [])
  }

  /** The whole trace of a copy: its rounds' events in order. */
  function CopyEvents(rs: seq<Round>): seq<Event>
    decreases |rs|
  {
    if |rs| == 0 then [] else RoundEvents(rs[0]) + CopyEvents(rs[1..])
  }

  /** The copy attempts of a round ended with a non-zero exit code. */
  predicate RoundFailed(r: Round) {
    r.copy.last.Some? && r.copy.last.value.code != 0
  }

  /** The round cleaned up its destination without error. */
  predicate CleanedUp(r: Round) {
    r.cleanup.Some? && r.cleanup.value.result.Ok?
  }

  /** The round's cleanup raised. */
  predicate CleanupFailed(r: Round) {
    r.cleanup.Some? && r.cleanup.value.result.Err?
  }

  /** A copy that stops after `r`: what its result is, given how `r` ended. */
  predicate EndsWith(c: Copied, r: Round, rounds: nat) {
    && (c.result.Ok? <==> !RoundFailed(r))
    && (c.result.Ok? ==> r.copy.last == Some(c.result.value) && c.result.value.code == 0)
    && (CleanupFailed(r) ==> c.result == Err(r.cleanup.value.result.error))
    && (RoundFailed(r) && CleanedUp(r) ==> |c.rounds| == rounds && c.result == Err(RaiseExp(r.copy.last.value)))
  }

  /**
   * A round after trace `h`: one `call_try` of the copy command, then the
   * cleanup of the destination exactly when the copy failed.
   */
  predicate RoundShape(sh: Shell, h: seq<Event>, r: Round, src: string, dst: string) {
    && |Procs(r.copy.events)| > 0
    && r.copy.last == Some(LastProc(r.copy.events))
    && TriedTen(sh, h, CopyCmd(src, dst), r.copy.events)
    && (r.cleanup.Some? <==> RoundFailed(r))
    && (r.cleanup.Some? ==> r.cleanup.value == Cleanup(sh, h + r.copy.events, dst))
  }

  /** One round after trace `h`. */
  function CopyRound(sh: Shell, h: seq<Event>, src: string, dst: string): (r: Round)
    ensures RoundShape(sh, h, r, src, dst)
    ensures FromShell(sh, h, RoundEvents(r))
  {
    var t := TryTen(sh, h, CopyCmd(src, dst));
    if t.last.value.code == 0 then
      assert RoundEvents(Round(t, None)) == t.events;
      Round(t, None)
    else
      var c := Cleanup(sh, h + t.events, dst);
      FromShellConcat(sh, h, t.events, c.events);
      Round(t, Some(c))
  }

  /** A round that failed ran the copy command all ten times, sleeping after each. */
  lemma FailedRoundRanTen(sh: Shell, h: seq<Event>, r: Round, src: string, dst: string)
    requires RoundShape(sh, h, r, src, dst) && RoundFailed(r)
    ensures |Procs(r.copy.events)| == 10 && Sleeps(r.copy.events) == 10
  {
    assert StopsAtSuccess(r.copy, 10);
    ExhaustedAttempts(r.copy, 10);
  }

  /** The trace before round `i` of rounds `rs` that started after trace `h`. */
  function Before(h: seq<Event>, rs: seq<Round>, i: nat): seq<Event>
    requires i <= |rs|
  {
    h + CopyEvents(rs[..i])
  }

  /** Round `i` of `rs` is a well-formed round after `h` and the rounds before it. */
  predicate Shaped(sh: Shell, h: seq<Event>, rs: seq<Round>, src: string, dst: string) {
    forall i {:trigger Before(h, rs, i)} :: 0 <= i < |rs| ==> RoundShape(sh, Before(h, rs, i), rs[i], src, dst)
  }

  /** Every round but the last failed and was cleaned up: that is why another round followed. */
  predicate RetriedBefore(rs: seq<Round>) {
    forall i :: 0 <= i < |rs| - 1 ==> RoundFailed(rs[i]) && CleanedUp(rs[i])
  }

  lemma CopyEventsCons(r: Round, rs: seq<Round>)
    ensures CopyEvents([r] + rs) == RoundEvents(r) + CopyEvents(rs)
  {
    assert ([r] + rs)[1..] == rs;
  }

  /** The history before round `i` of `[r] + rs` is the history before round `i - 1` of `rs`, after `r`. */
  lemma ConsHistory(h: seq<Event>, r: Round, rs: seq<Round>, i: nat)
    requires 1 <= i <= |rs|
    ensures Before(h, [r] + rs, i) == Before(h + RoundEvents(r), rs, i - 1)
  {
    assert ([r] + rs)[..i] == [r] + rs[..i - 1];
    CopyEventsCons(r, rs[..i - 1]);
  }

  /** A round in front of well-formed rounds that follow it keeps them well-formed. */
  lemma ConsShaped(sh: Shell, h: seq<Event>, r: Round, rs: seq<Round>, src: string, dst: string)
    requires RoundShape(sh, h, r, src, dst)
    requires Shaped(sh, h + RoundEvents(r), rs, src, dst)
    ensures Shaped(sh, h, [r] + rs, src, dst)
  {
    var rs' := [r] + rs;
    assert Before(h, rs', 0) == h by {
      assert rs'[..0] == [];
    }
    forall i | 1 <= i < |rs'|
      ensures RoundShape(sh, Before(h, rs', i), rs'[i], src, dst)
    {
      ConsHistory(h, r, rs, i);
      assert rs'[i] == rs[i - 1];
    }
  }

  /** A failed, cleaned-up round in front of the rounds that follow it is why they were tried. */
  lemma ConsRetried(r: Round, rs: seq<Round>)
    requires RoundFailed(r) && CleanedUp(r) && RetriedBefore(rs)
    ensures RetriedBefore([r] + rs)
  {
    var rs' := [r] + rs;
    forall i | 1 <= i < |rs'| - 1
      ensures RoundFailed(rs'[i]) && CleanedUp(rs'[i])
    {
      assert rs'[i] == rs[i - 1];
    }
  }

  /** What a copy from round `k` on promises about its rounds and its result. */
  predicate CopiesFrom(sh: Shell, h: seq<Event>, src: string, dst: string, k: nat, c: Copied) {
    && 1 <= |c.rounds| <= CopyRounds - k
    && Shaped(sh, h, c.rounds, src, dst) && RetriedBefore(c.rounds)
    && EndsWith(c, c.rounds[|c.rounds| - 1], CopyRounds - k)
    && FromShell(sh, h, CopyEvents(c.rounds))
  }

  /** A single round that ends the copy. */
  lemma LastRound(sh: Shell, h: seq<Event>, src: string, dst: string, k: nat, r: Round, c: Copied)
    requires k < CopyRounds
    requires RoundShape(sh, h, r, src, dst) && FromShell(sh, h, RoundEvents(r)) && c.rounds == [r]
    requires !RoundFailed(r) ==> c.result == Ok(r.copy.last.value)
    requires CleanupFailed(r) ==> c.result == Err(r.cleanup.value.result.error)
    requires RoundFailed(r) && CleanedUp(r) ==> k + 1 == CopyRounds && c.result == Err(RaiseExp(r.copy.last.value))
    ensures CopiesFrom(sh, h, src, dst, k, c)
  {
    assert CopyEvents([r]) == RoundEvents(r) by {
      CopyEventsCons(r, []);
      assert [r] + [] == [r];
      assert RoundEvents(r) + [] == RoundEvents(r);
    }
    assert Before(h, c.rounds, 0) == h by {
      assert c.rounds[..0] == [];
    }
    assert Shaped(sh, h, c.rounds, src, dst);
    assert RetriedBefore(c.rounds);
    assert EndsWith(c, r, CopyRounds - k);
  }

  /** The trace of a round followed by the trace of the rounds after it stays consistent with the shell. */
  lemma ConsTrace(sh: Shell, h: seq<Event>, r: Round, rs: seq<Round>)
    requires FromShell(sh, h, RoundEvents(r)) && FromShell(sh, h + RoundEvents(r), CopyEvents(rs))
    ensures FromShell(sh, h, CopyEvents([r] + rs))
  {
    CopyEventsCons(r, rs);
    FromShellConcat(sh, h, RoundEvents(r), CopyEvents(rs));
  }

  /** Putting one more round in front keeps the outcome of the last round, one round further from the end. */
  lemma ConsEnds(r: Round, rest: Copied, n: nat)
    requires |rest.rounds| > 0 && EndsWith(rest, rest.rounds[|rest.rounds| - 1], n)
    ensures var c := Copied([r] + rest.rounds, rest.result);
      EndsWith(c, c.rounds[|c.rounds| - 1], n + 1)
  {
    var rs := [r] + rest.rounds;
    assert rs[|rs| - 1] == rest.rounds[|rest.rounds| - 1];
  }

  /** A failed, cleaned-up round `k` followed by the copy from round `k + 1` is the copy from round `k`. */
  lemma Prepend(sh: Shell, h: seq<Event>, src: string, dst: string, k: nat, r: Round, rest: Copied)
    requires RoundShape(sh, h, r, src, dst) && FromShell(sh, h, RoundEvents(r))
    requires RoundFailed(r) && CleanedUp(r)
    requires CopiesFrom(sh, h + RoundEvents(r), src, dst, k + 1, rest)
    ensures CopiesFrom(sh, h, src, dst, k, Copied([r] + rest.rounds, rest.result))
  {
    ConsShaped(sh, h, r, rest.rounds, src, dst);
    ConsRetried(r, rest.rounds);
    ConsTrace(sh, h, r, rest.rounds);
    ConsEnds(r, rest, CopyRounds - (k + 1));
  }

  /** The rounds of `lichbd_copy` from round `k` (counting from 0) on. */
  function CopyFrom(sh: Shell, h: seq<Event>, src: string, dst: string, k: nat): (c: Copied)
    requires k < CopyRounds
    ensures CopiesFrom(sh, h, src, dst, k, c)
    decreases CopyRounds - k
  {
    var r := CopyRound(sh, h, src, dst);
    if !RoundFailed(r) || CleanupFailed(r) || k + 1 == CopyRounds then
      var c := Copied([r],
        if !RoundFailed(r) then Ok(r.copy.last.value)
        else if CleanupFailed(r) then Err(r.cleanup.value.result.error)
        else Err(RaiseExp(r.copy.last.value)));
      LastRound(sh, h, src, dst, k, r, c);
      c
    else
      var rest := CopyFrom(sh, h + RoundEvents(r), src, dst, k + 1);
      Prepend(sh, h, src, dst, k, r, rest);
      Copied([r] + rest.rounds, rest.result)
  }

  /** The rounds of a copy that cleaned up afterwards. */
  function Cleanups(rs: seq<Round>): nat
    decreases |rs|
  {
    if |rs| == 0 then 0 else (if rs[0].cleanup.Some? then 1 else 0) + Cleanups(rs[1..])
  }

  lemma {:induction false} CleanupsOfCleanedRounds(rs: seq<Round>)
    requires forall i :: 0 <= i < |rs| ==> rs[i].cleanup.Some?
    ensures Cleanups(rs) == |rs|
    decreases |rs|
  {
    if |rs| > 0 {
      assert forall i :: 0 <= i < |rs[1..]| ==> rs[1..][i] == rs[i + 1];
      CleanupsOfCleanedRounds(rs[1..]);
    }
  }

  /** When the last round failed, every round failed; each ran the copy command ten times and was cleaned up. */
  lemma AllRoundsFailed(sh: Shell, h: seq<Event>, rs: seq<Round>, src: string, dst: string)
    requires Shaped(sh, h, rs, src, dst) && RetriedBefore(rs)
    requires |rs| > 0 && RoundFailed(rs[|rs| - 1])
    ensures forall i :: 0 <= i < |rs| ==> RoundFailed(rs[i]) && rs[i].cleanup.Some?
    ensures Cleanups(rs) == |rs|
    ensures forall i :: 0 <= i < |rs| ==>
      |Procs(rs[i].copy.events)| == 10 && Sleeps(rs[i].copy.events) == 10
  {
    forall i | 0 <= i < |rs|
      ensures rs[i].cleanup.Some?
      ensures |Procs(rs[i].copy.events)| == 10 && Sleeps(rs[i].copy.events) == 10
    {
      assert RoundFailed(rs[i]);
      FailedRoundRanTen(sh, Before(h, rs, i), rs[i], src, dst);
    }
    CleanupsOfCleanedRounds(rs);
  }

  /**
   * `lichbd_copy(src, dst)`: at most five rounds, each one `call_try` of the
   * copy command; the first round that ends with exit code 0 is the result.
   * Every failed round, the fifth included, is followed by a cleanup of the
   * destination; a failing cleanup aborts the copy with its error, and after
   * five failed rounds the copy raises from the last copy process, having run
   * the copy command fifty times and cleaned up five times.
   */
  function Copy(sh: Shell, h: seq<Event>, src: string, dst: string): (c: Copied)
    ensures 1 <= |c.rounds| <= CopyRounds
    ensures Shaped(sh, h, c.rounds, src, dst) && RetriedBefore(c.rounds)
    ensures EndsWith(c, c.rounds[|c.rounds| - 1], CopyRounds)
    ensures FromShell(sh, h, CopyEvents(c.rounds))
  {
    CopyFrom(sh, h, src, dst, 0)
  }

  /**
   * A copy that fails without its last cleanup failing ran all five rounds,
   * each ten copy attempts with ten sleeps followed by a cleanup, and raises
   * from the fifth round's last copy process.
   */
  lemma CopyExhausted(sh: Shell, h: seq<Event>, src: string, dst: string)
    ensures var c := Copy(sh, h, src, dst);
      c.result.Err? && !CleanupFailed(c.rounds[|c.rounds| - 1]) ==>
        && |c.rounds| == CopyRounds && Cleanups(c.rounds) == CopyRounds
        && (forall i :: 0 <= i < CopyRounds ==>
              |Procs(c.rounds[i].copy.events)| == 10 && Sleeps(c.rounds[i].copy.events) == 10)
        && c.result == Err(RaiseExp(c.rounds[CopyRounds - 1].copy.last.value))
  {
    var c := Copy(sh, h, src, dst);
    var last := c.rounds[|c.rounds| - 1];
    if c.result.Err? && !CleanupFailed(last) {
      assert RoundFailed(last);
      AllRoundsFailed(sh, h, c.rounds, src, dst);
      assert CleanedUp(last);
      assert |c.rounds| == CopyRounds && last == c.rounds[CopyRounds - 1];
    }
  }

  /**
   * What `lichbd_file_size` makes of the final stat process: a non-zero exit
   * raises, otherwise the stripped output is parsed as an integer.
   */
  function ReadSize(p: Proc): (r: Result<int, LichError>)
    ensures p.code != 0 ==> r == Err(RaiseExp(p))
    ensures p.code == 0 && Text.ParseInt(Text.Strip(p.stdout)).None? ==> r == Err(ValueError(Text.Strip(p.stdout)))
    ensures r.Ok? <==> p.code == 0 && Text.ParseInt(Text.Strip(p.stdout)).Some?
    ensures r.Ok? ==> Text.ParseInt(Text.Strip(p.stdout)) == Some(r.value)
  {
    if p.code != 0 then Err(RaiseExp(p))
    else match Text.ParseInt(Text.Strip(p.stdout))
      case None => Err(ValueError(Text.Strip(p.stdout)))
      case Some(n) => Ok(n)
  }

  /** A size printed in decimal, padded with whitespace (the pipeline's trailing newline), is read back exactly. */
  lemma ReadSizeDecimal(p: Proc, n: int, pre: string, post: string)
    requires p.code == 0 && p.stdout == pre + Text.IntToString(n) + post
    requires forall i :: 0 <= i < |pre| ==> pre[i] in Text.Whitespace
    requires forall i :: 0 <= i < |post| ==> post[i] in Text.Whitespace
    ensures ReadSize(p) == Ok(n)
  {
    Text.StripPadded(pre, Text.IntToString(n), post);
    Text.ParseIntOfIntToString(n);
  }

  /** `lichbd_file_size`: one `call_try` of the stat pipeline, and its final process read as a size. */
  function FileSize(sh: Shell, h: seq<Event>, path: string): (s: Step<int>)
    ensures TriedTen(sh, h, StatCmd(path), s.events)
    ensures s.result == ReadSize(LastProc(s.events))
  {
    var t := TryTen(sh, h, StatCmd(path));
    Step(t.events, ReadSize(t.last.value))
  }

  /** `lichbd_cluster_stat`: the report verbatim, or an error from a final non-zero exit. */
  function ClusterStat(sh: Shell, h: seq<Event>): (s: Step<string>)
    ensures TriedTen(sh, h, ClusterStatCmd, s.events)
    ensures s.result.Ok? <==> LastProc(s.events).code == 0
    ensures s.result.Ok? ==> s.result.value == LastProc(s.events).stdout
    ensures s.result.Err? ==> s.result.error == RaiseExp(LastProc(s.events))
  {
    var t := TryTen(sh, h, ClusterStatCmd);
    var p := t.last.value;
    Step(t.events, if p.code != 0 then Err(RaiseExp(p)) else Ok(p.stdout))
  }

  /** A status query that succeeds at once runs once, never sleeps, and returns that run's output. */
  lemma ClusterStatFirstSucceeds(sh: Shell, h: seq<Event>)
    requires Run(sh, h, ClusterStatCmd).code == 0
    ensures ClusterStat(sh, h) == Step([Ran(Run(sh, h, ClusterStatCmd))], Ok(Run(sh, h, ClusterStatCmd).stdout))
  {
    TryTenFirstSucceeds(sh, h, ClusterStatCmd);
  }

  /** A status query that keeps failing runs ten times with ten sleeps and raises from the tenth run. */
  lemma ClusterStatPersistentFailure(sh: Shell, h: seq<Event>, c: int)
    requires c != 0 && forall g :: Run(sh, g, ClusterStatCmd).code == c
    ensures var s := ClusterStat(sh, h);
      && |Procs(s.events)| == 10 && Sleeps(s.events) == 10
      && s.result == Err(RaiseExp(LastProc(s.events))) && LastProc(s.events).code == c
  {
    TryTenPersistentFailure(sh, h, ClusterStatCmd, c);
  }
}
