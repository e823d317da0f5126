/**
  Durable jobs under a lease: any number of runs, by any workers, issue guarded UPDATEs on one job
  row in any order. Each UPDATE is one atomic step; a stalled or dead run is one that issues no more.
*/
module LeaseProtocol {
  import opened Knowledge

  const LEASE_SECONDS := 180.0

  /** DRAFT for a blueprint and READY for a routing job are both Done. */
  datatype Status = Processing | Done | Failed | Cancelled

  datatype Row = Row(status: Status, leaseOwner: Option<string>, leaseUntil: Option<real>, attempts: nat)

  /** What a terminal UPDATE tests besides the job id. */
  datatype Guard = OwnerOnly | OwnerAndStatus

  // ---------------------------------------------------------------- the UPDATE statements

  /** The condition of the claim, and of the recovery query: unfinished, and no lease that still runs. */
  predicate Claimable(row: Row, now: real) {
    row.status == Processing && (row.leaseUntil.None? || row.leaseUntil.value < now)
  }

  function Claimed(row: Row, worker: string, now: real): Row {
    if Claimable(row, now)
    then row.(leaseOwner := Some(worker), leaseUntil := Some(now + LEASE_SECONDS), attempts := row.attempts + 1)
    else row
  }

  predicate Renewable(row: Row, worker: string) {
    row.status == Processing && row.leaseOwner == Some(worker)
  }

  function Renewed(row: Row, worker: string, now: real): Row {
    if Renewable(row, worker) then row.(leaseUntil := Some(now + LEASE_SECONDS)) else row
  }

  predicate Finishable(guard: Guard, row: Row, worker: string) {
    row.leaseOwner == Some(worker) && (guard == OwnerAndStatus ==> row.status == Processing)
  }

  function Finished(guard: Guard, row: Row, worker: string, status: Status): Row {
    if Finishable(guard, row, worker) then row.(status := status, leaseOwner := None, leaseUntil := None) else row
  }

  function NewRow(): Row { Row(Processing, None, None, 0) }

  // ---------------------------------------------------------------- runs of the system

  type Duration = d: real | d >= 0.0 witness 0.0

  /** One step; a run is one execution of the job function by some worker. */
  datatype Event =
    | Tick(elapsed: Duration)
    | Claim(run: nat)
    | Heartbeat(run: nat)
    | Commit(run: nat)
    | Fail(run: nat)
    | Cancel

  /** A claim that won: by which run, when, and when the owner before it had last renewed. */
  datatype Win = Win(run: nat, at: real, lastRenewal: Option<real>)

  /** The row, the database clock, and what has happened so far. */
  datatype State = State(now: real, row: Row, wins: seq<Win>, renewal: Option<real>, finishes: seq<nat>)

  function Start(now: real): State { State(now, NewRow(), [], None, []) }

  function Step(workerOf: nat -> string, guard: Guard, s: State, e: Event): State {
    match e
    case Tick(elapsed) => s.(now := s.now + elapsed)
    case Claim(run) =>
      if Claimable(s.row, s.now)
      then s.(row := Claimed(s.row, workerOf(run), s.now),
              wins := s.wins + [Win(run, s.now, s.renewal)], renewal := Some(s.now))
      else s
    case Heartbeat(run) =>
      if Renewable(s.row, workerOf(run))
      then s.(row := Renewed(s.row, workerOf(run), s.now), renewal := Some(s.now))
      else s
    case Commit(run) => Terminate(workerOf, guard, s, run, Done)
    case Fail(run) => Terminate(workerOf, guard, s, run, Failed)
    case Cancel => s.(row := s.row.(status := Cancelled))
  }

  function Terminate(workerOf: nat -> string, guard: Guard, s: State, run: nat, status: Status): State {
    if Finishable(guard, s.row, workerOf(run))
    then s.(row := Finished(guard, s.row, workerOf(run), status), finishes := s.finishes + [run])
    else s
  }

  function Run(workerOf: nat -> string, guard: Guard, now: real, events: seq<Event>): State
    decreases |events|
  {
    if events == [] then Start(now)
    else Step(workerOf, guard, Run(workerOf, guard, now, events[..|events| - 1]), events[|events| - 1])
  }

  // ---------------------------------------------------------------- what every step keeps

  ghost predicate Invariant(workerOf: nat -> string, s: State) {
    && (s.row.leaseOwner.Some? <==> s.row.leaseUntil.Some?)
    && s.row.attempts == |s.wins|
    && (s.renewal.Some? <==> s.wins != [])
    && (s.wins != [] ==> s.wins[|s.wins| - 1].at <= s.renewal.value <= s.now)
    && (s.row.leaseOwner.Some? ==>
          && s.wins != []
          && s.row.leaseOwner == Some(workerOf(s.wins[|s.wins| - 1].run))
          && s.row.leaseUntil == Some(s.renewal.value + LEASE_SECONDS))
    && (s.row.status == Processing ==> s.finishes == [] && (s.row.leaseOwner.None? ==> s.wins == []))
    && |s.finishes| <= 1
    && (s.finishes != [] ==> s.wins != [] && workerOf(s.finishes[0]) == workerOf(s.wins[|s.wins| - 1].run))
    && (forall k :: 0 < k < |s.wins| ==> TookOver(s.wins[k - 1], s.wins[k]))
  }

  /** A later claim wins only more than a whole lease after the last renewal of the claim before it. */
  ghost predicate TookOver(before: Win, after: Win) {
    && after.lastRenewal.Some? && before.at <= after.lastRenewal.value
    && after.at > after.lastRenewal.value + LEASE_SECONDS
  }

  lemma StepKeepsInvariant(workerOf: nat -> string, s: State, e: Event)
    requires Invariant(workerOf, s)
    ensures Invariant(workerOf, Step(workerOf, OwnerAndStatus, s, e))
  {
    if e.Claim? && Claimable(s.row, s.now) {
      var t := Step(workerOf, OwnerAndStatus, s, e);
      forall k | 0 < k < |t.wins| ensures TookOver(t.wins[k - 1], t.wins[k]) {
        if k < |s.wins| { assert TookOver(s.wins[k - 1], s.wins[k]); }
      }
    }
  }

  lemma {:induction false} RunKeepsInvariant(workerOf: nat -> string, now: real, events: seq<Event>)
    ensures Invariant(workerOf, Run(workerOf, OwnerAndStatus, now, events))
    decreases |events|
  {
    if events != [] {
      RunKeepsInvariant(workerOf, now, events[..|events| - 1]);
      StepKeepsInvariant(workerOf, Run(workerOf, OwnerAndStatus, now, events[..|events| - 1]), events[|events| - 1]);
    }
  }

  // ---------------------------------------------------------------- safety over whole runs

  /** The state after the first n events. */
  function At(workerOf: nat -> string, guard: Guard, now: real, events: seq<Event>, n: nat): State
    requires n <= |events|
  {
    Run(workerOf, guard, now, events[..n])
  }

  lemma AtNext(workerOf: nat -> string, guard: Guard, now: real, events: seq<Event>, n: nat)
    requires n < |events|
    ensures At(workerOf, guard, now, events, n + 1)
         == Step(workerOf, guard, At(workerOf, guard, now, events, n), events[n])
  {
    assert events[..n + 1][..n] == events[..n];
  }

  /**
    Once a job has left PROCESSING it never returns, no terminal write follows and no claim wins.
    While it stays, time and lease only move forward and claims only accumulate.
  */
  ghost predicate Later(s: State, t: State) {
    && s.now <= t.now
    && (s.row.status != Processing ==> t.row.status != Processing && t.finishes == s.finishes && t.wins == s.wins)
    && (s.row.status == Processing && t.row.status == Processing && s.row.leaseUntil.Some? ==>
          t.row.leaseUntil.Some? && s.row.leaseUntil.value <= t.row.leaseUntil.value)
    && s.wins <= t.wins && s.finishes <= t.finishes
  }

  lemma {:induction false} RunsMoveForward(workerOf: nat -> string, now: real, events: seq<Event>, i: nat, j: nat)
    requires i <= j <= |events|
    ensures Later(At(workerOf, OwnerAndStatus, now, events, i), At(workerOf, OwnerAndStatus, now, events, j))
    decreases j - i
  {
    if i < j {
      RunsMoveForward(workerOf, now, events, i, j - 1);
      AtNext(workerOf, OwnerAndStatus, now, events, j - 1);
      RunKeepsInvariant(workerOf, now, events[..j - 1]);
      var s, t := At(workerOf, OwnerAndStatus, now, events, i), At(workerOf, OwnerAndStatus, now, events, j - 1);
      StepMovesForward(workerOf, s, t, events[j - 1]);
    }
  }

  lemma StepMovesForward(workerOf: nat -> string, s: State, t: State, e: Event)
    requires Invariant(workerOf, t) && Later(s, t)
    ensures Later(s, Step(workerOf, OwnerAndStatus, t, e))
  {
  }

  /** At most one terminal write ever takes effect, and it is by the worker of the latest claim that won. */
  lemma OneTerminalWrite(workerOf: nat -> string, now: real, events: seq<Event>)
    ensures var s := Run(workerOf, OwnerAndStatus, now, events);
            && |s.finishes| <= 1
            && (s.finishes != [] ==> s.row.status != Processing)
            && (s.finishes != [] ==> s.wins != [] && workerOf(s.finishes[0]) == workerOf(s.wins[|s.wins| - 1].run))
  {
    RunKeepsInvariant(workerOf, now, events);
  }

  /** k + 1 claims take more than k whole leases, so the attempts are bounded by the time elapsed. */
  lemma AttemptsTakeTime(workerOf: nat -> string, now: real, events: seq<Event>)
    ensures var s := Run(workerOf, OwnerAndStatus, now, events);
            s.row.attempts >= 2 ==> (s.row.attempts - 1) as real * LEASE_SECONDS < s.now - now
  {
    var s := Run(workerOf, OwnerAndStatus, now, events);
    RunKeepsInvariant(workerOf, now, events);
    FirstWinAfterStart(workerOf, now, events);
    if |s.wins| >= 2 {
      WinsSpread(workerOf, s, |s.wins| - 1);
    }
  }

  lemma {:induction false} WinsSpread(workerOf: nat -> string, s: State, k: nat)
    requires Invariant(workerOf, s) && 0 < k < |s.wins|
    ensures s.wins[k].at - s.wins[0].at > k as real * LEASE_SECONDS
  {
    assert TookOver(s.wins[k - 1], s.wins[k]);
    if k > 1 {
      WinsSpread(workerOf, s, k - 1);
    }
  }

  lemma {:induction false} FirstWinAfterStart(workerOf: nat -> string, now: real, events: seq<Event>)
    ensures var s := Run(workerOf, OwnerAndStatus, now, events);
            s.now >= now && (s.wins != [] ==> s.wins[0].at >= now)
    decreases |events|
  {
    if events != [] {
      FirstWinAfterStart(workerOf, now, events[..|events| - 1]);
    }
  }

  /** No other worker gets the job while its owner has renewed within the last 180 seconds. */
  lemma NoTakeoverWithinLease(workerOf: nat -> string, now: real, events: seq<Event>, run: nat)
    ensures var s := Run(workerOf, OwnerAndStatus, now, events);
            var t := Step(workerOf, OwnerAndStatus, s, Claim(run));
            s.wins != [] && t.wins != s.wins ==> s.renewal.Some? && s.now > s.renewal.value + LEASE_SECONDS
  {
    RunKeepsInvariant(workerOf, now, events);
  }

  /** Never claimed, or no renewal for more than a lease. */
  ghost predicate SilentAt(s: State, now: real) {
    s.wins == [] || (s.renewal.Some? && now > s.renewal.value + LEASE_SECONDS)
  }

  /**
    The recovery query finds, and a claim by anyone wins, exactly the unfinished jobs that were never
    claimed or whose owner has been silent for more than a lease.
  */
  lemma RecoveryFindsSilentJobs(workerOf: nat -> string, now: real, events: seq<Event>, run: nat)
    ensures var s := Run(workerOf, OwnerAndStatus, now, events);
            var open := s.row.status == Processing && SilentAt(s, s.now);
            && (Claimable(s.row, s.now) <==> open)
            && (Step(workerOf, OwnerAndStatus, s, Claim(run)).wins
                  == if open then s.wins + [Win(run, s.now, s.renewal)] else s.wins)
  {
    RunKeepsInvariant(workerOf, now, events);
  }

  /** However its owner stalls, an unfinished job can be claimed by anyone after one silent lease. */
  lemma {:induction false} AbandonedIsRecoverable(workerOf: nat -> string, now: real, events: seq<Event>,
                                                  silence: Duration, run: nat)
    requires silence > LEASE_SECONDS
    ensures var s := Step(workerOf, OwnerAndStatus, Run(workerOf, OwnerAndStatus, now, events), Tick(silence));
            s.row.status == Processing ==>
              Step(workerOf, OwnerAndStatus, s, Claim(run)).wins == s.wins + [Win(run, s.now, s.renewal)]
  {
    RunKeepsInvariant(workerOf, now, events);
  }

  /** A cancelled job stays cancelled: no later claim, heartbeat or terminal write changes its status. */
  lemma {:induction false} CancelIsFinal(workerOf: nat -> string, now: real, events: seq<Event>, i: nat)
    requires i < |events| && events[i].Cancel?
    ensures Run(workerOf, OwnerAndStatus, now, events).row.status == Cancelled
    decreases |events|
  {
    var last := |events| - 1;
    if i < last {
      CancelIsFinal(workerOf, now, events[..last], i);
    }
  }

  // ---------------------------------------------------------------- the guard of the routing job

  /** The two guards part exactly where a finished or cancelled row still names its owner. */
  lemma GuardsDifferExactly(workerOf: nat -> string, s: State, e: Event)
    ensures Step(workerOf, OwnerOnly, s, e) != Step(workerOf, OwnerAndStatus, s, e) <==>
            (e.Commit? || e.Fail?) && s.row.leaseOwner == Some(workerOf(e.run)) && s.row.status != Processing
  {
    if e.Commit? || e.Fail? {
      assert s.finishes != s.finishes + [e.run];
    }
  }

  ghost predicate NeverCancelled(events: seq<Event>) {
    forall i :: 0 <= i < |events| ==> !events[i].Cancel?
  }

  lemma {:induction false} OwnedIsProcessing(workerOf: nat -> string, now: real, events: seq<Event>)
    requires NeverCancelled(events)
    ensures var s := Run(workerOf, OwnerAndStatus, now, events);
            s.row.leaseOwner.Some? ==> s.row.status == Processing
    decreases |events|
  {
    if events != [] {
      OwnedIsProcessing(workerOf, now, events[..|events| - 1]);
    }
  }

  /**
    Routing jobs have no cancel endpoint, and for them the test of the owner alone permits exactly
    the runs that testing the status as well would permit.
  */
  lemma {:induction false} OwnerOnlySuffices(workerOf: nat -> string, now: real, events: seq<Event>)
    requires NeverCancelled(events)
    ensures Run(workerOf, OwnerOnly, now, events) == Run(workerOf, OwnerAndStatus, now, events)
    decreases |events|
  {
    if events != [] {
      var init := events[..|events| - 1];
      OwnerOnlySuffices(workerOf, now, init);
      OwnedIsProcessing(workerOf, now, init);
      GuardsDifferExactly(workerOf, Run(workerOf, OwnerAndStatus, now, init), events[|events| - 1]);
    }
  }

  /** With a cancel endpoint it would not: the owner of a cancelled job would still finish it. */
  lemma CancelNeedsStatusGuard(workerOf: nat -> string, now: real, run: nat)
    ensures var events := [Claim(run), Cancel, Commit(run)];
            && Run(workerOf, OwnerOnly, now, events).row.status == Done
            && Run(workerOf, OwnerAndStatus, now, events).row.status == Cancelled
  {
    var events := [Claim(run), Cancel, Commit(run)];
    Unroll3(workerOf, OwnerOnly, now, events);
    Unroll3(workerOf, OwnerAndStatus, now, events);
  }

  lemma Unroll3(workerOf: nat -> string, guard: Guard, now: real, events: seq<Event>)
    requires |events| == 3
    ensures Run(workerOf, guard, now, events)
         == Step(workerOf, guard,
                 Step(workerOf, guard, Step(workerOf, guard, Start(now), events[0]), events[1]), events[2])
  {
    assert events[..2][..1] == events[..1] && events[..1][..0] == [];
    assert Run(workerOf, guard, now, events[..1]) == Step(workerOf, guard, Start(now), events[0]);
    assert Run(workerOf, guard, now, events[..2])
        == Step(workerOf, guard, Run(workerOf, guard, now, events[..1]), events[1]);
  }

  // ---------------------------------------------------------------- fencing between runs of one worker

  /** The terminal write always comes from the very run whose claim won last. */
  ghost predicate Fenced(workerOf: nat -> string, now: real) {
    forall events :: FinishedByLatest(Run(workerOf, OwnerAndStatus, now, events))
  }

  ghost predicate FinishedByLatest(s: State) {
    s.finishes != [] ==> s.wins != [] && s.finishes[0] == s.wins[|s.wins| - 1].run
  }

  ghost predicate OneRunPerWorker(workerOf: nat -> string) {
    forall a: nat, b: nat :: workerOf(a) == workerOf(b) ==> a == b
  }

  /**
    The owner test tells workers apart, not runs: if runs of one worker may overlap, stale runs are
    fenced exactly if no worker has two.
  */
  lemma FencedIffOneRunPerWorker(workerOf: nat -> string, now: real)
    ensures Fenced(workerOf, now) <==> OneRunPerWorker(workerOf)
  {
    if OneRunPerWorker(workerOf) {
      forall events ensures FinishedByLatest(Run(workerOf, OwnerAndStatus, now, events)) {
        OneTerminalWrite(workerOf, now, events);
      }
    } else {
      var a: nat, b: nat :| workerOf(a) == workerOf(b) && a != b;
      StaleRunFinishes(workerOf, now, a, b);
    }
  }

  /** A stalled run wakes up after its own worker has claimed the job again, and finishes it. */
  lemma StaleRunFinishes(workerOf: nat -> string, now: real, a: nat, b: nat)
    requires workerOf(a) == workerOf(b) && a != b
    ensures !FinishedByLatest(Run(workerOf, OwnerAndStatus, now, [Claim(a), Tick(181.0), Claim(b)] + [Commit(a)]))
  {
    var init := [Claim(a), Tick(181.0), Claim(b)];
    Unroll3(workerOf, OwnerAndStatus, now, init);
    assert (init + [Commit(a)])[..3] == init;
  }

  // ---------------------------------------------------------------- workers that run one job at a time

  function RunOf(e: Event): Option<nat> {
    match e
    case Claim(run) => Some(run)
    case Heartbeat(run) => Some(run)
    case Commit(run) => Some(run)
    case Fail(run) => Some(run)
    case _ => None
  }

  /** Step c is a claim of run a that wins. */
  ghost predicate WinsAt(workerOf: nat -> string, now: real, events: seq<Event>, c: nat, a: nat) {
    && c < |events| && events[c] == Claim(a)
    && Claimable(At(workerOf, OwnerAndStatus, now, events, c).row, At(workerOf, OwnerAndStatus, now, events, c).now)
  }

  /** A run goes on only after its own claim won. */
  ghost predicate OwnWinFirst(workerOf: nat -> string, now: real, events: seq<Event>) {
    forall i :: 0 <= i < |events| && (events[i].Heartbeat? || events[i].Commit? || events[i].Fail?) ==>
      WonBefore(workerOf, now, events, i, events[i].run)
  }

  ghost predicate WonBefore(workerOf: nat -> string, now: real, events: seq<Event>, i: nat, a: nat) {
    exists c: nat :: c < i && WinsAt(workerOf, now, events, c, a)
  }

  /** Between two steps of a run no other run of the same worker claims the job. */
  ghost predicate OneAtATime(workerOf: nat -> string, events: seq<Event>) {
    forall i, j, k :: 0 <= i < j < k < |events| ==> NotBetween(workerOf, events[i], events[j], events[k])
  }

  ghost predicate NotBetween(workerOf: nat -> string, first: Event, middle: Event, last: Event) {
    (&& RunOf(first).Some? && RunOf(first) == RunOf(last)
     && middle.Claim? && workerOf(middle.run) == workerOf(RunOf(first).value)) ==> RunOf(middle) == RunOf(first)
  }

  /** The latest claim that won is by run a itself, or by another worker. */
  ghost predicate LatestIsOwnOrForeign(workerOf: nat -> string, s: State, a: nat) {
    s.wins != [] && var latest := s.wins[|s.wins| - 1].run; latest == a || workerOf(latest) != workerOf(a)
  }

  lemma {:induction false} SinceOwnWin(workerOf: nat -> string, now: real, events: seq<Event>, c: nat, a: nat,
                                       i: nat, j: nat)
    requires OneAtATime(workerOf, events) && WinsAt(workerOf, now, events, c, a)
    requires c < j <= i < |events| && RunOf(events[i]) == Some(a)
    ensures LatestIsOwnOrForeign(workerOf, At(workerOf, OwnerAndStatus, now, events, j), a)
    decreases j
  {
    AtNext(workerOf, OwnerAndStatus, now, events, j - 1);
    if c < j - 1 {
      SinceOwnWin(workerOf, now, events, c, a, i, j - 1);
      assert NotBetween(workerOf, events[c], events[j - 1], events[i]);
    }
  }

  lemma StepKeepsFence(workerOf: nat -> string, s: State, e: Event)
    requires Invariant(workerOf, s) && FinishedByLatest(s)
    requires e.Commit? || e.Fail? ==> LatestIsOwnOrForeign(workerOf, s, e.run)
    ensures FinishedByLatest(Step(workerOf, OwnerAndStatus, s, e))
  {
  }

  lemma LatestBeforeFinish(workerOf: nat -> string, now: real, events: seq<Event>, i: nat)
    requires OneAtATime(workerOf, events) && OwnWinFirst(workerOf, now, events)
    requires i < |events| && (events[i].Commit? || events[i].Fail?)
    ensures LatestIsOwnOrForeign(workerOf, At(workerOf, OwnerAndStatus, now, events, i), events[i].run)
  {
    var run := events[i].run;
    assert WonBefore(workerOf, now, events, i, run);
    var c: nat :| c < i && WinsAt(workerOf, now, events, c, run);
    SinceOwnWin(workerOf, now, events, c, run, i, i);
  }

  lemma {:induction false} FencedSoFar(workerOf: nat -> string, now: real, events: seq<Event>, n: nat)
    requires OneAtATime(workerOf, events) && OwnWinFirst(workerOf, now, events) && n <= |events|
    ensures FinishedByLatest(At(workerOf, OwnerAndStatus, now, events, n))
    decreases n
  {
    if n > 0 {
      FencedSoFar(workerOf, now, events, n - 1);
      AtNext(workerOf, OwnerAndStatus, now, events, n - 1);
      RunKeepsInvariant(workerOf, now, events[..n - 1]);
      if events[n - 1].Commit? || events[n - 1].Fail? {
        LatestBeforeFinish(workerOf, now, events, n - 1);
      }
      StepKeepsFence(workerOf, At(workerOf, OwnerAndStatus, now, events, n - 1), events[n - 1]);
    }
  }

  /**
    With workers that execute one run at a time, which go on only after their own claim won, the
    terminal write always comes from the run that claimed last, however many runs a worker makes.
  */
  lemma FencedWhenOneAtATime(workerOf: nat -> string, now: real, events: seq<Event>)
    requires OneAtATime(workerOf, events) && OwnWinFirst(workerOf, now, events)
    ensures FinishedByLatest(Run(workerOf, OwnerAndStatus, now, events))
  {
    FencedSoFar(workerOf, now, events, |events|);
    assert events[..|events|] == events;
  }

  // ---------------------------------------------------------------- the row in the database

  /** For either kind of job: the runs that can happen are those of the stricter guard. */
  lemma HistoryIsGuarded(workerOf: nat -> string, guard: Guard, now: real, events: seq<Event>)
    requires guard == OwnerOnly ==> NeverCancelled(events)
    ensures Run(workerOf, guard, now, events) == Run(workerOf, OwnerAndStatus, now, events)
    ensures Invariant(workerOf, Run(workerOf, guard, now, events))
  {
    RunKeepsInvariant(workerOf, now, events);
    if guard == OwnerOnly {
      OwnerOnlySuffices(workerOf, now, events);
    }
  }

  /** A terminal write takes effect exactly on an unfinished job whose latest claim is the worker's, and once. */
  lemma TerminalWrite(workerOf: nat -> string, guard: Guard, now: real, events: seq<Event>, run: nat)
    requires guard == OwnerOnly ==> NeverCancelled(events)
    ensures var s := Run(workerOf, guard, now, events);
            var effective :=
              s.row.status == Processing && s.wins != [] && workerOf(s.wins[|s.wins| - 1].run) == workerOf(run);
            && (Finishable(guard, s.row, workerOf(run)) <==> effective)
            && |s.finishes| <= 1 && (effective ==> s.finishes == [])
  {
    HistoryIsGuarded(workerOf, guard, now, events);
    if guard == OwnerOnly {
      OwnedIsProcessing(workerOf, now, events);
    }
  }

  /** What a claim at a time does, whatever the history: it wins exactly on an unfinished, silent job. */
  lemma ClaimWins(workerOf: nat -> string, s: State, now: real, run: nat)
    requires Invariant(workerOf, s) && now >= s.now
    ensures Claimable(s.row, now) <==> s.row.status == Processing && SilentAt(s, now)
    ensures var t := Step(workerOf, OwnerAndStatus, s.(now := now), Claim(run));
            && (Claimable(s.row, now) ==>
                  t.wins == s.wins + [Win(run, now, s.renewal)] && !SilentAt(t, now + LEASE_SECONDS))
            && (!Claimable(s.row, now) ==> t == s.(now := now))
  {
  }

  lemma RunAppends(workerOf: nat -> string, guard: Guard, now: real, events: seq<Event>, e: Event)
    ensures Run(workerOf, guard, now, events + [e]) == Step(workerOf, guard, Run(workerOf, guard, now, events), e)
  {
    assert (events + [e])[..|events|] == events;
  }

  /**
    A row as the UPDATE statements of competing runs change it in place. Its fields are at every time
    those of the history of steps, so all that is proved of histories holds of the row. Only jobs that
    test the status as well can be cancelled.
  */
  class JobRow {
    var status: Status
    var leaseOwner: Option<string>
    var leaseUntil: Option<real>
    var attempts: nat
    const guard: Guard
    ghost const workerOf: nat -> string
    ghost const start: real
    ghost var events: seq<Event>

    ghost function History(): State
      reads this
    {
      Run(workerOf, guard, start, events)
    }

    ghost predicate Valid()
      reads this
    {
      && Row(status, leaseOwner, leaseUntil, attempts) == History().row
      && (guard == OwnerOnly ==> NeverCancelled(events))
    }

    /** The latest claim that won is by this worker. */
    ghost predicate LatestBy(worker: string)
      reads this
    {
      var wins := History().wins;
      wins != [] && workerOf(wins[|wins| - 1].run) == worker
    }

    ghost predicate Silent(now: real)
      reads this
    {
      SilentAt(History(), now)
    }

    constructor (guard: Guard, ghost workerOf: nat -> string, ghost start: real)
      ensures Valid() && events == [] && this.guard == guard && this.workerOf == workerOf && this.start == start
      ensures status == Processing && Silent(start)
    {
      status, leaseOwner, leaseUntil, attempts := Processing, None, None, 0;
      this.guard, this.workerOf, this.start, events := guard, workerOf, start, [];
    }

    /** Records that the database clock has reached now, and one step. */
    ghost method Record(now: real, e: Event)
      requires now >= History().now && (guard == OwnerOnly ==> NeverCancelled(events) && !e.Cancel?)
      modifies this`events
      ensures events == old(events) + [Tick(now - old(History()).now)] + [e]
      ensures History() == Step(workerOf, guard, old(History()).(now := now), e)
      ensures guard == OwnerOnly ==> NeverCancelled(events)
    {
      var tick := Tick(now - History().now);
      RunAppends(workerOf, guard, start, events, tick);
      RunAppends(workerOf, guard, start, events + [tick], e);
      events := events + [tick] + [e];
    }

    /** A claim wins exactly on an unfinished job that is silent, and then renews for a whole lease. */
    method Claim(worker: string, now: real, ghost run: nat) returns (won: bool)
      requires Valid() && worker == workerOf(run) && now >= History().now
      modifies this
      ensures Valid() && events == old(events) + [Tick(now - old(History()).now)] + [Event.Claim(run)]
      ensures won <==> old(status) == Processing && old(Silent(now))
      ensures won ==> LatestBy(worker) && !Silent(now + LEASE_SECONDS) && attempts == old(attempts) + 1
      ensures !won ==> status == old(status) && leaseOwner == old(leaseOwner) && leaseUntil == old(leaseUntil)
                       && attempts == old(attempts)
    {
      HistoryIsGuarded(workerOf, guard, start, events);
      ClaimWins(workerOf, History(), now, run);
      won := status == Processing && (leaseUntil == None || leaseUntil.value < now);
      if won {
        leaseOwner, leaseUntil, attempts := Some(worker), Some(now + LEASE_SECONDS), attempts + 1;
      }
      Record(now, Event.Claim(run));
    }

    /**
      The lease is renewed exactly if the job is unfinished and no other worker has claimed it since;
      it never shrinks.
    */
    method Heartbeat(worker: string, now: real, ghost run: nat)
      requires Valid() && worker == workerOf(run) && now >= History().now
      modifies this
      ensures Valid() && events == old(events) + [Tick(now - old(History()).now)] + [Event.Heartbeat(run)]
      ensures status == old(status) && leaseOwner == old(leaseOwner) && attempts == old(attempts)
      ensures if status == Processing && old(LatestBy(worker)) then leaseUntil == Some(now + LEASE_SECONDS)
              else leaseUntil == old(leaseUntil)
      ensures status == Processing && old(leaseUntil).Some? ==>
                leaseUntil.Some? && leaseUntil.value >= old(leaseUntil).value
    {
      HistoryIsGuarded(workerOf, guard, start, events);
      if status == Processing && leaseOwner == Some(worker) {
        leaseUntil := Some(now + LEASE_SECONDS);
      }
      Record(now, Event.Heartbeat(run));
    }

    /**
      The terminal write takes effect exactly if the job is unfinished and its latest claim is the
      worker's; and only once.
    */
    method Finish(worker: string, success: bool, now: real, ghost run: nat)
      requires Valid() && worker == workerOf(run) && now >= History().now
      modifies this
      ensures Valid()
      ensures events == old(events) + [Tick(now - old(History()).now)] + [if success then Commit(run) else Fail(run)]
      ensures if old(status) == Processing && old(LatestBy(worker))
              then status == (if success then Done else Failed) && History().finishes == [run] && leaseOwner.None?
              else status == old(status) && History().finishes == old(History()).finishes
      ensures |History().finishes| <= 1
    {
      TerminalWrite(workerOf, guard, start, events, run);
      if leaseOwner == Some(worker) && (guard == OwnerOnly || status == Processing) {
        status, leaseOwner, leaseUntil := if success then Done else Failed, None, None;
      }
      Record(now, if success then Commit(run) else Fail(run));
    }

    /** Cancelling is final: whatever steps follow, the job stays cancelled. */
    method Cancel(now: real)
      requires Valid() && guard == OwnerAndStatus && now >= History().now
      modifies this
      ensures Valid() && events == old(events) + [Tick(now - old(History()).now)] + [Event.Cancel]
      ensures status == Cancelled && leaseOwner == old(leaseOwner) && leaseUntil == old(leaseUntil)
      ensures forall more :: Run(workerOf, guard, start, events + more).row.status == Cancelled
    {
      status := Cancelled;
      Record(now, Event.Cancel);
      forall more ensures Run(workerOf, guard, start, events + more).row.status == Cancelled {
        CancelIsFinal(workerOf, start, events + more, |events| - 1);
      }
    }
  }
}
