/**
  The worktree lease: any number of lease objects for one path, each with its heartbeat thread, as a state
  machine whose steps interleave freely.  One step is one file access or one flag change.
 */
module Lease {
  import opened Contracts

  /** The object's own progress; the acquired flag of the code is set from Held to Unlinked. */
  datatype Phase = Idle | Creating | Held | Stopping | Owner | Failing | Unlinked | Over | Dead

  /** The heartbeat thread: asleep, past its stop check, or past its ownership check and about to replace the file. */
  datatype Thread = NoThread | Asleep | Awake | Confirmed | Ended

  datatype Holder = Holder(phase: Phase, thread: Thread)

  /** `inode` names the creator while the file is still the created one; `owner` is the recorded nonce. */
  datatype LeaseFile = LeaseFile(inode: Option<nat>, owner: Option<nat>)

  datatype State = State(file: Option<LeaseFile>, holders: seq<Holder>)

  datatype Step =
    | Create(i: nat)
    | WritePayload(i: nat)
    | WriteFails(i: nat)
    | StartThread(i: nat)
    | Wake(i: nat)
    | Confirm(i: nat)
    | Replace(i: nat)
    | BeginRelease(i: nat)
    | ReadForRelease(i: nat)
    | Unlink(i: nat)
    | EndRelease(i: nat)
    | Crash(i: nat)

  function Initial(n: nat): State {
    State(None, seq(n, i => Holder(Idle, NoThread)))
  }

  function Phased(s: State, i: nat, phase: Phase): State
    requires i < |s.holders|
  {
    s.(holders := s.holders[i := s.holders[i].(phase := phase)])
  }

  function Threaded(s: State, i: nat, thread: Thread): State
    requires i < |s.holders|
  {
    s.(holders := s.holders[i := s.holders[i].(thread := thread)])
  }

  predicate Owns(s: State, i: nat) {
    s.file.Some? && s.file.value.owner == Some(i)
  }

  /** One step; a step whose object is elsewhere does nothing. */
  function Next(s: State, step: Step): State {
    if step.i >= |s.holders| then s
    else
      var h := s.holders[step.i];
      match step
      case Create(i) =>
        // exclusive creation: while the file exists the object keeps polling
        if h.phase == Idle && s.file.None? then Phased(s.(file := Some(LeaseFile(Some(i), None))), i, Creating) else s
      case WritePayload(i) =>
        // the payload goes to the created file, which a replacement may have unlinked meanwhile
        if h.phase == Creating then
          Phased(if s.file.Some? && s.file.value.inode == Some(i) then s.(file := Some(LeaseFile(Some(i), Some(i)))) else s, i, Held)
        else s
      case WriteFails(i) => if h.phase == Creating then Phased(s.(file := None), i, Over) else s
      case StartThread(i) => if h.phase == Held && h.thread == NoThread then Threaded(s, i, Asleep) else s
      case Wake(i) =>
        if h.thread == Asleep then Threaded(s, i, if h.phase == Held then Awake else Ended) else s
      case Confirm(i) => if h.thread == Awake then Threaded(s, i, if Owns(s, i) then Confirmed else Ended) else s
      case Replace(i) =>
        if h.thread == Confirmed then Threaded(s.(file := Some(LeaseFile(None, Some(i)))), i, Asleep) else s
      case BeginRelease(i) => if h.phase == Held then Phased(s, i, Stopping) else s
      case ReadForRelease(i) =>
        // the join before this step may have timed out, so the thread can be anywhere
        if h.phase == Stopping then Phased(s, i, if Owns(s, i) then Owner else Failing) else s
      case Unlink(i) => if h.phase == Owner then Phased(s.(file := None), i, Unlinked) else s
      case EndRelease(i) => if h.phase == Unlinked || h.phase == Failing then Phased(s, i, Over) else s
      case Crash(i) => s.(holders := s.holders[i := Holder(Dead, Ended)])
  }

  function Run(n: nat, steps: seq<Step>): State {
    if |steps| == 0 then Initial(n) else Next(Run(n, steps[..|steps| - 1]), steps[|steps| - 1])
  }

  /** The acquired flag of the code. */
  predicate Flagged(s: State, i: nat) {
    i < |s.holders| && s.holders[i].phase in {Held, Stopping, Owner, Failing, Unlinked}
  }

  /** The object owns the path: from its exclusive creation to its unlink. */
  predicate Occupies(s: State, i: nat) {
    i < |s.holders| && s.holders[i].phase in {Creating, Held, Stopping, Owner, Failing}
  }

  ghost predicate Exclusive(s: State) {
    && (forall i: nat, j: nat :: Occupies(s, i) && Occupies(s, j) ==> i == j)
    && (forall i: nat :: Occupies(s, i) ==> s.file.Some?)
  }

  lemma StepIsExclusive(s: State, step: Step)
    requires Exclusive(s)
    ensures Exclusive(Next(s, step))
  {
    var s' := Next(s, step);
    assert forall i: nat :: i != step.i ==> (Occupies(s', i) <==> Occupies(s, i));
    assert forall i: nat :: Occupies(s, i) && Occupies(s, step.i) ==> i == step.i;
    assert Occupies(s', step.i) && !Occupies(s, step.i) ==> step.Create? && s.file.None?;
  }

  /**
    In every interleaving, including heartbeats that outlive the join of a release: at most one object owns
    the path, and while one does the lease file exists.  Of two objects with the flag set at the same time,
    all but one have already unlinked.
   */
  lemma {:induction false} MutualExclusion(n: nat, steps: seq<Step>)
    ensures Exclusive(Run(n, steps))
    ensures forall i: nat, j: nat :: Flagged(Run(n, steps), i) && Flagged(Run(n, steps), j) && i != j ==>
              Run(n, steps).holders[i].phase == Unlinked || Run(n, steps).holders[j].phase == Unlinked
  {
    if |steps| > 0 {
      MutualExclusion(n, steps[..|steps| - 1]);
      StepIsExclusive(Run(n, steps[..|steps| - 1]), steps[|steps| - 1]);
    }
    forall i: nat, j: nat | Flagged(Run(n, steps), i) && Flagged(Run(n, steps), j) && i != j
      ensures Run(n, steps).holders[i].phase == Unlinked || Run(n, steps).holders[j].phase == Unlinked
    {
      assert !(Occupies(Run(n, steps), i) && Occupies(Run(n, steps), j));
    }
  }

  // ---------------------------------------------------------------- when the file can be trusted

  /** A heartbeat replaces the file although its object no longer owns the path. */
  predicate Late(s: State, step: Step) {
    && step.Replace? && step.i < |s.holders| && s.holders[step.i].thread == Confirmed
    && s.holders[step.i].phase !in {Held, Stopping, Owner}
  }

  /** The file is this object's as long as it owns the path, and its release does not fail. */
  predicate Trusted(s: State, i: nat) {
    i < |s.holders| ==>
      && (s.holders[i].phase == Creating ==> s.file == Some(LeaseFile(Some(i), None)))
      && (s.holders[i].phase in {Held, Stopping, Owner} ==> Owns(s, i))
      && s.holders[i].phase != Failing
  }

  /** The object died while it owned the path and is still the one the file names. */
  predicate LeftBehind(s: State, i: nat) {
    && i < |s.holders| && s.holders[i].phase == Dead && s.file.Some?
    && (s.file.value.owner == Some(i) || (s.file.value.owner == None && s.file.value.inode == Some(i)))
  }

  /** Every owner's file is its own, no release fails, and an unowned file names an object that died. */
  ghost predicate Good(s: State) {
    && (forall i: nat :: Trusted(s, i))
    && (s.file.Some? ==> exists i: nat :: Occupies(s, i) || LeftBehind(s, i))
  }

  /** No thread before the payload is written, none behind a crash. */
  predicate ThreadFits(s: State, i: nat) {
    i < |s.holders| ==>
      && (s.holders[i].phase in {Idle, Creating} ==> s.holders[i].thread == NoThread)
      && (s.holders[i].phase == Dead ==> s.holders[i].thread == Ended)
  }

  lemma {:induction false} ThreadsFit(n: nat, steps: seq<Step>)
    ensures forall i: nat :: ThreadFits(Run(n, steps), i)
  {
    if |steps| > 0 {
      var front, step := steps[..|steps| - 1], steps[|steps| - 1];
      ThreadsFit(n, front);
      forall i: nat ensures ThreadFits(Next(Run(n, front), step), i) {
        assert ThreadFits(Run(n, front), i) && ThreadFits(Run(n, front), step.i);
      }
    }
  }

  lemma TrustedKept(s: State, step: Step, i: nat)
    requires Exclusive(s) && !Late(s, step) && (forall j: nat :: ThreadFits(s, j)) && forall j: nat :: Trusted(s, j)
    ensures Trusted(Next(s, step), i)
  {
    assert Trusted(s, i) && Trusted(s, step.i) && ThreadFits(s, step.i);
    assert Occupies(s, i) && Occupies(s, step.i) ==> i == step.i;
  }

  lemma StepGood(s: State, step: Step)
    requires Exclusive(s) && !Late(s, step) && (forall j: nat :: ThreadFits(s, j)) && Good(s)
    ensures Good(Next(s, step))
  {
    var s' := Next(s, step);
    forall i: nat ensures Trusted(s', i) { TrustedKept(s, step, i); }
    if s'.file.Some? && step.i < |s.holders| {
      assert Trusted(s, step.i);
      if s.file.Some? {
        var i: nat :| Occupies(s, i) || LeftBehind(s, i);
        assert Trusted(s, i);
        assert Occupies(s, i) && Occupies(s, step.i) ==> i == step.i;
        assert Occupies(s', i) || LeftBehind(s', i) || Occupies(s', step.i) || LeftBehind(s', step.i);
      } else {
        assert Occupies(s', step.i) || LeftBehind(s', step.i);
      }
    }
  }

  lemma LateBreaks(s: State, step: Step)
    requires Late(s, step) && forall j: nat :: ThreadFits(s, j)
    ensures !Good(Next(s, step))
  {
    var s' := Next(s, step);
    assert ThreadFits(s, step.i);
    assert s'.file.Some?;
    forall j: nat ensures !((Occupies(s', j) || LeftBehind(s', j)) && Trusted(s', j)) {
      assert s'.file.value == LeaseFile(None, Some(step.i));
    }
  }

  predicate NoneLate(n: nat, steps: seq<Step>) {
    forall k :: 0 <= k < |steps| ==> !Late(Run(n, steps[..k]), steps[k])
  }

  ghost predicate AlwaysGood(n: nat, steps: seq<Step>) {
    forall k :: 0 <= k <= |steps| ==> Good(Run(n, steps[..k]))
  }

  lemma RunOneMore(n: nat, steps: seq<Step>, k: nat)
    requires k < |steps|
    ensures Run(n, steps[..k + 1]) == Next(Run(n, steps[..k]), steps[k])
  {
    assert steps[..k + 1][..k] == steps[..k];
  }

  lemma {:induction false} NoneLateStaysGood(n: nat, steps: seq<Step>, k: nat)
    requires NoneLate(n, steps) && k <= |steps|
    ensures Good(Run(n, steps[..k]))
  {
    if k > 0 {
      NoneLateStaysGood(n, steps, k - 1);
      RunOneMore(n, steps, k - 1);
      MutualExclusion(n, steps[..k - 1]);
      ThreadsFit(n, steps[..k - 1]);
      StepGood(Run(n, steps[..k - 1]), steps[k - 1]);
    }
  }

  /**
    A run keeps every owner's file its own, lets every release succeed and leaves unowned files only behind
    objects that died, at every moment, if and only if no heartbeat replaces the file after its object has
    given up the path.
   */
  lemma GoodExactlyWithoutLateHeartbeats(n: nat, steps: seq<Step>)
    ensures NoneLate(n, steps) <==> AlwaysGood(n, steps)
  {
    if NoneLate(n, steps) {
      forall k | 0 <= k <= |steps| ensures Good(Run(n, steps[..k])) { NoneLateStaysGood(n, steps, k); }
    } else {
      var k :| 0 <= k < |steps| && Late(Run(n, steps[..k]), steps[k]);
      RunOneMore(n, steps, k);
      ThreadsFit(n, steps[..k]);
      LateBreaks(Run(n, steps[..k]), steps[k]);
    }
  }

  /** The thread has ended when its release goes on to read the file. */
  predicate Joined(s: State, step: Step) {
    step.ReadForRelease? && step.i < |s.holders| ==> s.holders[step.i].thread in {NoThread, Ended}
  }

  predicate AllJoined(n: nat, steps: seq<Step>) {
    forall k :: 0 <= k < |steps| ==> Joined(Run(n, steps[..k]), steps[k])
  }

  /** A thread that may still write belongs to an object that has not yet read the file for its release. */
  predicate ThreadInside(s: State, i: nat) {
    i < |s.holders| && s.holders[i].thread in {Asleep, Awake, Confirmed} ==> s.holders[i].phase in {Held, Stopping}
  }

  lemma StaysInside(s: State, step: Step, i: nat)
    requires ThreadInside(s, i) && ThreadFits(s, i) && Joined(s, step)
    ensures ThreadInside(Next(s, step), i)
  {
  }

  lemma {:induction false} JoinedThreadsInside(n: nat, steps: seq<Step>, k: nat, i: nat)
    requires AllJoined(n, steps) && k <= |steps|
    ensures ThreadInside(Run(n, steps[..k]), i)
  {
    if k > 0 {
      var last := k - 1;
      JoinedThreadsInside(n, steps, last, i);
      RunOneMore(n, steps, last);
      ThreadsFit(n, steps[..last]);
      StaysInside(Run(n, steps[..last]), steps[last], i);
    }
  }

  /** In particular it is enough that no heartbeat outlives the join of its release. */
  lemma JoinedRunsStayClean(n: nat, steps: seq<Step>)
    requires AllJoined(n, steps)
    ensures AlwaysGood(n, steps)
  {
    forall k | 0 <= k < |steps| ensures !Late(Run(n, steps[..k]), steps[k]) {
      JoinedThreadsInside(n, steps, k, steps[k].i);
    }
    GoodExactlyWithoutLateHeartbeats(n, steps);
  }

  // ---------------------------------------------------------------- what a late heartbeat breaks

  /** The path can never be leased again: the file is there and no object will ever remove it. */
  ghost predicate Stuck(s: State) {
    && s.file.Some?
    && forall i: nat :: i < |s.holders| ==> !Occupies(s, i)
  }

  lemma StuckForever(s: State, step: Step)
    requires Stuck(s)
    ensures Stuck(Next(s, step))
  {
    assert step.i < |s.holders| ==> !Occupies(s, step.i);
    forall i: nat | i < |Next(s, step).holders| ensures !Occupies(Next(s, step), i) {
      assert !Occupies(s, i);
    }
  }

  /** A run of two lease objects, state by state. */
  lemma Ran(steps: seq<Step>, s: State, step: Step, s': State)
    requires Run(2, steps) == s && Next(s, step) == s'
    ensures Run(2, steps + [step]) == s'
  {
  }

  function Two(file: Option<LeaseFile>, p: Phase, t: Thread, q: Phase): State {
    State(file, [Holder(p, t), Holder(q, NoThread)])
  }

  const MINE := Some(LeaseFile(Some(0), Some(0)))
  const YOURS := Some(LeaseFile(Some(1), Some(1)))
  const REPLACED := Some(LeaseFile(None, Some(0)))

  lemma FirstHolds() returns (steps: seq<Step>)
    ensures Run(2, steps) == Two(MINE, Held, NoThread, Idle)
  {
    assert Initial(2).holders == Two(None, Idle, NoThread, Idle).holders;
    steps := Go([], Two(None, Idle, NoThread, Idle), Create(0), Two(Some(LeaseFile(Some(0), None)), Creating, NoThread, Idle));
    steps := Go(steps, Two(Some(LeaseFile(Some(0), None)), Creating, NoThread, Idle), WritePayload(0), Two(MINE, Held, NoThread, Idle));
  }

  lemma FirstConfirms() returns (steps: seq<Step>)
    ensures Run(2, steps) == Two(MINE, Held, Confirmed, Idle)
  {
    steps := FirstHolds();
    steps := Go(steps, Two(MINE, Held, NoThread, Idle), StartThread(0), Two(MINE, Held, Asleep, Idle));
    steps := Go(steps, Two(MINE, Held, Asleep, Idle), Wake(0), Two(MINE, Held, Awake, Idle));
    steps := Go(steps, Two(MINE, Held, Awake, Idle), Confirm(0), Two(MINE, Held, Confirmed, Idle));
  }

  /** The first object is confirmed by its heartbeat, and releases before the heartbeat replaces the file. */
  lemma FirstReleases() returns (steps: seq<Step>)
    ensures Run(2, steps) == Two(None, Unlinked, Confirmed, Idle)
  {
    steps := FirstConfirms();
    steps := Go(steps, Two(MINE, Held, Confirmed, Idle), BeginRelease(0), Two(MINE, Stopping, Confirmed, Idle));
    steps := Go(steps, Two(MINE, Stopping, Confirmed, Idle), ReadForRelease(0), Two(MINE, Owner, Confirmed, Idle));
    steps := Go(steps, Two(MINE, Owner, Confirmed, Idle), Unlink(0), Two(None, Unlinked, Confirmed, Idle));
  }

  lemma Go(steps: seq<Step>, s: State, step: Step, s': State) returns (longer: seq<Step>)
    requires Run(2, steps) == s && Next(s, step) == s'
    ensures longer == steps + [step] && Run(2, longer) == s'
  {
    Ran(steps, s, step, s');
    longer := steps + [step];
  }

  /** Between the unlink and the end of a release the flags of two objects can be set at the same time. */
  lemma FlagsOverlap() returns (steps: seq<Step>)
    ensures Flagged(Run(2, steps), 0) && Flagged(Run(2, steps), 1)
    ensures Run(2, steps) == Two(YOURS, Unlinked, Confirmed, Held)
  {
    steps := FirstReleases();
    steps := Go(steps, Two(None, Unlinked, Confirmed, Idle), Create(1), Two(Some(LeaseFile(Some(1), None)), Unlinked, Confirmed, Creating));
    steps := Go(steps, Two(Some(LeaseFile(Some(1), None)), Unlinked, Confirmed, Creating), WritePayload(1), Two(YOURS, Unlinked, Confirmed, Held));
  }

  /**
    A heartbeat that outlives the join replaces the next holder's file: that holder's release fails, and
    the path is stuck although nobody died and every release has ended.
   */
  lemma LateHeartbeatSticks() returns (steps: seq<Step>)
    ensures Stuck(Run(2, steps)) && Run(2, steps) == Two(REPLACED, Over, Asleep, Over)
  {
    steps := FlagsOverlap();
    steps := Go(steps, Two(YOURS, Unlinked, Confirmed, Held), Replace(0), Two(REPLACED, Unlinked, Asleep, Held));
    steps := Go(steps, Two(REPLACED, Unlinked, Asleep, Held), BeginRelease(1), Two(REPLACED, Unlinked, Asleep, Stopping));
    steps := Go(steps, Two(REPLACED, Unlinked, Asleep, Stopping), ReadForRelease(1), Two(REPLACED, Unlinked, Asleep, Failing));
    steps := Go(steps, Two(REPLACED, Unlinked, Asleep, Failing), EndRelease(1), Two(REPLACED, Unlinked, Asleep, Over));
    steps := Go(steps, Two(REPLACED, Unlinked, Asleep, Over), EndRelease(0), Two(REPLACED, Over, Asleep, Over));
  }
}
