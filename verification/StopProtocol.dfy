/** The run thread of one worker and one call of stop(), interleaved in every order.

    Each step is one action of one thread on shared state, or the exit of a child process at any moment. */
module StopProtocol {
  import opened Wrappers

  /** Where the run thread is, named after what it does next. */
  datatype RunPc =
    | TestFlag            // head of the outer loop
    | Spawn
    | WaitAfterFailure    // the launch failed: wait on the stop flag
    | Publish             // store the process under the lock
    | Poll                // head of the inner loop
    | WaitTick            // wait one second on the stop flag
    | TestStall
    | TestFlagAgain       // behind the inner loop
    | TerminateIfAlive
    | WaitExit            // wait at most five seconds
    | ForceKill
    | WaitForever         // wait without a limit
    | Unpublish
    | TestFlagLast
    | WaitBackoff
    | Finished

  datatype StopPc = NotCalled | ReadProcess | TestAlive | Terminate | AwaitExit | KillHard | JoinThread | Returned

  datatype State = State(
    flag: bool,
    alive: set<nat>,          // child processes that have not exited
    killed: set<nat>,         // child processes that were sent SIGKILL
    spawned: nat,             // how many were ever started; also the next identifier
    late: nat,                // how many were started after the flag was set
    published: Option<nat>,   // the field that both threads use
    running: Option<nat>,     // the run thread's own variable
    target: Option<nat>,      // the stop thread's own variable
    run: RunPc,
    stop: StopPc)

  const INITIAL := State(false, {}, {}, 0, 0, None, None, None, TestFlag, NotCalled)

  datatype Actor = RunThread | StopThread | World

  predicate IsAlive(s: State, p: Option<nat>) {
    p.Some? && p.value in s.alive
  }

  /** A wait on the flag ends early exactly when the flag is set. */
  function AfterWait(s: State, otherwise: RunPc): State {
    s.(run := if s.flag then Finished else otherwise)
  }

  predicate RunStep(s: State, t: State) {
    match s.run
    case TestFlag => t == s.(run := if s.flag then Finished else Spawn)
    case Spawn =>
      || t == s.(run := WaitAfterFailure)
      || t == s.(run := Publish, running := Some(s.spawned), alive := s.alive + {s.spawned},
                 spawned := s.spawned + 1, late := if s.flag then s.late + 1 else s.late)
    case WaitAfterFailure => t == AfterWait(s, TestFlag)
    case Publish => t == s.(run := Poll, published := s.running)
    case Poll => t == s.(run := if IsAlive(s, s.running) then WaitTick else TestFlagAgain)
    case WaitTick => t == s.(run := if s.flag then TestFlagAgain else TestStall)
    case TestStall => t == s.(run := Poll) || t == s.(run := TestFlagAgain)
    case TestFlagAgain => t == s.(run := if s.flag then TerminateIfAlive else WaitExit)
    case TerminateIfAlive => t == s.(run := WaitExit)
    case WaitExit => t == s.(run := if IsAlive(s, s.running) then ForceKill else Unpublish)
    case ForceKill =>
      t == s.(run := WaitForever, killed := if s.running.Some? then s.killed + {s.running.value} else s.killed)
    case WaitForever => !IsAlive(s, s.running) && t == s.(run := Unpublish)
    case Unpublish => t == s.(run := TestFlagLast, published := None, running := None)
    case TestFlagLast => t == s.(run := if s.flag then Finished else WaitBackoff)
    case WaitBackoff => t == AfterWait(s, TestFlag)
    case Finished => false
  }

  /** The join at the end gives up after a time limit. */
  predicate StopStep(s: State, t: State) {
    match s.stop
    case NotCalled => t == s.(flag := true, stop := ReadProcess)
    case ReadProcess => t == s.(stop := TestAlive, target := s.published)
    case TestAlive => t == s.(stop := if IsAlive(s, s.target) then Terminate else JoinThread)
    case Terminate => t == s.(stop := AwaitExit)
    case AwaitExit => t == s.(stop := if IsAlive(s, s.target) then KillHard else JoinThread)
    case KillHard =>
      t == s.(stop := JoinThread, killed := if s.target.Some? then s.killed + {s.target.value} else s.killed)
    case JoinThread => t == s.(stop := Returned)
    case Returned => false
  }

  predicate WorldStep(s: State, t: State) {
    exists p | p in s.alive :: t == s.(alive := s.alive - {p})
  }

  predicate Step(s: State, t: State, actor: Actor) {
    match actor
    case RunThread => RunStep(s, t)
    case StopThread => StopStep(s, t)
    case World => WorldStep(s, t)
  }

  /** A history: states and, between each two of them, who acted. */
  predicate IsTrace(states: seq<State>, actors: seq<Actor>) {
    && |states| == |actors| + 1
    && forall i | 0 <= i < |actors| :: Step(states[i], states[i + 1], actors[i])
  }

  // ---------- invariant ----------

  predicate HasNoChild(pc: RunPc) {
    pc in {TestFlag, Spawn, WaitAfterFailure, TestFlagLast, WaitBackoff, Finished}
  }

  /** Places from which the run thread could start another child without testing the flag first. */
  predicate MaySpawn(pc: RunPc) {
    pc in {TestFlag, Spawn, WaitAfterFailure, WaitBackoff}
  }

  predicate Inv(s: State) {
    && (forall p | p in s.alive :: s.running == Some(p))
    && (HasNoChild(s.run) ==> s.running.None? && s.published.None?)
    && (!HasNoChild(s.run) ==> s.running.Some? && s.running.value < s.spawned)
    && (s.run == Publish ==> s.published.None?)
    && (!HasNoChild(s.run) && s.run != Publish ==> s.published == s.running)
    && (s.run == WaitForever ==> s.running.value in s.killed)
    && (s.run == Unpublish ==> s.alive == {})
    && (s.flag <==> s.stop != NotCalled)
    && s.late <= 1
    && (s.late == 1 ==> s.flag && !MaySpawn(s.run))
  }

  lemma StepKeepsInv(s: State, t: State, actor: Actor)
    requires Inv(s) && Step(s, t, actor)
    ensures Inv(t)
  {
  }

  /** Safety, in every state of every interleaving: at most one child at any time, at most one started after the
      flag was set, and none left, nor its handle, when the run thread has returned. */
  lemma {:induction false} TraceIsSafe(states: seq<State>, actors: seq<Actor>, i: nat)
    requires IsTrace(states, actors) && states[0] == INITIAL && i < |states|
    ensures Inv(states[i])
    ensures |states[i].alive| <= 1 && states[i].late <= 1
    ensures states[i].run == Finished ==> states[i].alive == {} && states[i].published == None
  {
    if i > 0 {
      TraceIsSafe(states, actors, i - 1);
      StepKeepsInv(states[i - 1], states[i], actors[i - 1]);
    }
    var s := states[i];
    if s.running.Some? {
      assert s.alive <= {s.running.value};
      SubsetOfOne(s.alive, s.running.value);
    } else {
      assert s.alive == {};
    }
  }

  lemma SubsetOfOne(a: set<nat>, x: nat)
    requires a <= {x}
    ensures |a| <= 1
  {
    assert a == {} || a == {x};
  }

  // ---------- the run thread ends ----------

  /** How many steps of its own the run thread has left once the flag is set. */
  function StepsLeft(pc: RunPc): nat {
    match pc
    case Finished => 0
    case TestFlag => 1
    case WaitAfterFailure => 1
    case WaitBackoff => 1
    case TestFlagLast => 1
    case Unpublish => 2
    case WaitForever => 3
    case ForceKill => 4
    case WaitExit => 5
    case TerminateIfAlive => 6
    case TestFlagAgain => 7
    case WaitTick => 8
    case Poll => 9
    case TestStall => 10
    case Publish => 10
    case Spawn => 11
  }

  function RunSteps(actors: seq<Actor>): nat {
    if actors == [] then 0
    else RunSteps(actors[..|actors| - 1]) + if actors[|actors| - 1] == RunThread then 1 else 0
  }

  lemma StepCounts(s: State, t: State, actor: Actor)
    requires s.flag && Step(s, t, actor)
    ensures t.flag
    ensures if actor == RunThread then StepsLeft(t.run) < StepsLeft(s.run) else t.run == s.run
  {
  }

  /** From any state with the flag set, whatever else happens in between, the run thread makes at most eleven
      more steps. */
  lemma {:induction false} RunThreadStopsSoon(states: seq<State>, actors: seq<Actor>)
    requires IsTrace(states, actors) && states[0].flag
    ensures states[|actors|].flag
    ensures RunSteps(actors) + StepsLeft(states[|actors|].run) <= StepsLeft(states[0].run) <= 11
    decreases |actors|
  {
    if actors != [] {
      var n := |actors| - 1;
      PrefixIsTrace(states, actors, n);
      RunThreadStopsSoon(states[..n + 1], actors[..n]);
      assert Step(states[n], states[n + 1], actors[n]);
      StepCounts(states[n], states[n + 1], actors[n]);
    }
  }

  lemma PrefixIsTrace(states: seq<State>, actors: seq<Actor>, n: nat)
    requires IsTrace(states, actors) && n <= |actors|
    ensures IsTrace(states[..n + 1], actors[..n])
  {
    forall i | 0 <= i < n ensures Step(states[..n + 1][i], states[..n + 1][i + 1], actors[..n][i]) {
      assert Step(states[i], states[i + 1], actors[i]);
    }
  }

  /** The run thread is never stuck: it has a next step, or has returned, or waits for a child that was sent
      SIGKILL. So it does return, provided that such a child exits. */
  lemma RunThreadIsNeverStuck(s: State)
    requires Inv(s)
    ensures || s.run == Finished
            || (exists t :: RunStep(s, t))
            || (s.run == WaitForever && s.running.Some? && s.running.value in s.alive && s.running.value in s.killed)
  {
    match s.run
    case TestFlag => assert RunStep(s, s.(run := if s.flag then Finished else Spawn));
    case Spawn => assert RunStep(s, s.(run := WaitAfterFailure));
    case WaitAfterFailure => assert RunStep(s, AfterWait(s, TestFlag));
    case Publish => assert RunStep(s, s.(run := Poll, published := s.running));
    case Poll => assert RunStep(s, s.(run := if IsAlive(s, s.running) then WaitTick else TestFlagAgain));
    case WaitTick => assert RunStep(s, s.(run := if s.flag then TestFlagAgain else TestStall));
    case TestStall => assert RunStep(s, s.(run := Poll));
    case TestFlagAgain => assert RunStep(s, s.(run := if s.flag then TerminateIfAlive else WaitExit));
    case TerminateIfAlive => assert RunStep(s, s.(run := WaitExit));
    case WaitExit => assert RunStep(s, s.(run := if IsAlive(s, s.running) then ForceKill else Unpublish));
    case ForceKill => assert RunStep(s, s.(run := WaitForever, killed := s.killed + {s.running.value}));
    case WaitForever => assert !IsAlive(s, s.running) ==> RunStep(s, s.(run := Unpublish));
    case Unpublish => assert RunStep(s, s.(run := TestFlagLast, published := None, running := None));
    case TestFlagLast => assert RunStep(s, s.(run := if s.flag then Finished else WaitBackoff));
    case WaitBackoff => assert RunStep(s, AfterWait(s, TestFlag));
    case Finished =>
  }

  // ---------- the run thread goes on ----------

  /** The run thread has only returned if the flag is set: without a stop() it never gives up its destination. */
  lemma FinishedNeedsFlag(s: State, t: State, actor: Actor)
    requires Inv(s) && Step(s, t, actor) && (s.run == Finished ==> s.flag)
    ensures t.run == Finished ==> t.flag
  {
  }

  lemma {:induction false} ReturnsOnlyAfterStop(states: seq<State>, actors: seq<Actor>, i: nat)
    requires IsTrace(states, actors) && states[0] == INITIAL && i < |states|
    ensures states[i].run == Finished ==> states[i].flag
    ensures states[i].flag ==> exists k: nat :: k < i && actors[k] == StopThread && states[k].stop == NotCalled
  {
    if i > 0 {
      ReturnsOnlyAfterStop(states, actors, i - 1);
      TraceIsSafe(states, actors, i - 1);
      FinishedNeedsFlag(states[i - 1], states[i], actors[i - 1]);
      FlagIsSetByStop(states[i - 1], states[i], actors[i - 1]);
    }
  }

  lemma FlagIsSetByStop(s: State, t: State, actor: Actor)
    requires Step(s, t, actor)
    ensures s.flag ==> t.flag
    ensures t.flag && !s.flag ==> actor == StopThread && s.stop == NotCalled
  {
  }

  /** How many steps of its own the run thread is away from the next launch, when no child of it is alive and the flag
      is not set. */
  function StepsToLaunch(pc: RunPc): nat {
    match pc
    case Spawn => 0
    case TestFlag => 1
    case WaitAfterFailure => 2
    case WaitBackoff => 2
    case TestFlagLast => 3
    case Unpublish => 4
    case WaitForever => 5
    case WaitExit => 5
    case ForceKill => 6
    case TerminateIfAlive => 6
    case TestFlagAgain => 6
    case Poll => 7
    case TestStall => 8
    case Publish => 8
    case WaitTick => 9
    case Finished => 0
  }

  lemma StepTowardsLaunch(s: State, t: State, actor: Actor)
    requires Inv(s) && Step(s, t, actor) && !t.flag && s.alive == {} && s.run != Spawn && s.run != Finished
    ensures !s.flag && t.alive == {} && t.run != Finished
    ensures if actor == RunThread then StepsToLaunch(t.run) < StepsToLaunch(s.run) else t.run == s.run
  {
  }

  /** Restart: without a stop(), from any reachable state in which no child is alive, the run thread launches again
      within nine steps of its own, whatever else happens in between. */
  lemma {:induction false} RunThreadLaunchesAgain(states: seq<State>, actors: seq<Actor>)
    requires IsTrace(states, actors) && Inv(states[0]) && states[0].alive == {} && states[0].run != Finished
    requires !states[|actors|].flag
    ensures StepsToLaunch(states[0].run) <= 9
    ensures (exists k: nat :: k <= |actors| && states[k].run == Spawn) ||
            RunSteps(actors) + StepsToLaunch(states[|actors|].run) <= StepsToLaunch(states[0].run)
    ensures RunSteps(actors) >= 9 ==> exists k: nat :: k <= |actors| && states[k].run == Spawn
    decreases |actors|
  {
    GoesOn(states, actors, |actors|);
    if states[0].run == Spawn {
    } else if forall k: nat | k <= |actors| :: states[k].run != Spawn {
      assert StepsToLaunch(states[|actors|].run) > 0;
    }
  }

  lemma {:induction false} GoesOn(states: seq<State>, actors: seq<Actor>, n: nat)
    requires IsTrace(states, actors) && Inv(states[0]) && states[0].alive == {} && states[0].run != Finished
    requires n <= |actors| && !states[n].flag
    ensures || (exists k: nat :: k <= n && states[k].run == Spawn)
            || (&& Inv(states[n]) && states[n].alive == {} && states[n].run != Finished
                && RunSteps(actors[..n]) + StepsToLaunch(states[n].run) <= StepsToLaunch(states[0].run))
    ensures n == |actors| ==> actors[..n] == actors
  {
    if n > 0 {
      var s, t := states[n - 1], states[n];
      assert Step(s, t, actors[n - 1]);
      FlagIsSetByStop(s, t, actors[n - 1]);
      GoesOn(states, actors, n - 1);
      if k: nat :| k <= n - 1 && states[k].run == Spawn {
        assert k <= n;
      } else {
        StepKeepsInv(s, t, actors[n - 1]);
        StepTowardsLaunch(s, t, actors[n - 1]);
        assert actors[..n][..n - 1] == actors[..n - 1];
      }
    }
  }

  /** A child that is alive is left alone: without a stop() the run thread leaves its inner loop for no other reason
      than that the child has exited or has stalled. */
  lemma HealthyChildIsKept(s: State, t: State)
    requires RunStep(s, t) && !s.flag && IsAlive(s, s.running) && s.run in {Poll, WaitTick}
    ensures t.run in {WaitTick, TestStall} && t.alive == s.alive && t.killed == s.killed
  {
  }

  /** A launch starts a child, or fails and is tried again. */
  lemma LaunchIsExact(s: State, t: State)
    requires RunStep(s, t) && s.run == Spawn && Inv(s)
    ensures || (&& t.run == Publish && t.alive == {s.spawned} && t.spawned == s.spawned + 1
                && t.running == Some(s.spawned))
            || (t.run == WaitAfterFailure && t.alive == {} && t.spawned == s.spawned)
  {
  }

  /** What the run thread does not decide itself stays open: a launch can succeed or fail, and a child that is alive can
      be found stalled or not. */
  lemma ChoicesAreOpen(s: State)
    ensures s.run == Spawn ==> exists t :: RunStep(s, t) && t.run == Publish
    ensures s.run == Spawn ==> exists t :: RunStep(s, t) && t.run == WaitAfterFailure
    ensures s.run == TestStall ==> exists t :: RunStep(s, t) && t.run == TestFlagAgain
    ensures s.run == TestStall ==> exists t :: RunStep(s, t) && t.run == Poll
  {
    if s.run == Spawn {
      assert RunStep(s, s.(run := WaitAfterFailure));
      assert RunStep(s, s.(run := Publish, running := Some(s.spawned), alive := s.alive + {s.spawned},
                           spawned := s.spawned + 1, late := if s.flag then s.late + 1 else s.late));
    } else if s.run == TestStall {
      assert RunStep(s, s.(run := Poll));
      assert RunStep(s, s.(run := TestFlagAgain));
    }
  }

  // ---------- stop() ends ----------

  function StopStepsLeft(pc: StopPc): nat {
    match pc
    case Returned => 0
    case JoinThread => 1
    case KillHard => 2
    case AwaitExit => 3
    case Terminate => 4
    case TestAlive => 5
    case ReadProcess => 6
    case NotCalled => 7
  }

  /** stop() makes at most seven steps, whatever else happens, and is never stuck: it sets the flag first, reads the
      process, and kills it if it is still alive after the first wait. */
  lemma StopReturnsSoon(s: State, t: State, actor: Actor)
    requires Step(s, t, actor)
    ensures actor == StopThread ==> StopStepsLeft(t.stop) < StopStepsLeft(s.stop) <= 7 && (s.flag ==> t.flag)
    ensures actor != StopThread ==> t.stop == s.stop
    ensures actor == StopThread && s.stop == NotCalled ==> t.flag
    ensures actor == StopThread && s.stop == AwaitExit && IsAlive(s, s.target) ==> t.stop == KillHard
    ensures actor == StopThread && s.stop == KillHard && s.target.Some? ==> s.target.value in t.killed
  {
  }

  lemma StopIsNeverStuck(s: State)
    requires s.stop != Returned
    ensures exists t :: StopStep(s, t)
  {
    match s.stop
    case NotCalled => assert StopStep(s, s.(flag := true, stop := ReadProcess));
    case ReadProcess => assert StopStep(s, s.(stop := TestAlive, target := s.published));
    case TestAlive => assert StopStep(s, s.(stop := if IsAlive(s, s.target) then Terminate else JoinThread));
    case Terminate => assert StopStep(s, s.(stop := AwaitExit));
    case AwaitExit => assert StopStep(s, s.(stop := if IsAlive(s, s.target) then KillHard else JoinThread));
    case KillHard =>
      assert StopStep(s, s.(stop := JoinThread,
                            killed := if s.target.Some? then s.killed + {s.target.value} else s.killed));
    case JoinThread => assert StopStep(s, s.(stop := Returned));
  }

  // ---------- what stop() can leave behind ----------

  /** A child that stop() saw and that is still alive behind its waits was sent SIGKILL. */
  predicate StopInv(s: State) {
    && (s.target.Some? ==> s.target.value < s.spawned)
    && (s.stop in {JoinThread, Returned} && IsAlive(s, s.target) ==> s.target.value in s.killed)
  }

  lemma StepKeepsStopInv(s: State, t: State, actor: Actor)
    requires Inv(s) && StopInv(s) && Step(s, t, actor)
    ensures StopInv(t)
  {
  }

  lemma {:induction false} TraceKeepsStopInv(states: seq<State>, actors: seq<Actor>, i: nat)
    requires IsTrace(states, actors) && states[0] == INITIAL && i < |states|
    ensures StopInv(states[i])
  {
    if i > 0 {
      TraceKeepsStopInv(states, actors, i - 1);
      TraceIsSafe(states, actors, i - 1);
      StepKeepsStopInv(states[i - 1], states[i], actors[i - 1]);
    }
  }

  /** What a step after the flag was set does to children, and to what stop() saw. */
  lemma StepAfterFlag(s: State, t: State, actor: Actor)
    requires s.flag && Step(s, t, actor)
    ensures t.flag && t.spawned - s.spawned == t.late - s.late >= 0
    ensures forall p | p in t.alive :: p in s.alive || p >= s.spawned
    ensures s.stop !in {NotCalled, ReadProcess} ==> t.target == s.target && t.stop !in {NotCalled, ReadProcess}
  {
  }

  /** stop() reads the published process at this point. */
  predicate Reads(states: seq<State>, actors: seq<Actor>, r: nat) {
    r < |actors| && r < |states| && actors[r] == StopThread && states[r].stop == ReadProcess
  }

  lemma {:induction false} ReadHappened(states: seq<State>, actors: seq<Actor>, i: nat)
    requires IsTrace(states, actors) && states[0] == INITIAL && i < |states|
    requires states[i].stop !in {NotCalled, ReadProcess}
    ensures exists r: nat :: r < i && Reads(states, actors, r)
  {
    assert Step(states[i - 1], states[i], actors[i - 1]);
    if states[i - 1].stop == ReadProcess {
      assert Reads(states, actors, i - 1);
    } else {
      ReadHappened(states, actors, i - 1);
    }
  }

  lemma {:induction false} SinceTheRead(states: seq<State>, actors: seq<Actor>, r: nat, i: nat)
    requires IsTrace(states, actors) && r < i < |states|
    requires states[r].flag && Reads(states, actors, r)
    ensures var s, t := states[r], states[i];
            && t.flag && t.spawned - s.spawned == t.late - s.late >= 0
            && (forall p | p in t.alive :: p in s.alive || p >= s.spawned)
            && t.target == s.published && t.stop !in {NotCalled, ReadProcess}
  {
    if i > r + 1 {
      SinceTheRead(states, actors, r, i - 1);
    }
    StepAfterFlag(states[i - 1], states[i], actors[i - 1]);
  }

  /** The child was started and not published yet when stop() looked, or was started after the flag was set. */
  predicate Unseen(states: seq<State>, actors: seq<Actor>, r: nat, p: nat) {
    && Reads(states, actors, r)
    && ((states[r].run == Publish && states[r].running == Some(p)) || states[r].spawned <= p)
  }

  /** When stop() has returned, a child can be alive only while the run thread has not returned, because the join
      gave up. It is the child that stop() saw, and then it was sent SIGKILL, or one that stop() could not see. */
  lemma WhatStopLeavesBehind(states: seq<State>, actors: seq<Actor>, i: nat, p: nat)
    requires IsTrace(states, actors) && states[0] == INITIAL && i < |states|
    requires states[i].stop == Returned && p in states[i].alive
    ensures states[i].alive == {p} && states[i].run != Finished
    ensures || (states[i].target == Some(p) && p in states[i].killed)
            || exists r: nat :: r < i && Unseen(states, actors, r, p)
  {
    ReadHappened(states, actors, i);
    var r: nat :| r < i && Reads(states, actors, r);
    TraceIsSafe(states, actors, r);
    TraceIsSafe(states, actors, i);
    TraceKeepsStopInv(states, actors, i);
    SinceTheRead(states, actors, r, i);
    assert forall q | q in states[i].alive :: q == p;
    if p < states[r].spawned {
      assert states[r].running == Some(p);
      if states[r].run == Publish {
        assert Unseen(states, actors, r, p);
      }
    } else {
      assert Unseen(states, actors, r, p);
    }
  }

  // ---------- each of the three cases occurs ----------

  /** A state that some history of a new worker reaches. */
  ghost predicate IsReachable(s: State) {
    exists states: seq<State>, actors: seq<Actor> :: Reaches(states, actors, s)
  }

  predicate Reaches(states: seq<State>, actors: seq<Actor>, s: State) {
    IsTrace(states, actors) && states[0] == INITIAL && states[|actors|] == s
  }

  lemma InitialIsReachable()
    ensures IsReachable(INITIAL)
  {
    assert Reaches([INITIAL], [], INITIAL);
  }

  lemma StepIsReachable(s: State, t: State, actor: Actor)
    requires IsReachable(s) && Step(s, t, actor)
    ensures IsReachable(t)
  {
    var states: seq<State>, actors: seq<Actor> :| Reaches(states, actors, s);
    var more, acted := states + [t], actors + [actor];
    forall i | 0 <= i < |acted| ensures Step(more[i], more[i + 1], acted[i]) {
      assert i < |actors| ==> Step(states[i], states[i + 1], actors[i]);
    }
    assert Reaches(more, acted, t);
  }

  /** What every reachable state meets. */
  lemma ReachableIsSafe(s: State)
    requires IsReachable(s)
    ensures Inv(s) && |s.alive| <= 1 && (s.run == Finished ==> s.alive == {})
  {
    var states: seq<State>, actors: seq<Actor> :| Reaches(states, actors, s);
    TraceIsSafe(states, actors, |actors|);
  }

  /** The next step of the run thread, as far as the histories below need it. */
  function RunNext(s: State): State {
    match s.run
    case TestFlag => s.(run := if s.flag then Finished else Spawn)
    case Spawn =>
      s.(run := Publish, running := Some(s.spawned), alive := s.alive + {s.spawned},
         spawned := s.spawned + 1, late := if s.flag then s.late + 1 else s.late)
    case _ => s.(run := Poll, published := s.running)
  }

  /** The next step of stop(). */
  function StopNext(s: State): State {
    match s.stop
    case NotCalled => s.(flag := true, stop := ReadProcess)
    case ReadProcess => s.(stop := TestAlive, target := s.published)
    case TestAlive => s.(stop := if IsAlive(s, s.target) then Terminate else JoinThread)
    case Terminate => s.(stop := AwaitExit)
    case AwaitExit => s.(stop := if IsAlive(s, s.target) then KillHard else JoinThread)
    case KillHard => s.(stop := JoinThread, killed := if s.target.Some? then s.killed + {s.target.value} else s.killed)
    case _ => s.(stop := Returned)
  }

  lemma NextIsReachable(s: State)
    requires IsReachable(s)
    ensures s.run in {TestFlag, Spawn, Publish} ==> IsReachable(RunNext(s))
    ensures s.stop != Returned ==> IsReachable(StopNext(s))
  {
    if s.run in {TestFlag, Spawn, Publish} {
      StepIsReachable(s, RunNext(s), RunThread);
    }
    if s.stop != Returned {
      StepIsReachable(s, StopNext(s), StopThread);
    }
  }

  /** stop() from its first step to its last one; without a living target it has nothing to wait for. */
  lemma StopRunsThrough(s: State)
    requires IsReachable(s) && s.stop == NotCalled && !IsAlive(s, s.published)
    ensures IsReachable(s.(flag := true, stop := Returned, target := s.published))
  {
    hide IsReachable;
    var s1 := StopNext(s);
    var s2 := StopNext(s1);
    var s3 := StopNext(s2);
    NextIsReachable(s);
    NextIsReachable(s1);
    NextIsReachable(s2);
    NextIsReachable(s3);
  }

  lemma StopKills(s: State)
    requires IsReachable(s) && s.stop == NotCalled && IsAlive(s, s.published)
    ensures IsReachable(
              s.(flag := true, stop := Returned, target := s.published, killed := s.killed + {s.published.value}))
  {
    hide IsReachable;
    var s1 := StopNext(s);
    var s2 := StopNext(s1);
    var s3 := StopNext(s2);
    var s4 := StopNext(s3);
    var s5 := StopNext(s4);
    var s6 := StopNext(s5);
    NextIsReachable(s);
    NextIsReachable(s1);
    NextIsReachable(s2);
    NextIsReachable(s3);
    NextIsReachable(s4);
    NextIsReachable(s5);
    NextIsReachable(s6);
  }

  /** The run thread has tested the flag, stop() runs through and gives up waiting, and then the run thread starts
      its child, which nobody has signalled. */
  lemma StopCanReturnBeforeTheLastStart()
    ensures exists s :: IsReachable(s) && s.stop == Returned && s.alive == {0} && s.killed == {} && s.late == 1
  {
    hide IsReachable;
    InitialIsReachable();
    NextIsReachable(INITIAL);
    var ready := RunNext(INITIAL);
    StopRunsThrough(ready);
    var stopped := ready.(flag := true, stop := Returned, target := ready.published);
    NextIsReachable(stopped);
    assert RunNext(stopped).alive == {0};
  }

  /** The run thread has started its child and not published it, so that stop() sees nothing to terminate. */
  lemma StopCanMissAStartedChild()
    ensures exists s :: IsReachable(s) && s.stop == Returned && s.alive == {0} && s.killed == {} && s.late == 0
  {
    hide IsReachable;
    InitialIsReachable();
    NextIsReachable(INITIAL);
    var started := RunNext(RunNext(INITIAL));
    NextIsReachable(RunNext(INITIAL));
    StopRunsThrough(started);
    assert started.alive == {0};
  }

  /** stop() sends SIGKILL to the child it saw and returns while that child has not exited. */
  lemma StopCanReturnBeforeTheExit()
    ensures exists s :: IsReachable(s) && s.stop == Returned && s.alive == {0} && s.killed == {0} && s.late == 0
  {
    hide IsReachable;
    InitialIsReachable();
    NextIsReachable(INITIAL);
    NextIsReachable(RunNext(INITIAL));
    var started := RunNext(RunNext(INITIAL));
    NextIsReachable(started);
    var published := RunNext(started);
    assert published.alive == {0} && published.published == Some(0);
    StopKills(published);
  }
}
