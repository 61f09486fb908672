/** utils/lifecycle/async.go and async_failsafe.go: Start and Close called by any number of threads,
    and the goroutine that runs the steps. One action is one operation on shared state. */
module Lifecycle {
  /** sync.Once: the first caller runs the body, later ones wait for it. */
  datatype Once = Fresh | Running(holder: nat) | Done

  /** Where a thread stands in its call. */
  datatype Pc =
    | Idle
    | StartCheck | StartOnce | StartFunc | StartFailed | StartSpawn
    | CloseOnce | CloseStop | CloseStart | CloseNeverStarted | CloseWait | CloseReleasing

  /** The goroutine: before and in a step, about to close doneChan, and gone. */
  datatype Loop = NotStarted | AtTop | InStep | Leaving | Finished

  /** stopCloses and doneCloses count how often the channels were closed. */
  datatype State = State(
    failSafe: bool, stopCloses: nat, doneCloses: nat, startOnce: Once, closeOnce: Once,
    loop: Loop, releases: nat, panicked: bool, pcs: seq<Pc>)

  datatype Outcome = Fine | Break | Error | Panic

  datatype Action = CallStart(t: nat) | CallClose(t: nat) | Advance(t: nat, start: Outcome) | LoopStep(step: Outcome)

  function Init(failSafe: bool, threads: nat): State {
    State(failSafe, 0, 0, Fresh, Fresh, NotStarted, 0, false, seq(threads, _ => Idle))
  }

  function At(s: State, t: nat, pc: Pc): State
    requires t < |s.pcs|
  {
    s.(pcs := s.pcs[t := pc])
  }

  /** Whether thread t can go on: not while another runs a Once body, nor before doneChan is closed. */
  predicate Ready(s: State, t: nat)
    requires t < |s.pcs|
  {
    match s.pcs[t]
    case Idle => false
    case StartOnce => !s.startOnce.Running?
    case CloseOnce => !s.closeOnce.Running?
    case CloseStart => !s.startOnce.Running?
    case CloseWait => s.doneCloses > 0
    case _ => true
  }

  predicate Enabled(s: State, a: Action) {
    match a
    case CallStart(t) => t < |s.pcs| && s.pcs[t].Idle?
    case CallClose(t) => t < |s.pcs| && s.pcs[t].Idle?
    case Advance(t, _) => t < |s.pcs| && Ready(s, t)
    case LoopStep(_) => s.loop.AtTop? || s.loop.InStep? || s.loop.Leaving?
  }

  function AdvanceThread(s: State, t: nat, start: Outcome): State
    requires t < |s.pcs| && Ready(s, t)
  {
    match s.pcs[t]
    case StartCheck => At(s, t, if s.stopCloses > 0 then Idle else StartOnce)
    case StartOnce => if s.startOnce.Fresh? then At(s, t, StartFunc).(startOnce := Running(t)) else At(s, t, Idle)
    case StartFunc =>
      if start.Panic? then At(s, t, Idle).(startOnce := Done, panicked := true)
      else At(s, t, if start.Fine? || s.failSafe then StartSpawn else StartFailed)
    case StartFailed => At(s, t, Idle).(doneCloses := s.doneCloses + 1, startOnce := Done)
    case StartSpawn => At(s, t, Idle).(loop := AtTop, startOnce := Done)
    case CloseOnce => if s.closeOnce.Fresh? then At(s, t, CloseStop).(closeOnce := Running(t)) else At(s, t, Idle)
    case CloseStop => At(s, t, CloseStart).(stopCloses := s.stopCloses + 1)
    case CloseStart => if s.startOnce.Fresh? then At(s, t, CloseNeverStarted).(startOnce := Running(t))
      else At(s, t, CloseWait)
    case CloseNeverStarted => At(s, t, CloseWait).(doneCloses := s.doneCloses + 1, startOnce := Done)
    case CloseWait => At(s, t, CloseReleasing).(releases := s.releases + 1)
    case CloseReleasing => At(s, t, Idle).(closeOnce := Done)
  }

  /** A step that went well goes on, a break ends the loop; other errors end it unless fail-safe. */
  predicate GoesOn(s: State, step: Outcome) {
    step.Fine? || (s.failSafe && !step.Break?)
  }

  function Next(s: State, a: Action): State
    requires Enabled(s, a)
  {
    match a
    case CallStart(t) => At(s, t, if s.failSafe then StartOnce else StartCheck)
    case CallClose(t) => At(s, t, CloseOnce)
    case Advance(t, start) => AdvanceThread(s, t, start)
    case LoopStep(step) =>
      if s.loop.AtTop? then s.(loop := InStep)
      else if s.loop.InStep? then s.(loop := if GoesOn(s, step) then AtTop else Leaving)
      else s.(loop := Finished, doneCloses := s.doneCloses + 1)
  }

  // ----- The invariant -----

  predicate InStartBody(pc: Pc) {
    pc.StartFunc? || pc.StartFailed? || pc.StartSpawn? || pc.CloseNeverStarted?
  }

  predicate InCloseBody(pc: Pc) {
    pc.CloseStop? || pc.CloseStart? || pc.CloseNeverStarted? || pc.CloseWait? || pc.CloseReleasing?
  }

  /** Exactly the thread that runs a Once body stands in it. */
  ghost predicate StartHolder(once: Once, pcs: seq<Pc>) {
    && (forall t :: 0 <= t < |pcs| ==> (InStartBody(pcs[t]) <==> once == Running(t)))
    && (once.Running? ==> once.holder < |pcs|)
  }

  ghost predicate CloseHolder(once: Once, pcs: seq<Pc>) {
    && (forall t :: 0 <= t < |pcs| ==> (InCloseBody(pcs[t]) <==> once == Running(t)))
    && (once.Running? ==> once.holder < |pcs|)
  }

  ghost predicate OnceHolders(s: State) {
    StartHolder(s.startOnce, s.pcs) && CloseHolder(s.closeOnce, s.pcs)
  }

  function CloserAt(s: State): Pc {
    if s.closeOnce.Running? && s.closeOnce.holder < |s.pcs| then s.pcs[s.closeOnce.holder] else Idle
  }

  /** How the channels and the goroutine follow from the two Onces. */
  ghost predicate ChannelsOk(s: State) {
    && (!s.loop.NotStarted? ==> s.startOnce.Done? && !s.panicked)
    && (s.panicked ==> s.startOnce.Done?)
    && s.doneCloses == (if s.startOnce.Done? && !s.panicked && (s.loop.NotStarted? || s.loop.Finished?) then 1 else 0)
    && s.stopCloses == (if s.closeOnce.Fresh? || CloserAt(s).CloseStop? then 0 else 1)
    && s.releases == (if s.closeOnce.Done? || CloserAt(s).CloseReleasing? then 1 else 0)
    && (CloserAt(s).CloseWait? || CloserAt(s).CloseReleasing? || s.closeOnce.Done? ==> s.startOnce.Done?)
    && (s.releases > 0 ==> s.doneCloses == 1)
  }

  ghost predicate Inv(s: State) {
    OnceHolders(s) && ChannelsOk(s)
  }

  lemma InitInv(failSafe: bool, threads: nat)
    ensures Inv(Init(failSafe, threads))
  {
  }

  /** One thread moves: the Once it entered, holds or leaves is the only one that changes. */
  lemma StartHolderMoves(once: Once, pcs: seq<Pc>, t: nat, once': Once, pc: Pc)
    requires StartHolder(once, pcs) && t < |pcs|
    requires once' == once || (once.Fresh? && once' == Running(t)) || (once == Running(t) && once' == Done)
    requires InStartBody(pc) <==> once' == Running(t)
    ensures StartHolder(once', pcs[t := pc])
  {
    hide InStartBody;
  }

  lemma CloseHolderMoves(once: Once, pcs: seq<Pc>, t: nat, once': Once, pc: Pc)
    requires CloseHolder(once, pcs) && t < |pcs|
    requires once' == once || (once.Fresh? && once' == Running(t)) || (once == Running(t) && once' == Done)
    requires InCloseBody(pc) <==> once' == Running(t)
    ensures CloseHolder(once', pcs[t := pc])
  {
    hide InCloseBody;
  }

  lemma AdvanceHolders(s: State, t: nat, start: Outcome)
    requires Inv(s) && t < |s.pcs| && Ready(s, t)
    ensures OnceHolders(AdvanceThread(s, t, start))
  {
    hide StartHolder, CloseHolder, ChannelsOk;
    HoldersAt(s, t);
    var r := AdvanceThread(s, t, start);
    assert r.pcs == s.pcs[t := r.pcs[t]];
    StartHolderMoves(s.startOnce, s.pcs, t, r.startOnce, r.pcs[t]);
    CloseHolderMoves(s.closeOnce, s.pcs, t, r.closeOnce, r.pcs[t]);
  }

  lemma HoldersAt(s: State, t: nat)
    requires OnceHolders(s) && t < |s.pcs|
    ensures InStartBody(s.pcs[t]) <==> s.startOnce == Running(t)
    ensures InCloseBody(s.pcs[t]) <==> s.closeOnce == Running(t)
  {
  }

  lemma AdvanceChannels(s: State, t: nat, start: Outcome)
    requires Inv(s) && t < |s.pcs| && Ready(s, t)
    ensures ChannelsOk(AdvanceThread(s, t, start))
  {
    assert InStartBody(s.pcs[t]) <==> s.startOnce == Running(t);
    assert InCloseBody(s.pcs[t]) <==> s.closeOnce == Running(t);
  }

  lemma StepKeeps(s: State, a: Action)
    requires Inv(s) && Enabled(s, a)
    ensures Inv(Next(s, a))
  {
    match a
    case Advance(t, start) =>
      AdvanceHolders(s, t, start);
      AdvanceChannels(s, t, start);
    case _ =>
  }

  // ----- Runs -----

  function Run(s: State, actions: seq<Action>): State
    requires IsRun(s, actions)
    decreases |actions|
  {
    if actions == [] then s else Run(Next(s, actions[0]), actions[1..])
  }

  /** Every action was enabled when it was taken. */
  predicate IsRun(s: State, actions: seq<Action>)
    decreases |actions|
  {
    actions == [] || (Enabled(s, actions[0]) && IsRun(Next(s, actions[0]), actions[1..]))
  }

  lemma {:induction false} RunKeeps(s: State, actions: seq<Action>)
    requires Inv(s) && IsRun(s, actions)
    ensures Inv(Run(s, actions))
    decreases |actions|
  {
    hide Inv, Next, Enabled;
    if actions != [] {
      StepKeeps(s, actions[0]);
      RunKeeps(Next(s, actions[0]), actions[1..]);
    }
  }

  /** Main result: for any number of threads and every interleaving of Start and Close, neither
      channel is closed twice, Release runs at most once, and while or after it runs no step does,
      nor will one ever again. */
  lemma ReleaseComesLast(failSafe: bool, threads: nat, before: seq<Action>, after: seq<Action>)
    requires IsRun(Init(failSafe, threads), before) && IsRun(Run(Init(failSafe, threads), before), after)
    ensures var s, r := Run(Init(failSafe, threads), before), Run(Run(Init(failSafe, threads), before), after);
            && s.stopCloses <= 1 && s.doneCloses <= 1 && s.releases <= 1
            && (s.releases == 1 ==>
                  s.doneCloses == 1 && s.stopCloses == 1 && !s.loop.InStep? && !r.loop.InStep? && r.releases == 1)
  {
    InitInv(failSafe, threads);
    RunKeeps(Init(failSafe, threads), before);
    var s := Run(Init(failSafe, threads), before);
    if s.releases == 1 { ReleasedStays(s, after); }
  }

  lemma ReleasedOnce(s: State, a: Action)
    requires Inv(s) && Enabled(s, a) && s.releases == 1
    ensures Next(s, a).releases == 1
  {
    StepKeeps(s, a);
    match a
    case Advance(t, start) => assert InCloseBody(s.pcs[t]) <==> s.closeOnce == Running(t);
    case _ =>
  }

  lemma {:induction false} ReleasedStays(s: State, actions: seq<Action>)
    requires Inv(s) && s.releases == 1 && IsRun(s, actions)
    ensures Run(s, actions).releases == 1 && !Run(s, actions).loop.InStep?
    decreases |actions|
  {
    hide Next, Enabled, OnceHolders;
    if actions != [] {
      StepKeeps(s, actions[0]);
      ReleasedOnce(s, actions[0]);
      ReleasedStays(Next(s, actions[0]), actions[1..]);
    }
  }

  // ----- Nobody waits forever -----

  /** A thread is inside a call. */
  predicate Busy(s: State) {
    exists t :: 0 <= t < |s.pcs| && !s.pcs[t].Idle?
  }

  /** An action other than a new call can be taken. */
  predicate CanMove(s: State) {
    (exists t :: 0 <= t < |s.pcs| && Ready(s, t)) || s.loop.AtTop? || s.loop.InStep? || s.loop.Leaving?
  }

  lemma Movable(s: State, t: nat)
    requires Inv(s) && t < |s.pcs| && !s.pcs[t].Idle? && !s.panicked
    ensures CanMove(s)
  {
    if !Ready(s, t) {
      if s.startOnce.Running? {
        assert InStartBody(s.pcs[s.startOnce.holder]);
        assert Ready(s, s.startOnce.holder);
      } else if s.closeOnce.Running? {
        assert InCloseBody(s.pcs[s.closeOnce.holder]);
        assert s.loop.AtTop? || s.loop.InStep? || s.loop.Leaving? || Ready(s, s.closeOnce.holder);
      }
    }
  }

  /** Main result: unless the start function panicked, whenever some call has not returned,
      something can still happen. */
  lemma NoDeadlock(s: State)
    requires Inv(s) && Busy(s) && !s.panicked
    ensures CanMove(s)
  {
    var t :| 0 <= t < |s.pcs| && !s.pcs[t].Idle?;
    Movable(s, t);
  }

  lemma PanicOnce(s: State, a: Action)
    requires Inv(s) && Enabled(s, a) && s.panicked
    ensures Next(s, a).panicked && Next(s, a).doneCloses == 0
  {
    StepKeeps(s, a);
  }

  /** After a panic of the start function doneChan stays open: a Close that waits for it waits for
      good, and Release is never called. */
  lemma {:induction false} PanicBlocksClose(s: State, actions: seq<Action>)
    requires Inv(s) && s.panicked && IsRun(s, actions)
    ensures var r := Run(s, actions);
            r.doneCloses == 0 && r.releases == 0 && forall t :: 0 <= t < |r.pcs| && r.pcs[t].CloseWait? ==> !Ready(r, t)
    decreases |actions|
  {
    hide Next, Enabled, OnceHolders;
    if actions != [] {
      PanicOnce(s, actions[0]);
      StepKeeps(s, actions[0]);
      PanicBlocksClose(Next(s, actions[0]), actions[1..]);
    }
  }

  /** Distance to the end of a call. */
  function PcRank(pc: Pc): nat {
    match pc
    case Idle => 0
    case StartCheck => 8
    case StartOnce => 7
    case StartFunc => 6
    case StartFailed => 1
    case StartSpawn => 5
    case CloseOnce => 6
    case CloseStop => 5
    case CloseStart => 4
    case CloseNeverStarted => 3
    case CloseWait => 2
    case CloseReleasing => 1
  }

  function LoopRank(l: Loop): nat {
    match l
    case AtTop => 3
    case InStep => 2
    case Leaving => 1
    case _ => 0
  }

  function Ranks(pcs: seq<Pc>): nat {
    if pcs == [] then 0 else PcRank(pcs[0]) + Ranks(pcs[1..])
  }

  function Rank(s: State): nat {
    Ranks(s.pcs) + LoopRank(s.loop)
  }

  lemma {:induction false} RanksUpdate(pcs: seq<Pc>, t: nat, pc: Pc)
    requires t < |pcs|
    ensures Ranks(pcs[t := pc]) == Ranks(pcs) - PcRank(pcs[t]) + PcRank(pc)
  {
    if t == 0 {
      assert pcs[0 := pc][1..] == pcs[1..];
    } else {
      assert pcs[t := pc][1..] == pcs[1..][t - 1 := pc];
      RanksUpdate(pcs[1..], t - 1, pc);
    }
  }

  /** Not a new call, and not a step after which the loop goes on. */
  predicate Ends(s: State, a: Action) {
    a.Advance? || (a.LoopStep? && !(s.loop.InStep? && GoesOn(s, a.step)))
  }

  lemma ThreadCounts(s: State, t: nat, start: Outcome)
    requires Inv(s) && t < |s.pcs| && Ready(s, t)
    ensures var r := AdvanceThread(s, t, start);
            && t < |r.pcs| && r.pcs == s.pcs[t := r.pcs[t]]
            && PcRank(r.pcs[t]) + LoopRank(r.loop) < PcRank(s.pcs[t]) + LoopRank(s.loop)
  {
    hide StartHolder, CloseHolder;
    HoldersAt(s, t);
  }

  lemma EndsCount(s: State, a: Action)
    requires Inv(s) && Enabled(s, a) && Ends(s, a)
    ensures Rank(Next(s, a)) < Rank(s)
  {
    hide AdvanceThread, PcRank, StartHolder, CloseHolder, Ranks;
    match a
    case Advance(t, start) =>
      ThreadCounts(s, t, start);
      RanksUpdate(s.pcs, t, AdvanceThread(s, t, start).pcs[t]);
    case _ =>
  }

  ghost predicate AllEnd(s: State, actions: seq<Action>)
    requires IsRun(s, actions)
    decreases |actions|
  {
    actions == [] || (Ends(s, actions[0]) && AllEnd(Next(s, actions[0]), actions[1..]))
  }

  /** Main result: once no new calls come and steps break, at most Rank more actions happen; with
      NoDeadlock every call then has returned. */
  lemma {:induction false} CallsReturn(s: State, actions: seq<Action>)
    requires Inv(s) && IsRun(s, actions) && AllEnd(s, actions)
    ensures |actions| <= Rank(s)
    decreases |actions|
  {
    hide Inv, Next, Enabled, Ends, Rank;
    if actions != [] {
      StepKeeps(s, actions[0]);
      EndsCount(s, actions[0]);
      CallsReturn(Next(s, actions[0]), actions[1..]);
    }
  }

  // ----- What a returned Close means -----

  /** Thread t is in a call of Close or the one Close that counts is over. */
  predicate Closing(s: State, t: nat) {
    s.closeOnce.Done? || (t < |s.pcs| && (s.pcs[t].CloseOnce? || InCloseBody(s.pcs[t])))
  }

  lemma ClosingStep(s: State, a: Action, t: nat)
    requires Inv(s) && Enabled(s, a) && Closing(s, t)
    ensures Closing(Next(s, a), t)
  {
    hide StartHolder, CloseHolder, ChannelsOk;
    match a
    case Advance(u, start) => HoldersAt(s, u);
    case _ =>
  }

  lemma {:induction false} ClosingStays(s: State, actions: seq<Action>, t: nat)
    requires Inv(s) && IsRun(s, actions) && Closing(s, t)
    ensures Inv(Run(s, actions)) && Closing(Run(s, actions), t)
    decreases |actions|
  {
    hide Inv, Next, Enabled, Closing;
    if actions != [] {
      StepKeeps(s, actions[0]);
      ClosingStep(s, actions[0], t);
      ClosingStays(Next(s, actions[0]), actions[1..], t);
    }
  }

  /** Main result: once any call of Close has returned, whichever thread made it and whatever ran
      beside it, both channels are closed and Release has run, each once, and so it stays: no step
      runs again. */
  lemma ClosedIsReleased(failSafe: bool, threads: nat, before: seq<Action>, t: nat, during: seq<Action>,
                         after: seq<Action>)
    requires IsRun(Init(failSafe, threads), before) && Enabled(Run(Init(failSafe, threads), before), CallClose(t))
    requires IsRun(Next(Run(Init(failSafe, threads), before), CallClose(t)), during)
    requires var s := Run(Next(Run(Init(failSafe, threads), before), CallClose(t)), during);
             t < |s.pcs| && s.pcs[t].Idle? && IsRun(s, after)
    ensures var r := Run(Run(Next(Run(Init(failSafe, threads), before), CallClose(t)), during), after);
            r.releases == 1 && r.doneCloses == 1 && r.stopCloses == 1 && !r.loop.InStep? && !r.loop.AtTop?
  {
    hide OnceHolders, Run, IsRun, Init;
    InitInv(failSafe, threads);
    RunKeeps(Init(failSafe, threads), before);
    var s := Run(Init(failSafe, threads), before);
    StepKeeps(s, CallClose(t));
    ClosingStays(Next(s, CallClose(t)), during, t);
    var returned := Run(Next(s, CallClose(t)), during);
    assert returned.closeOnce.Done?;
    RunKeeps(returned, after);
    ReleasedStays(returned, after);
  }

  lemma RunStep(s: State, a: Action, rest: seq<Action>)
    requires Enabled(s, a) && IsRun(Next(s, a), rest)
    ensures IsRun(s, [a] + rest) && Run(s, [a] + rest) == Run(Next(s, a), rest)
  {
    hide Enabled, Next;
    assert ([a] + rest)[1..] == rest;
  }

  lemma RunFour(s: State, a: Action, b: Action, c: Action, d: Action)
    requires Enabled(s, a) && Enabled(Next(s, a), b)
    requires Enabled(Next(Next(s, a), b), c) && Enabled(Next(Next(Next(s, a), b), c), d)
    ensures IsRun(s, [a, b, c, d]) && Run(s, [a, b, c, d]) == Next(Next(Next(Next(s, a), b), c), d)
  {
    hide Enabled, Next;
    var s3 := Next(Next(Next(s, a), b), c);
    RunStep(s3, d, []);
    RunStep(Next(Next(s, a), b), c, [d]);
    RunStep(Next(s, a), b, [c, d]);
    RunStep(s, a, [b, c, d]);
    assert [d] + [] == [d] && [c] + [d] == [c, d] && [b] + [c, d] == [b, c, d] && [a] + [b, c, d] == [a, b, c, d];
  }

  /** One thread, whose start function panicked. */
  function Panicked(): State {
    Init(false, 1).(pcs := [Idle], startOnce := Done, panicked := true)
  }

  lemma StartPanics()
    ensures var call := [CallStart(0), Advance(0, Fine), Advance(0, Fine), Advance(0, Panic)];
            IsRun(Init(false, 1), call) && Run(Init(false, 1), call) == Panicked()
  {
    hide IsRun, Run;
    RunFour(Init(false, 1), CallStart(0), Advance(0, Fine), Advance(0, Fine), Advance(0, Panic));
  }

  /** A run whose start function panics: the Close after it waits, and nothing can move. */
  lemma PanicTrace()
    ensures var call := [CallStart(0), Advance(0, Fine), Advance(0, Fine), Advance(0, Panic)];
            var close := [CallClose(0), Advance(0, Fine), Advance(0, Fine), Advance(0, Fine)];
            && IsRun(Init(false, 1), call) && Run(Init(false, 1), call).panicked
            && IsRun(Run(Init(false, 1), call), close)
            && var r := Run(Run(Init(false, 1), call), close);
               r.pcs == [CloseWait] && r.doneCloses == 0 && !CanMove(r)
  {
    hide IsRun, Run;
    StartPanics();
    RunFour(Panicked(), CallClose(0), Advance(0, Fine), Advance(0, Fine), Advance(0, Fine));
  }
}
