/** The reference count of a direct I/O request: the submitter and every bio in flight hold one each, and whoever
    drops the last one completes the request.  Each region under `bio_lock` is one step; a bio is named by a number. */
module DirectIoRefs {

  type Bio = nat

  /** Where the submitter is: handing out bios, collecting a completed one early, waiting for the rest, asleep,
      working on a completed bio, about to drop its reference, about to complete the request, back in the caller. */
  datatype Pc =
    | Submitting
    | Reaping(bio: Bio)
    | Awaiting
    | Sleeping
    | Processing(bio: Bio)
    | Dropping(queued: bool)
    | Completing
    | Returned(queued: bool)

  /** `flying` bios hold a reference; `cleaned` are those of them that an asynchronous completion has already cleaned
      up; `bioList` are the synchronously completed bios that nobody has looked at; `done` are finished with.
      `cleanups` counts calls of `dio_bio_complete`, `pending` the completions of bios that found no reference left
      and must complete the request, `completed` the calls of `dio_complete`, `calledBack` those that notify the
      caller of an asynchronous request. */
  datatype State = State(
    async: bool, pc: Pc, refcount: int, flying: set<Bio>, cleaned: set<Bio>, bioList: seq<Bio>, done: set<Bio>,
    waiter: bool, asleep: bool, cleanups: multiset<Bio>, pending: nat, completed: nat, calledBack: nat)

  datatype Step =
    | Submit(b: Bio)
    | ReapTake
    | ReapClean
    | EndIo(b: Bio)
    | Clean(b: Bio)
    | EndAio(b: Bio)
    | Decide(queue: bool)
    | AwaitOne
    | WakeUp
    | Process
    | Drop
    | CompleteSelf
    | CompleteByBio

  predicate Init(s: State) {
    s == State(s.async, Submitting, 1, {}, {}, [], {}, false, false, multiset{}, 0, 0, 0)
  }

  function Occurs(l: seq<Bio>, b: Bio): nat {
    if l == [] then 0 else Occurs(l[1..], b) + if l[0] == b then 1 else 0
  }

  /** In how many places a bio is: in flight, on the list, in the submitter's hands, done. */
  function Places(s: State, b: Bio): nat {
    (if b in s.flying then 1 else 0) + Occurs(s.bioList, b) +
    (if (s.pc.Reaping? || s.pc.Processing?) && s.pc.bio == b then 1 else 0) + (if b in s.done then 1 else 0)
  }

  predicate Enabled(s: State, st: Step) {
    match st
    case Submit(b) => s.pc.Submitting? && Places(s, b) == 0
    case ReapTake => s.pc.Submitting? && s.bioList != []
    case ReapClean => s.pc.Reaping?
    case EndIo(b) => !s.async && b in s.flying
    case Clean(b) => s.async && b in s.flying && b !in s.cleaned
    case EndAio(b) => s.async && b in s.cleaned
    case Decide(queue) => s.pc.Submitting? && (queue ==> s.async)
    case AwaitOne => s.pc.Awaiting?
    case WakeUp => s.pc.Sleeping?   // also without a wake-up, as after a successful poll
    case Process => s.pc.Processing?
    case Drop => s.pc.Dropping?
    case CompleteSelf => s.pc.Completing?
    case CompleteByBio => s.pending > 0
  }

  function Apply(s: State, st: Step): State
    requires Enabled(s, st)
  {
    match st
    case Submit(b) => s.(refcount := s.refcount + 1, flying := s.flying + {b})
    case ReapTake => s.(pc := Reaping(s.bioList[0]), bioList := s.bioList[1..])
    case ReapClean => s.(pc := Submitting, done := s.done + {s.pc.bio}, cleanups := s.cleanups + multiset{s.pc.bio})
    case EndIo(b) =>
      s.(bioList := [b] + s.bioList, flying := s.flying - {b}, refcount := s.refcount - 1,
         asleep := s.asleep && !(s.refcount - 1 == 1 && s.waiter))
    case Clean(b) => s.(cleaned := s.cleaned + {b}, cleanups := s.cleanups + multiset{b})
    case EndAio(b) =>
      s.(flying := s.flying - {b}, cleaned := s.cleaned - {b}, done := s.done + {b}, refcount := s.refcount - 1,
         asleep := s.asleep && !(s.refcount - 1 == 1 && s.waiter),
         pending := s.pending + if s.refcount - 1 == 0 then 1 else 0)
    case Decide(queue) => s.(pc := if queue then Dropping(true) else Awaiting)
    case AwaitOne =>
      if s.refcount > 1 && s.bioList == [] then s.(pc := Sleeping, waiter := true, asleep := true)
      else if s.bioList != [] then s.(pc := Processing(s.bioList[0]), bioList := s.bioList[1..])
      else s.(pc := Dropping(false))
    case WakeUp => s.(pc := Awaiting, waiter := false, asleep := false)
    case Process => s.(pc := Awaiting, done := s.done + {s.pc.bio}, cleanups := s.cleanups + multiset{s.pc.bio})
    case Drop =>
      s.(refcount := s.refcount - 1, pc := if s.refcount - 1 == 0 then Completing else Returned(s.pc.queued))
    case CompleteSelf => s.(pc := Returned(false), completed := s.completed + 1)
    case CompleteByBio => s.(pending := s.pending - 1, completed := s.completed + 1, calledBack := s.calledBack + 1)
  }

  // ---- invariant ---------------------------------------------------------------------------------------------------

  /** The submitter's own reference. */
  function Own(s: State): int { if s.pc.Completing? || s.pc.Returned? then 0 else 1 }

  ghost predicate CountInv(s: State) { s.refcount == Own(s) + |s.flying| }

  /** Every bio is in one place, and has been cleaned up once if it is through. */
  ghost predicate PlaceInv(s: State) {
    && (forall b :: Places(s, b) <= 1)
    && (if s.async then s.bioList == [] && !s.pc.Reaping? && !s.pc.Processing? else s.cleaned == {})
  }

  ghost predicate CleanInv(s: State) {
    && s.cleaned <= s.flying
    && (forall b :: s.cleanups[b] == if b in s.cleaned || b in s.done then 1 else 0)
  }

  /** The submitter gives up its reference only when everything is through, unless the request is queued. */
  ghost predicate PcInv(s: State) {
    && (s.pc.Dropping? && !s.pc.queued ==> s.flying == {} && s.bioList == [])
    && ((s.pc.Dropping? || s.pc.Returned?) && s.pc.queued ==> s.async)
    && (s.pc.Completing? ==> s.flying == {} && s.bioList == [])
    && (s.pc.Returned? && !s.pc.queued ==> s.flying == {} && s.bioList == [])
  }

  /** The request is completed once, by the submitter or by the last bio. */
  ghost predicate OnceInv(s: State) {
    && s.pending + s.completed ==
         (if s.pc.Returned? && (s.pc.queued ==> s.flying == {}) then 1 else 0)
    && (s.pc.Returned? && !s.pc.queued ==> s.pending == 0)
    && s.calledBack == if s.pc.Returned? && s.pc.queued then s.completed else 0
  }

  /** A sleeping submitter is registered for a wake-up, and a bio that will give it is still to come. */
  ghost predicate SleepInv(s: State) {
    && (s.waiter <==> s.pc.Sleeping?)
    && (s.asleep ==> s.pc.Sleeping? && s.refcount > 1)
  }

  ghost predicate Inv(s: State) { CountInv(s) && PlaceInv(s) && CleanInv(s) && PcInv(s) && OnceInv(s) && SleepInv(s) }

  lemma StepKeepsCount(s: State, st: Step)
    requires Inv(s) && Enabled(s, st)
    ensures CountInv(Apply(s, st))
  {
  }

  lemma StepKeepsSleep(s: State, st: Step)
    requires Inv(s) && Enabled(s, st)
    ensures SleepInv(Apply(s, st))
  {
  }

  /** A step moves a bio from one place to the next. */
  lemma PlaceKept(s: State, st: Step, b: Bio)
    requires Enabled(s, st) && s.cleaned <= s.flying && Places(s, b) <= 1
    ensures Places(Apply(s, st), b) <= 1
  {
    if st.EndIo? {
      assert ([st.b] + s.bioList)[1..] == s.bioList;
    }
  }

  lemma StepKeepsPlace(s: State, st: Step)
    requires Inv(s) && Enabled(s, st)
    ensures PlaceInv(Apply(s, st))
  {
    forall b ensures Places(Apply(s, st), b) <= 1 {
      PlaceKept(s, st, b);
    }
  }

  lemma StepKeepsClean(s: State, st: Step)
    requires Inv(s) && Enabled(s, st)
    ensures CleanInv(Apply(s, st))
  {
    if st.ReapClean? || st.Process? {
      assert Places(s, s.pc.bio) <= 1;
    } else if st.EndAio? || st.Clean? {
      assert Places(s, st.b) <= 1;
    }
  }

  lemma StepKeepsPc(s: State, st: Step)
    requires Inv(s) && Enabled(s, st)
    ensures PcInv(Apply(s, st))
  {
  }

  lemma StepKeepsOnce(s: State, st: Step)
    requires Inv(s) && Enabled(s, st)
    ensures OnceInv(Apply(s, st))
  {
    if st.EndAio? {
      assert |s.flying - {st.b}| == |s.flying| - 1;
    }
  }

  lemma StepKeepsInv(s: State, st: Step)
    requires Inv(s) && Enabled(s, st)
    ensures Inv(Apply(s, st))
  {
    StepKeepsCount(s, st);
    StepKeepsSleep(s, st);
    StepKeepsPlace(s, st);
    StepKeepsClean(s, st);
    StepKeepsPc(s, st);
    StepKeepsOnce(s, st);
  }

  // ---- runs -------------------------------------------------------------------------------------------------------

  ghost predicate Run(states: seq<State>, steps: seq<Step>) {
    && |states| == |steps| + 1 && Init(states[0])
    && forall k :: 0 <= k < |steps| ==> Enabled(states[k], steps[k]) && states[k + 1] == Apply(states[k], steps[k])
  }

  lemma {:induction false} RunKeepsInv(states: seq<State>, steps: seq<Step>, k: nat)
    requires Run(states, steps) && k < |states|
    ensures Inv(states[k])
    decreases k
  {
    if k > 0 {
      RunKeepsInv(states, steps, k - 1);
      StepKeepsInv(states[k - 1], steps[k - 1]);
    }
  }

  /** Every bio issued so far has completed and has been cleaned up. */
  ghost predicate AllThrough(s: State) {
    s.flying == {} && s.bioList == [] && !s.pc.Reaping? && !s.pc.Processing?
  }

  /** `dio_complete` runs at most once in a run, and every bio issued is through by then, cleaned up exactly once. */
  lemma CompletedOnceAfterAll(states: seq<State>, steps: seq<Step>, k: nat)
    requires Run(states, steps) && k < |states|
    ensures states[k].completed + states[k].pending <= 1
    ensures states[k].completed + states[k].pending == 1 || states[k].pc.Completing? ==> AllThrough(states[k])
    ensures AllThrough(states[k]) ==> forall b :: b in states[k].done <==> states[k].cleanups[b] == 1
    ensures forall b :: states[k].cleanups[b] <= 1
  {
    RunKeepsInv(states, steps, k);
  }

  /** When nothing is left to do it has run exactly once: by the submitter, whose return value is then the result,
      or by the last bio, which calls the submitter's caller back, exactly if the submitter returned "queued". */
  lemma CompletedAtEnd(states: seq<State>, steps: seq<Step>, k: nat)
    requires Run(states, steps) && k < |states|
    requires states[k].pc.Returned? && states[k].flying == {} && states[k].pending == 0
    ensures states[k].completed == 1
    ensures states[k].calledBack == if states[k].pc.queued then 1 else 0
  {
    RunKeepsInv(states, steps, k);
  }

  /** The final check: the submitter leaves references behind only if its result is "queued", and this is only for
      asynchronous requests. */
  lemma LeavesOnlyQueued(states: seq<State>, steps: seq<Step>, k: nat)
    requires Run(states, steps) && k < |steps| && steps[k].Drop?
    ensures states[k].refcount - 1 != 0 ==> states[k].pc.queued
    ensures states[k].pc.queued ==> states[k].async
    ensures states[k].refcount - 1 == |states[k].flying|
  {
    RunKeepsInv(states, steps, k);
  }

  /** No wake-up is lost: while the submitter sleeps, a bio is in flight whose completion will find it registered,
      and the completion that leaves the submitter's reference alone wakes it. */
  lemma NoLostWakeup(states: seq<State>, steps: seq<Step>, k: nat)
    requires Run(states, steps) && k < |states| && states[k].asleep
    ensures states[k].pc.Sleeping? && states[k].waiter && states[k].flying != {}
    ensures forall st: Step | (st.EndIo? || st.EndAio?) && Enabled(states[k], st) && states[k].flying == {st.b} ::
              !Apply(states[k], st).asleep
  {
    RunKeepsInv(states, steps, k);
    var s := states[k];
    forall st: Step | (st.EndIo? || st.EndAio?) && Enabled(s, st) && s.flying == {st.b} ensures !Apply(s, st).asleep {
      assert |{st.b}| == 1;
    }
  }

  /** Nobody uses the request after `dio_complete` has freed it: no step follows a completion. */
  lemma NeverTouchedAfterFree(states: seq<State>, steps: seq<Step>, k: nat)
    requires Run(states, steps) && k < |steps|
    ensures states[k].completed == 0
  {
    RunKeepsInv(states, steps, k);
  }

  // ---- progress ----------------------------------------------------------------------------------------------------

  /** A submitter that waits is never stuck: it can go on, or a bio in flight can complete. */
  lemma NeverStuck(states: seq<State>, steps: seq<Step>, k: nat) returns (st: Step)
    requires Run(states, steps) && k < |states|
    requires !(states[k].pc.Returned? && states[k].flying == {} && states[k].pending == 0)
    ensures Enabled(states[k], st) && (st.WakeUp? ==> !states[k].asleep) && !st.Submit?
  {
    RunKeepsInv(states, steps, k);
    var s := states[k];
    if s.pending > 0 {
      st := CompleteByBio;
    } else if s.flying != {} {
      var b :| b in s.flying;
      st := if !s.async then EndIo(b) else if b in s.cleaned then EndAio(b) else Clean(b);
    } else {
      match s.pc
      case Submitting => st := Decide(false);
      case Reaping(_) => st := ReapClean;
      case Awaiting => st := AwaitOne;
      case Sleeping => st := WakeUp;
      case Processing(_) => st := Process;
      case Dropping(_) => st := Drop;
      case Completing => st := CompleteSelf;
      case Returned(_) =>
    }
  }
}
