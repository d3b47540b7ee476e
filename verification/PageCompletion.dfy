/** Reading and writing a page through its buffers: the buffers are marked, started, and completed in any order, and
    the completion of the last one unlocks the page (read) or ends its writeback (write).

    A completion is three steps: the flags that record the result, the region under `BH_Uptodate_Lock` that clears
    the buffer's own mark and looks at the others, and what the last one does to the page.  Other threads may lock
    unmarked buffers and bring them up to date at any time. */
module PageCompletion {

  datatype Kind = Read | Write

  /** How far the I/O on a buffer is: not started, with the device, result recorded, last one out, over. */
  datatype Phase = Idle | Flying | Flagged | Last(clean: bool) | Ended

  datatype Buf = Buf(locked: bool, async: bool, uptodate: bool, phase: Phase)

  /** What the submitter is doing: marking the buffers of its plan, starting them, or nothing more. */
  datatype Stage = Marking | Starting | Left

  /** `released` counts unlocks of the page (read) or ends of writeback (write); `held` are the buffers that other
      threads have locked. */
  datatype State = State(
    kind: Kind, bufs: seq<Buf>, plan: set<nat>, stage: Stage, pageUptodate: bool, pageError: bool, released: nat,
    held: set<nat>)

  datatype Step =
    | Mark(i: nat)
    | AllMarked
    | Start(i: nat)
    | Leave
    | Finish(i: nat, ok: bool)
    | Scan(i: nat)
    | Release(i: nat)
    | OtherLock(i: nat)
    | OtherFill(i: nat)
    | OtherUnlock(i: nat)

  predicate Busy(bufs: seq<Buf>) { exists i :: 0 <= i < |bufs| && bufs[i].async }
  predicate AllUptodate(bufs: seq<Buf>) { forall i :: 0 <= i < |bufs| ==> bufs[i].uptodate }

  /** A read starts on a locked page that is not up to date; whatever it does not plan to read is up to date already,
      or `get_block` failed for it. */
  predicate Init(s: State) {
    && (forall i :: 0 <= i < |s.bufs| ==> !s.bufs[i].async && s.bufs[i].phase == Idle)
    && (forall i :: i in s.held ==> i < |s.bufs| && s.bufs[i].locked)
    && (forall i :: 0 <= i < |s.bufs| && s.bufs[i].locked ==> i in s.held)
    && (forall i :: i in s.plan ==> i < |s.bufs|)
    && s.stage == Marking && s.released == 0
    && (s.kind.Read? ==>
          (!s.pageUptodate && forall i :: 0 <= i < |s.bufs| && i !in s.plan ==> s.bufs[i].uptodate || s.pageError))
  }

  predicate Enabled(s: State, st: Step) {
    match st
    case Mark(i) => s.stage == Marking && i in s.plan && i < |s.bufs| && !s.bufs[i].async && !s.bufs[i].locked
    case AllMarked => s.stage == Marking && forall i :: i in s.plan && i < |s.bufs| ==> s.bufs[i].async
    case Start(i) => s.stage == Starting && i in s.plan && i < |s.bufs| && s.bufs[i].phase == Idle
    case Leave => s.stage == Starting && forall i :: i in s.plan && i < |s.bufs| ==> s.bufs[i].phase != Idle
    case Finish(i, ok) => i < |s.bufs| && s.bufs[i].phase == Flying
    case Scan(i) => i < |s.bufs| && s.bufs[i].phase == Flagged
    case Release(i) => i < |s.bufs| && s.bufs[i].phase.Last?
    case OtherLock(i) => i < |s.bufs| && !s.bufs[i].locked
    case OtherFill(i) => i < |s.bufs| && i in s.held
    case OtherUnlock(i) => i < |s.bufs| && i in s.held
  }

  /** The page is given back: a read marks it up to date if its buffers are and nothing failed. */
  function GivenBack(s: State, clean: bool): State {
    s.(released := s.released + 1,
       pageUptodate := if s.kind.Read? then s.pageUptodate || (clean && !s.pageError) else s.pageUptodate)
  }

  function Apply(s: State, st: Step): State
    requires Enabled(s, st)
  {
    match st
    case Mark(i) => s.(bufs := s.bufs[i := s.bufs[i].(locked := true, async := true)])
    case AllMarked => s.(stage := Starting)
    case Start(i) =>
      // a read of a buffer that somebody else has brought up to date completes on the spot
      s.(bufs := s.bufs[i := s.bufs[i].(phase := if s.kind.Read? && s.bufs[i].uptodate then Flagged else Flying)])
    case Leave => var left := s.(stage := Left); if s.plan == {} then GivenBack(left, true) else left
    case Finish(i, ok) =>
      s.(bufs := s.bufs[i := s.bufs[i].(uptodate := ok, phase := Flagged)], pageError := s.pageError || !ok)
    case Scan(i) =>
      var bufs := s.bufs[i := s.bufs[i].(locked := false, async := false)];
      s.(bufs := bufs[i := bufs[i].(phase := if Busy(bufs) then Ended else Last(AllUptodate(bufs)))])
    case Release(i) => GivenBack(s.(bufs := s.bufs[i := s.bufs[i].(phase := Ended)]), s.bufs[i].phase.clean)
    case OtherLock(i) => s.(bufs := s.bufs[i := s.bufs[i].(locked := true)], held := s.held + {i})
    case OtherFill(i) => s.(bufs := s.bufs[i := s.bufs[i].(uptodate := true)])
    case OtherUnlock(i) => s.(bufs := s.bufs[i := s.bufs[i].(locked := false)], held := s.held - {i})
  }

  // ---- invariant ---------------------------------------------------------------------------------------------------

  predicate Scanned(b: Buf) { b.phase.Last? || b.phase.Ended? }

  /** A marked buffer is locked by the submitter until its completion has looked at the others. */
  predicate BufInv(s: State, i: nat)
    requires i < |s.bufs|
  {
    var b := s.bufs[i];
    && (b.async ==> b.locked && i in s.plan && i !in s.held && !Scanned(b))
    && (i in s.held ==> b.locked) && (b.locked ==> b.async || i in s.held)
    && (b.phase != Idle ==> i in s.plan && !s.stage.Marking?)
    && (!s.stage.Marking? && i in s.plan && !Scanned(b) ==> b.async)
    && (s.stage.Left? && i in s.plan ==> b.phase != Idle)
  }

  ghost predicate BufsInv(s: State) {
    && (forall i :: 0 <= i < |s.bufs| ==> BufInv(s, i))
    && (forall i :: i in s.plan || i in s.held ==> i < |s.bufs|)
  }

  /** The page is given back once: by the one buffer that found no other marked, or by a submitter with no plan. */
  ghost predicate OnceInv(s: State) {
    && (Busy(s.bufs) || s.stage.Marking? ==> s.released == 0)
    && (forall i :: 0 <= i < |s.bufs| && s.bufs[i].phase.Last? ==> s.released == 0 && !Busy(s.bufs))
    && (forall i, j ::
          0 <= i < |s.bufs| && 0 <= j < |s.bufs| && s.bufs[i].phase.Last? && s.bufs[j].phase.Last? ==> i == j)
    && (s.plan != {} && !s.stage.Marking? && !Busy(s.bufs) && s.released == 0 ==>
          exists i :: 0 <= i < |s.bufs| && s.bufs[i].phase.Last?)
    && (s.plan == {} && s.stage.Left? ==> s.released == 1)
    && (s.plan == {} && !s.stage.Left? ==> s.released == 0)
    && s.released <= 1
  }

  predicate Fine(s: State, i: nat)
    requires i < |s.bufs|
  {
    s.bufs[i].uptodate || s.pageError || (i in s.plan && (s.bufs[i].phase.Idle? || s.bufs[i].phase.Flying?))
  }

  /** A read: what is through is up to date or an error is on record. */
  ghost predicate ReadInv(s: State) {
    s.kind.Read? ==>
      && (forall i :: 0 <= i < |s.bufs| ==> Fine(s, i))
      && (forall i :: 0 <= i < |s.bufs| && s.bufs[i].phase.Last? && !s.pageError ==> s.bufs[i].phase.clean)
      && (s.pageUptodate <==> s.released == 1 && !s.pageError)
  }

  ghost predicate Inv(s: State) { BufsInv(s) && OnceInv(s) && ReadInv(s) }

  lemma StepKeepsBufs(s: State, st: Step)
    requires Inv(s) && Enabled(s, st)
    ensures BufsInv(Apply(s, st))
  {
    forall i | 0 <= i < |s.bufs| ensures BufInv(Apply(s, st), i) {
      assert BufInv(s, i);
    }
  }

  /** Only planned buffers are marked or started, and those not yet scanned are marked once marking is over. */
  lemma Marks(s: State)
    requires BufsInv(s)
    ensures forall j :: 0 <= j < |s.bufs| && s.bufs[j].async ==> j in s.plan && !Scanned(s.bufs[j])
    ensures forall j :: 0 <= j < |s.bufs| && s.bufs[j].phase != Idle ==> j in s.plan && !s.stage.Marking?
    ensures forall j :: 0 <= j < |s.bufs| && !s.stage.Marking? && j in s.plan && !Scanned(s.bufs[j]) ==> s.bufs[j].async
  {
    forall j | 0 <= j < |s.bufs|
      ensures s.bufs[j].async ==> j in s.plan && !Scanned(s.bufs[j])
      ensures s.bufs[j].phase != Idle ==> j in s.plan && !s.stage.Marking?
      ensures !s.stage.Marking? && j in s.plan && !Scanned(s.bufs[j]) ==> s.bufs[j].async
    {
      assert BufInv(s, j);
    }
  }

  lemma StepKeepsOnce(s: State, st: Step)
    requires Inv(s) && Enabled(s, st)
    ensures OnceInv(Apply(s, st))
  {
    var s' := Apply(s, st);
    Marks(s);
    match st
    case Mark(i) => assert s'.bufs[i].async;
    case AllMarked =>
      if s.plan != {} {
        var i :| i in s.plan;
        assert s'.bufs[i].async;
      }
    case Start(i) =>
      SameMarks(s.bufs, s'.bufs, i);
      assert s.bufs[i].async;
    case Leave =>
    case Finish(i, _) => SameMarks(s.bufs, s'.bufs, i);
    case Scan(i) =>
      assert BufInv(s, i);
      assert s.bufs[i].async;
      LastOut(s, i);
    case Release(i) => SameMarks(s.bufs, s'.bufs, i);
    case OtherLock(i) => SameMarks(s.bufs, s'.bufs, i);
    case OtherFill(i) => SameMarks(s.bufs, s'.bufs, i);
    case OtherUnlock(i) => SameMarks(s.bufs, s'.bufs, i);
  }

  lemma SameMarks(bufs: seq<Buf>, bufs': seq<Buf>, i: nat)
    requires |bufs'| == |bufs| && i < |bufs| && bufs' == bufs[i := bufs'[i]] && bufs'[i].async == bufs[i].async
    ensures Busy(bufs') == Busy(bufs)
    ensures bufs'[i].phase == bufs[i].phase && (exists j :: 0 <= j < |bufs| && bufs[j].phase.Last?) ==>
              exists j :: 0 <= j < |bufs'| && bufs'[j].phase.Last?
  {
    if j :| 0 <= j < |bufs| && bufs[j].phase.Last? {
      assert bufs'[i].phase == bufs[i].phase ==> bufs'[j].phase.Last?;
    }
    if Busy(bufs) {
      var j :| 0 <= j < |bufs| && bufs[j].async;
      assert bufs'[j].async;
    }
  }

  /** The buffer that finds no other marked is the only one to do so. */
  lemma LastOut(s: State, i: nat)
    requires Inv(s) && Enabled(s, Scan(i))
    ensures var s' := Apply(s, Scan(i));
            && s.released == 0 && (forall j :: 0 <= j < |s.bufs| ==> !s.bufs[j].phase.Last?)
            && (Busy(s'.bufs) <==> !s'.bufs[i].phase.Last?)
  {
    assert BufInv(s, i);
    assert s.bufs[i].async;
    var cleared := s.bufs[i := s.bufs[i].(locked := false, async := false)];
    SameMarks(cleared, Apply(s, Scan(i)).bufs, i);
  }

  lemma StepKeepsRead(s: State, st: Step)
    requires Inv(s) && Enabled(s, st)
    ensures ReadInv(Apply(s, st))
  {
    var s' := Apply(s, st);
    Marks(s);
    forall j | 0 <= j < |s.bufs| && s.kind.Read? ensures Fine(s', j) {
      assert Fine(s, j);
    }
    if st.Scan? {
      LastOut(s, st.i);
      if s.kind.Read? && !s.pageError && s'.bufs[st.i].phase.Last? {
        forall j | 0 <= j < |s.bufs| ensures s'.bufs[j].uptodate {
          assert Fine(s', j) && BufInv(s, j) && !s'.bufs[j].async;
        }
        var cleared := s.bufs[st.i := s.bufs[st.i].(locked := false, async := false)];
        assert forall j :: 0 <= j < |s.bufs| ==> cleared[j].uptodate == s'.bufs[j].uptodate;
      }
    }
    if st.Finish? {
      assert BufInv(s, st.i);
      assert s.bufs[st.i].async;
    }
  }

  lemma StepKeepsInv(s: State, st: Step)
    requires Inv(s) && Enabled(s, st)
    ensures Inv(Apply(s, st))
  {
    StepKeepsBufs(s, st);
    StepKeepsOnce(s, st);
    StepKeepsRead(s, st);
  }

  // ---- runs --------------------------------------------------------------------------------------------------------

  ghost predicate Run(states: seq<State>, steps: seq<Step>) {
    && |states| == |steps| + 1 && Init(states[0])
    && forall k :: 0 <= k < |steps| ==> Enabled(states[k], steps[k]) && states[k + 1] == Apply(states[k], steps[k])
  }

  lemma InitInv(s: State)
    requires Init(s)
    ensures Inv(s)
  {
    forall i | 0 <= i < |s.bufs| ensures BufInv(s, i) && (s.kind.Read? ==> Fine(s, i)) {}
  }

  lemma {:induction false} RunKeepsInv(states: seq<State>, steps: seq<Step>, k: nat)
    requires Run(states, steps) && k < |states|
    ensures Inv(states[k])
    decreases k
  {
    if k == 0 {
      InitInv(states[0]);
    } else {
      RunKeepsInv(states, steps, k - 1);
      StepKeepsInv(states[k - 1], steps[k - 1]);
    }
  }

  /** All planned I/O is over. */
  predicate AllEnded(s: State) {
    s.stage.Left? && forall i :: i in s.plan && i < |s.bufs| ==> s.bufs[i].phase.Ended?
  }

  /** In every completion order the page is given back exactly once: never before the last planned buffer is through,
      and when all are, it has been. */
  lemma GivenBackOnce(states: seq<State>, steps: seq<Step>, k: nat)
    requires Run(states, steps) && k < |states|
    ensures states[k].released <= 1
    ensures states[k].released == 1 ==>
              forall i :: i in states[k].plan && i < |states[k].bufs| ==> Scanned(states[k].bufs[i])
    ensures AllEnded(states[k]) ==> states[k].released == 1
  {
    var s := states[k];
    RunKeepsInv(states, steps, k);
    Marks(s);
  }

  /** The code's own checks: a marked buffer is locked, and a buffer that completes is marked. */
  lemma MarkedAreLocked(states: seq<State>, steps: seq<Step>, k: nat, i: nat)
    requires Run(states, steps) && k < |states| && i < |states[k].bufs|
    ensures states[k].bufs[i].async ==> states[k].bufs[i].locked && i !in states[k].held
    ensures states[k].bufs[i].phase.Flying? || states[k].bufs[i].phase.Flagged? ==> states[k].bufs[i].async
  {
    RunKeepsInv(states, steps, k);
    assert BufInv(states[k], i);
  }

  /** A read leaves the page up to date exactly if all its buffers are and no error was recorded. */
  lemma UptodateIff(states: seq<State>, steps: seq<Step>, k: nat)
    requires Run(states, steps) && k < |states| && states[k].kind.Read? && states[k].released == 1
    ensures states[k].pageUptodate <==> AllUptodate(states[k].bufs) && !states[k].pageError
  {
    var s := states[k];
    RunKeepsInv(states, steps, k);
    Marks(s);
    if !s.pageError {
      forall i | 0 <= i < |s.bufs| ensures s.bufs[i].uptodate {
        assert Fine(s, i);
      }
    }
  }

  /** The I/O on a buffer has failed before step `k`. */
  ghost predicate SomeFailed(steps: seq<Step>, k: nat)
    requires k <= |steps|
  {
    exists j :: 0 <= j < k && steps[j].Finish? && !steps[j].ok
  }

  lemma SomeFailedNext(steps: seq<Step>, k: nat)
    requires k < |steps|
    ensures SomeFailed(steps, k + 1) <==> SomeFailed(steps, k) || (steps[k].Finish? && !steps[k].ok)
  {
    if SomeFailed(steps, k) {
      var j :| 0 <= j < k && steps[j].Finish? && !steps[j].ok;
      assert 0 <= j < k + 1 && steps[j].Finish?;
    }
  }

  lemma StepError(s: State, st: Step)
    requires Enabled(s, st)
    ensures var s' := Apply(s, st);
            && (s'.pageError <==> s.pageError || (st.Finish? && !st.ok))
            && s'.kind == s.kind && (s.kind.Write? ==> s'.pageUptodate == s.pageUptodate)
  {
  }

  /** The page has an error exactly if it had one before or the I/O on a buffer failed, and a write does not change
      whether it is up to date. */
  lemma {:induction false} ErrorIff(states: seq<State>, steps: seq<Step>, k: nat)
    requires Run(states, steps) && k < |states|
    ensures states[k].pageError <==> states[0].pageError || SomeFailed(steps, k)
    ensures states[k].kind == states[0].kind
    ensures states[k].kind.Write? ==> states[k].pageUptodate == states[0].pageUptodate
    decreases k
  {
    if k > 0 {
      ErrorIff(states, steps, k - 1);
      SomeFailedNext(steps, k - 1);
      StepError(states[k - 1], steps[k - 1]);
    }
  }

  /** Until the I/O is over, the submitter or a completion can go on, or another thread can unlock the buffer that the
      submitter waits for. */
  lemma NeverStuck(states: seq<State>, steps: seq<Step>, k: nat) returns (st: Step)
    requires Run(states, steps) && k < |states| && !AllEnded(states[k])
    ensures Enabled(states[k], st) && !st.OtherLock? && !st.OtherFill?
    ensures st.OtherUnlock? ==> states[k].stage.Marking? && st.i in states[k].plan
  {
    RunKeepsInv(states, steps, k);
    var s := states[k];
    if s.stage.Marking? {
      if i :| i in s.plan && i < |s.bufs| && !s.bufs[i].async {
        assert BufInv(s, i);
        st := if s.bufs[i].locked then OtherUnlock(i) else Mark(i);
      } else {
        st := AllMarked;
      }
    } else if s.stage.Starting? {
      if i :| i in s.plan && i < |s.bufs| && s.bufs[i].phase.Idle? {
        st := Start(i);
      } else {
        st := Leave;
      }
    } else {
      var i :| i in s.plan && i < |s.bufs| && !s.bufs[i].phase.Ended?;
      assert BufInv(s, i);
      st := if s.bufs[i].phase.Flying? then Finish(i, true) else if s.bufs[i].phase.Flagged? then Scan(i)
            else Release(i);
    }
  }

  // ---- the loops in the code -------------------------------------------------------------------------------------

  /** `b_this_page`: the buffers of a page are a ring. */
  function Next(n: nat, i: nat): (j: nat)
    requires i < n
    ensures j < n
  {
    if i + 1 == n then 0 else i + 1
  }

  /** The scan in `end_buffer_async_read`, from the completed buffer round the ring. */
  method ScanRead(bufs: seq<Buf>, i: nat) returns (busy: bool, clean: bool)
    requires i < |bufs|
    ensures busy <==> Busy(bufs)
    ensures !busy ==> (clean <==> AllUptodate(bufs))
  {
    busy, clean := false, true;
    var tmp: nat := i;
    ghost var round := false;
    while true
      invariant tmp < |bufs| && (!round ==> tmp >= i) && (round ==> tmp < i)
      invariant forall j :: 0 <= j < |bufs| && Passed(i, tmp, round, j) ==> !bufs[j].async
      invariant clean <==> forall j :: 0 <= j < |bufs| && Passed(i, tmp, round, j) ==> bufs[j].uptodate
      decreases !round, if round then i - tmp else |bufs| - tmp
    {
      if !bufs[tmp].uptodate {
        clean := false;
      }
      if bufs[tmp].async {
        busy := true;
        return;
      }
      round := round || tmp + 1 == |bufs|;
      tmp := Next(|bufs|, tmp);
      if tmp == i {
        break;
      }
    }
  }

  /** The part of the ring from `i` up to `tmp`, past the end or not. */
  predicate Passed(i: nat, tmp: nat, round: bool, j: nat) {
    if round then j >= i || j < tmp else i <= j < tmp
  }

  /** The scan in `end_buffer_async_write`, over the other buffers. */
  method ScanWrite(bufs: seq<Buf>, i: nat) returns (busy: bool)
    requires i < |bufs| && !bufs[i].async
    ensures busy <==> Busy(bufs)
  {
    var tmp: nat := Next(|bufs|, i);
    ghost var round := tmp <= i;
    while tmp != i
      invariant tmp < |bufs| && (!round ==> tmp > i) && (round ==> tmp <= i)
      invariant forall j :: 0 <= j < |bufs| && Passed(i, tmp, round, j) ==> !bufs[j].async
      decreases !round, if round then i - tmp else |bufs| - tmp
    {
      if bufs[tmp].async {
        return true;
      }
      round := round || tmp + 1 == |bufs|;
      tmp := Next(|bufs|, tmp);
    }
    busy := false;
  }

  /** What `block_read_full_page` sees of a buffer, and what `get_block` answers for it. */
  datatype Head = Head(mapped: bool, uptodate: bool)
  datatype Answer = Answer(err: bool, head: Head)

  /** The first stage of `block_read_full_page`, for the buffers of a page that starts at block `iblock` of a file of
      `lblock` blocks: which buffers to read, which to clear, and whether the page has an error.  Whatever is not to
      be read is up to date afterwards, or the page has an error. */
  method PlanRead(heads: seq<Head>, answers: seq<Answer>, iblock: nat, lblock: nat)
    returns (after: seq<Head>, arr: seq<nat>, cleared: seq<nat>, pageError: bool, fullyMapped: bool)
    requires |answers| == |heads|
    ensures |after| == |heads|
    ensures forall i :: i in arr <==> 0 <= i < |after| && after[i].mapped && !after[i].uptodate
    ensures forall i, j :: 0 <= i < j < |arr| ==> arr[i] < arr[j]
    ensures forall i :: 0 <= i < |after| && i !in arr ==> after[i].uptodate || pageError
    ensures forall i :: 0 <= i < |after| && heads[i].uptodate ==> after[i] == heads[i]
    ensures forall i :: i in cleared <==> 0 <= i < |after| && !heads[i].uptodate && !after[i].mapped
    ensures pageError <==> exists i :: 0 <= i < |heads| && Asked(heads[i], iblock + i, lblock) && answers[i].err
    ensures fullyMapped <==> forall i :: 0 <= i < |heads| ==> heads[i].uptodate || heads[i].mapped
  {
    after, arr, cleared, pageError, fullyMapped := [], [], [], false, true;
    for i := 0 to |heads|
      invariant |after| == i
      invariant forall j :: j in arr <==> 0 <= j < i && after[j].mapped && !after[j].uptodate
      invariant forall j :: 0 <= j < |arr| ==> arr[j] < i
      invariant forall j, k :: 0 <= j < k < |arr| ==> arr[j] < arr[k]
      invariant forall j :: 0 <= j < i && j !in arr ==> after[j].uptodate || pageError
      invariant forall j :: 0 <= j < i && heads[j].uptodate ==> after[j] == heads[j]
      invariant forall j :: j in cleared <==> 0 <= j < i && !heads[j].uptodate && !after[j].mapped
      invariant pageError <==> exists j :: 0 <= j < i && Asked(heads[j], iblock + j, lblock) && answers[j].err
      invariant fullyMapped <==> forall j :: 0 <= j < i ==> heads[j].uptodate || heads[j].mapped
    {
      var h := heads[i];
      if !h.uptodate && !h.mapped {
        fullyMapped := false;
        var err := false;
        if iblock + i < lblock {
          h := answers[i].head;
          err := answers[i].err;
          if err {
            pageError := true;
          }
        }
        if !h.mapped {
          cleared := cleared + [i];
          if !err {
            h := h.(uptodate := true);
          }
        }
      }
      after := after + [h];
      if h.mapped && !h.uptodate {
        arr := arr + [i];
      }
    }
  }

  predicate Asked(h: Head, block: nat, lblock: nat) { !h.uptodate && !h.mapped && block < lblock }
}
