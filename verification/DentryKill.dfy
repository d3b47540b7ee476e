/** Who frees a dentry: `dput` and `__dentry_kill` racing with the owners of shrink lists.

    A dentry is on at most one list through `d_lru`: the superblock's LRU or some task's private shrink list.
    A killer marks it dead and unlists it under `d_lock`, drops the lock, and later decides under the lock
    whether to free it or to leave that to the owner of the shrink list it is on.  Every region under
    `d_lock` is one step; tasks interleave freely between them.

    References are tokens in the hands of whoever uses a dentry; the count is what the code makes of them. */
module DentryKill {

  type Id = nat
  type Tid = nat
  type Ref = nat

  datatype Link = Off | SbLru | ShrinkOf(t: Tid)

  /** `keeper` is the last task that took charge of freeing the dentry, and `skipped` is that the owner of a shrink list
      took it off that list although it was unused; no step reads them. */
  datatype Dentry = Dentry(count: int, lru: bool, shrink: bool, mayFree: bool, link: Link, frees: nat, keeper: Tid,
                           skipped: bool)

  /** A task between two of its locked regions. */
  datatype Pc =
    | PutWindow(d: Id)   // fast_dput took the count to zero, and then reads the flags or locks
    | Killing(d: Id)     // __dentry_kill dropped d_lock and will take it again
    | Freeing(d: Id)     // about to call dentry_free

  /** `warned` records a failed D_FLAG_VERIFY; `refs` are the references that are held, with the dentry of each. */
  datatype State = State(
    dentries: map<Id, Dentry>, tasks: map<Tid, Pc>, nrUnused: int, warned: bool, refs: map<Ref, Id>)

  datatype Step =
    | New(d: Id, r: Ref)
    | Get(d: Id, r: Ref)
    | PutShared(d: Id, r: Ref)
    | PutFast(t: Tid, d: Id, r: Ref)
    | PutLeave(t: Tid)
    | PutSeen(t: Tid)
    | PutReget(t: Tid, r: Ref)
    | Retain(d: Id, r: Ref)
    | KillLast(t: Tid, d: Id, r: Ref)
    | KillUnused(t: Tid, d: Id)
    | KillEnd(t: Tid)
    | Free(t: Tid)
    | LruIsolate(d: Id)
    | LruShrink(t: Tid, d: Id)
    | Collect(t: Tid, d: Id)
    | ShrinkSkip(t: Tid, d: Id)
    | ShrinkKill(t: Tid, d: Id)

  const DEAD: int := -128

  // ---- the list helpers --------------------------------------------------------------------------------

  function Set(s: State, d: Id, e: Dentry): State { s.(dentries := s.dentries[d := e]) }

  /** What every helper does: verify the two flag bits, then set them, the link and the counter. */
  function Relink(s: State, d: Id, lru: bool, shrink: bool, lru': bool, shrink': bool, link: Link): State
    requires d in s.dentries
  {
    var e := s.dentries[d];
    Set(s, d, e.(lru := lru', shrink := shrink', link := link)).(
      nrUnused := s.nrUnused + (if lru' then 1 else 0) - (if lru then 1 else 0),
      warned := s.warned || e.lru != lru || e.shrink != shrink)
  }

  function LruAdd(s: State, d: Id): State requires d in s.dentries { Relink(s, d, false, false, true, false, SbLru) }
  function LruDel(s: State, d: Id): State requires d in s.dentries { Relink(s, d, true, false, false, false, Off) }
  function ShrinkDel(s: State, d: Id): State requires d in s.dentries { Relink(s, d, true, true, false, false, Off) }
  function ShrinkAdd(s: State, d: Id, t: Tid): State
    requires d in s.dentries
  {
    Relink(s, d, false, false, true, true, ShrinkOf(t))
  }
  function LruShrinkMove(s: State, d: Id, t: Tid): State
    requires d in s.dentries
  {
    Relink(s, d, true, false, true, true, ShrinkOf(t))
  }

  /** __dentry_kill up to the point where it drops d_lock. */
  function KillBegun(s: State, t: Tid, d: Id): State
    requires d in s.dentries
  {
    var e := s.dentries[d];
    var dead := Set(s, d, e.(count := DEAD, keeper := t));
    (if e.lru && !e.shrink then LruDel(dead, d) else dead).(tasks := s.tasks[t := Killing(d)])
  }

  function SetCount(s: State, d: Id, count: int): State
    requires d in s.dentries
  {
    Set(s, d, s.dentries[d].(count := count))
  }

  // ---- steps -------------------------------------------------------------------------------------------

  predicate AtDentry(s: State, t: Tid) { t in s.tasks && s.tasks[t].d in s.dentries }

  /** Reference `r` to `d` is there to be dropped. */
  predicate Holds(s: State, r: Ref, d: Id) { r in s.refs && s.refs[r] == d && d in s.dentries }

  /** Whoever drops a reference holds it; the code looks at the count only. */
  predicate Enabled(s: State, st: Step) {
    match st
    case New(d, r) => d !in s.dentries && r !in s.refs
    case Get(d, r) => d in s.dentries && s.dentries[d].count >= 0 && r !in s.refs
    case PutShared(d, r) => Holds(s, r, d) && s.dentries[d].count >= 2
    case PutFast(t, d, r) => Holds(s, r, d) && s.dentries[d].count == 1 && t !in s.tasks
    case PutLeave(t) => AtDentry(s, t) && s.tasks[t].PutWindow? && s.dentries[s.tasks[t].d].lru
    case PutSeen(t) => AtDentry(s, t) && s.tasks[t].PutWindow? && s.dentries[s.tasks[t].d].count != 0
    case PutReget(t, r) =>
      AtDentry(s, t) && s.tasks[t].PutWindow? && s.dentries[s.tasks[t].d].count == 0 && r !in s.refs
    case Retain(d, r) => Holds(s, r, d) && s.dentries[d].count == 1
    case KillLast(t, d, r) => Holds(s, r, d) && s.dentries[d].count == 1 && t !in s.tasks
    case KillUnused(t, d) => d in s.dentries && s.dentries[d].count == 0 && t !in s.tasks
    case KillEnd(t) => AtDentry(s, t) && s.tasks[t].Killing?
    case Free(t) => AtDentry(s, t) && s.tasks[t].Freeing?
    case LruIsolate(d) => d in s.dentries && s.dentries[d].link.SbLru? && s.dentries[d].count != 0
    case LruShrink(t, d) => d in s.dentries && s.dentries[d].link.SbLru?
    case Collect(t, d) => d in s.dentries
    case ShrinkSkip(t, d) => d in s.dentries && s.dentries[d].link == ShrinkOf(t) && t !in s.tasks
    case ShrinkKill(t, d) =>
      d in s.dentries && s.dentries[d].link == ShrinkOf(t) && t !in s.tasks && s.dentries[d].count == 0
  }

  /** What a step does to the references, whatever the code does to the count. */
  function RefsAfter(s: State, st: Step): map<Ref, Id>
    requires Enabled(s, st)
  {
    match st
    case New(d, r) => s.refs[r := d]
    case Get(d, r) => s.refs[r := d]
    case PutShared(_, r) => s.refs - {r}
    case PutFast(_, _, r) => s.refs - {r}
    case PutReget(t, r) => s.refs[r := s.tasks[t].d]
    case Retain(_, r) => s.refs - {r}
    case KillLast(_, _, r) => s.refs - {r}
    case _ => s.refs
  }

  function Apply(s: State, st: Step): State
    requires Enabled(s, st)
  {
    Code(s, st).(refs := RefsAfter(s, st))
  }

  /** What the code does. */
  function Code(s: State, st: Step): State
    requires Enabled(s, st)
  {
    match st
    case New(d, _) => Set(s, d, Dentry(1, false, false, false, Off, 0, 0, false))
    case Get(d, _) => SetCount(s, d, s.dentries[d].count + 1)
    case PutShared(d, _) => SetCount(s, d, s.dentries[d].count - 1)
    case PutFast(t, d, _) => SetCount(s, d, 0).(tasks := s.tasks[t := PutWindow(d)])
    case PutLeave(t) => s.(tasks := s.tasks - {t})
    case PutSeen(t) => s.(tasks := s.tasks - {t})
    case PutReget(t, _) => SetCount(s, s.tasks[t].d, 1).(tasks := s.tasks - {t})
    case Retain(d, _) => var kept := SetCount(s, d, 0); if s.dentries[d].lru then kept else LruAdd(kept, d)
    case KillLast(t, d, _) => KillBegun(s, t, d)
    case KillUnused(t, d) => KillBegun(s, t, d)
    case KillEnd(t) =>
      var d := s.tasks[t].d;
      var e := s.dentries[d];
      if e.shrink then Set(s, d, e.(mayFree := true)).(tasks := s.tasks - {t})
      else s.(tasks := s.tasks[t := Freeing(d)])
    case Free(t) =>
      var d := s.tasks[t].d;
      Set(s, d, s.dentries[d].(frees := s.dentries[d].frees + 1)).(tasks := s.tasks - {t})
    case LruIsolate(d) => LruDel(s, d)
    case LruShrink(t, d) => LruShrinkMove(s, d, t)
    case Collect(t, d) =>
      var e := s.dentries[d];
      if e.shrink then s
      else
        var off := if e.lru then LruDel(s, d) else s;
        if e.count == 0 then ShrinkAdd(off, d, t) else off
    case ShrinkSkip(t, d) =>
      var e := s.dentries[d];
      var off := ShrinkDel(s, d);
      if e.count < 0 && e.mayFree then
        Set(off, d, off.dentries[d].(keeper := t)).(tasks := s.tasks[t := Freeing(d)])
      else Set(off, d, off.dentries[d].(skipped := e.count == 0))
    case ShrinkKill(t, d) => KillBegun(ShrinkDel(s, d), t, d)
  }

  predicate Init(s: State) { s == State(map[], map[], 0, false, map[]) }

  // ---- invariant ---------------------------------------------------------------------------------------

  /** The two flag bits say which list the dentry is on. */
  predicate FlagsFit(e: Dentry) {
    match e.link
    case Off => !e.lru && !e.shrink
    case SbLru => e.lru && !e.shrink
    case ShrinkOf(_) => e.lru && e.shrink
  }

  /** A live dentry is nobody's to free.  A dead one is off the LRU and has exactly one party that will free
      it, until it has been freed: its killer, a task about to free it, or the shrink list it is on. */
  predicate ChargeFits(tasks: map<Tid, Pc>, d: Id, e: Dentry) {
    if e.count >= 0 then e.frees == 0 && !e.mayFree
    else
      var pc := if e.keeper in tasks then tasks[e.keeper] else PutWindow(d);
      && !e.link.SbLru?
      && (if pc == Killing(d) then e.frees == 0 && !e.mayFree
          else if pc == Freeing(d) then e.frees == 0 && e.link.Off?
          else if e.frees == 0 then e.mayFree && e.link.ShrinkOf?
          else e.frees == 1 && e.link.Off?)
  }

  predicate DentryFits(s: State, d: Id) {
    d in s.dentries ==> FlagsFit(s.dentries[d]) && ChargeFits(s.tasks, d, s.dentries[d])
  }

  predicate TaskFits(s: State, t: Tid) {
    t in s.tasks ==>
      var pc := s.tasks[t];
      pc.d in s.dentries && (pc.PutWindow? || (s.dentries[pc.d].count < 0 && s.dentries[pc.d].keeper == t))
  }

  ghost predicate DentriesInv(s: State) { forall d :: d in s.dentries ==> DentryFits(s, d) }

  ghost predicate TasksInv(s: State) { forall t :: t in s.tasks ==> TaskFits(s, t) }

  /** The references to a dentry. */
  function RefsTo(refs: map<Ref, Id>, d: Id): set<Ref> { set r | r in refs && refs[r] == d }

  /** The count of a live dentry is the number of references to it, and a dead one has none. */
  ghost predicate RefsFit(s: State, d: Id) {
    d in s.dentries ==>
      (if s.dentries[d].count >= 0 then s.dentries[d].count == |RefsTo(s.refs, d)| else RefsTo(s.refs, d) == {})
  }

  ghost predicate RefsInv(s: State) {
    (forall d :: d in s.dentries ==> RefsFit(s, d)) && (forall r :: r in s.refs ==> s.refs[r] in s.dentries)
  }

  /** An unused dentry that is on no list is in the hands of a task that has just dropped its reference, or was
      skipped. */
  ghost predicate UnusedFits(s: State, d: Id) {
    d in s.dentries && s.dentries[d].count == 0 && s.dentries[d].link.Off? && !s.dentries[d].skipped ==>
      exists t :: t in s.tasks && s.tasks[t] == PutWindow(d)
  }

  ghost predicate UnusedInv(s: State) { forall d :: d in s.dentries ==> UnusedFits(s, d) }

  function OnLists(s: State): set<Id> { set d | d in s.dentries && s.dentries[d].lru }

  ghost predicate CountInv(s: State) { s.nrUnused == |OnLists(s)| && !s.warned }

  ghost predicate Inv(s: State) { DentriesInv(s) && TasksInv(s) && CountInv(s) && RefsInv(s) && UnusedInv(s) }

  /** The dentry whose d_lock a step holds. */
  function Subject(s: State, st: Step): Id
    requires Enabled(s, st)
  {
    if st.PutLeave? || st.PutSeen? || st.PutReget? || st.KillEnd? || st.Free? then s.tasks[st.t].d else st.d
  }

  /** The task that a step moves, if any. */
  function TaskOf(st: Step): Tid {
    if st.New? || st.Get? || st.PutShared? || st.Retain? || st.LruIsolate? then 0 else st.t
  }

  predicate Kills(st: Step) { st.KillLast? || st.KillUnused? || st.ShrinkKill? }

  /** At most task `t` has moved, from and to dentry `d`. */
  ghost predicate OneTask(tasks: map<Tid, Pc>, tasks': map<Tid, Pc>, t: Tid, d: Id) {
    && (forall u :: u != t ==> (u in tasks <==> u in tasks'))
    && (forall u :: u != t && u in tasks ==> tasks'[u] == tasks[u])
    && (t in tasks ==> tasks[t].d == d) && (t in tasks' ==> tasks'[t].d == d)
  }

  predicate OneDentry(dentries: map<Id, Dentry>, dentries': map<Id, Dentry>, d: Id) {
    d in dentries' && dentries' == dentries[d := dentries'[d]]
  }

  /** A step touches one dentry, and at most one task. */
  ghost predicate Local(s: State, s': State, t: Tid, d: Id) {
    OneDentry(s.dentries, s'.dentries, d) && (s'.tasks == s.tasks || OneTask(s.tasks, s'.tasks, t, d))
  }

  lemma StepAtDentry(s: State, st: Step)
    requires Enabled(s, st)
    ensures OneDentry(s.dentries, Apply(s, st).dentries, Subject(s, st))
  {
  }

  lemma StepOfTask(s: State, st: Step)
    requires Enabled(s, st)
    ensures Apply(s, st).tasks == s.tasks || OneTask(s.tasks, Apply(s, st).tasks, TaskOf(st), Subject(s, st))
  {
  }

  lemma ChargeElsewhere(tasks: map<Tid, Pc>, tasks': map<Tid, Pc>, t: Tid, d: Id, x: Id, e: Dentry)
    requires OneTask(tasks, tasks', t, d) && x != d && ChargeFits(tasks, x, e)
    ensures ChargeFits(tasks', x, e)
  {
  }

  /** So only its own dentry has to be looked at. */
  lemma DentriesKept(s: State, s': State, t: Tid, d: Id)
    requires DentriesInv(s) && Local(s, s', t, d)
    requires DentryFits(s', d)
    ensures DentriesInv(s')
  {
    forall x | x in s'.dentries && x != d
      ensures ChargeFits(s'.tasks, x, s'.dentries[x])
    {
      if s'.tasks != s.tasks {
        ChargeElsewhere(s.tasks, s'.tasks, t, d, x, s.dentries[x]);
      }
    }
  }

  /** And only the tasks at it. */
  lemma TasksKept(s: State, s': State, t: Tid, d: Id)
    requires TasksInv(s) && Local(s, s', t, d)
    requires forall u :: u in s'.tasks && s'.tasks[u].d == d ==> TaskFits(s', u)
    ensures TasksInv(s')
  {
  }

  lemma CountingFits(s: State, st: Step)
    requires Enabled(s, st) && DentryFits(s, Subject(s, st)) && TaskFits(s, TaskOf(st)) && Counts(st) && !Puts(st)
    ensures DentryFits(Apply(s, st), Subject(s, st))
  {
  }

  lemma PuttingFits(s: State, st: Step)
    requires Enabled(s, st) && DentryFits(s, Subject(s, st)) && TaskFits(s, TaskOf(st)) && Puts(st)
    ensures DentryFits(Apply(s, st), Subject(s, st))
  {
  }

  lemma KillFits(s: State, st: Step)
    requires Enabled(s, st) && DentryFits(s, Subject(s, st)) && TaskFits(s, TaskOf(st)) && Kills(st)
    ensures DentryFits(Apply(s, st), Subject(s, st))
  {
  }

  lemma ListingFits(s: State, st: Step)
    requires Enabled(s, st) && DentryFits(s, Subject(s, st)) && TaskFits(s, TaskOf(st)) && !Counts(st) && !Kills(st)
    ensures DentryFits(Apply(s, st), Subject(s, st))
  {
  }

  lemma StepFits(s: State, st: Step)
    requires Enabled(s, st) && DentryFits(s, Subject(s, st)) && TaskFits(s, TaskOf(st))
    ensures DentryFits(Apply(s, st), Subject(s, st))
  {
    if Puts(st) {
      PuttingFits(s, st);
    } else if Counts(st) {
      CountingFits(s, st);
    } else if Kills(st) {
      KillFits(s, st);
    } else {
      ListingFits(s, st);
    }
  }

  lemma CountingKeepsCharge(s: State, st: Step, u: Tid)
    requires Enabled(s, st) && DentryFits(s, Subject(s, st)) && TaskFits(s, u) && Counts(st)
    requires u in Apply(s, st).tasks && Apply(s, st).tasks[u].d == Subject(s, st)
    ensures TaskFits(Apply(s, st), u)
  {
  }

  lemma KillKeepsCharge(s: State, st: Step, u: Tid)
    requires Enabled(s, st) && DentryFits(s, Subject(s, st)) && TaskFits(s, u) && Kills(st)
    requires u in Apply(s, st).tasks && Apply(s, st).tasks[u].d == Subject(s, st)
    ensures TaskFits(Apply(s, st), u)
  {
  }

  lemma ListingKeepsCharge(s: State, st: Step, u: Tid)
    requires Enabled(s, st) && DentryFits(s, Subject(s, st)) && TaskFits(s, u) && !Counts(st) && !Kills(st)
    requires u in Apply(s, st).tasks && Apply(s, st).tasks[u].d == Subject(s, st)
    ensures TaskFits(Apply(s, st), u)
  {
  }

  predicate Counts(st: Step) { st.New? || st.Get? || st.PutShared? || st.Retain? || Puts(st) }

  /** The lockless part of `dput`, around its window without a reference. */
  predicate Puts(st: Step) { st.PutFast? || st.PutLeave? || st.PutSeen? || st.PutReget? }

  function Bit(b: bool): int { if b then 1 else 0 }

  lemma OneChangeCounts(s: State, s': State, d: Id)
    requires CountInv(s) && d in s'.dentries && s'.dentries == s.dentries[d := s'.dentries[d]] && !s'.warned
    requires s'.nrUnused - s.nrUnused == Bit(s'.dentries[d].lru) - Bit(d in s.dentries && s.dentries[d].lru)
    ensures CountInv(s')
  {
    assert OnLists(s') == if s'.dentries[d].lru then OnLists(s) + {d} else OnLists(s) - {d};
  }

  /** The counter goes with the flag. */
  lemma UnusedBy(s: State, st: Step)
    requires Enabled(s, st) && DentryFits(s, Subject(s, st)) && !s.warned
    ensures var s', d := Apply(s, st), Subject(s, st);
            && !s'.warned && d in s'.dentries
            && s'.nrUnused - s.nrUnused == Bit(s'.dentries[d].lru) - Bit(d in s.dentries && s.dentries[d].lru)
  {
  }

  lemma StepKeepsCount(s: State, st: Step)
    requires Enabled(s, st) && DentryFits(s, Subject(s, st)) && CountInv(s)
    ensures CountInv(Apply(s, st))
  {
    StepAtDentry(s, st);
    UnusedBy(s, st);
    OneChangeCounts(s, Apply(s, st), Subject(s, st));
  }

  lemma RefsGrown(refs: map<Ref, Id>, r: Ref, d: Id, x: Id)
    requires r !in refs
    ensures RefsTo(refs[r := d], x) == if x == d then RefsTo(refs, x) + {r} else RefsTo(refs, x)
    ensures r !in RefsTo(refs, x)
  {
  }

  lemma RefsShrunk(refs: map<Ref, Id>, r: Ref, x: Id)
    requires r in refs
    ensures RefsTo(refs - {r}, x) == if x == refs[r] then RefsTo(refs, x) - {r} else RefsTo(refs, x)
    ensures r in RefsTo(refs, x) <==> x == refs[r]
  {
  }

  /** A step changes the references to its own dentry at most, by the one it takes or drops. */
  lemma RefsOf(s: State, st: Step, x: Id)
    requires Enabled(s, st)
    ensures var now, was := RefsTo(RefsAfter(s, st), x), RefsTo(s.refs, x);
            if x != Subject(s, st) then now == was
            else if Takes(st) then |now| == |was| + 1
            else if Drops(st) then |now| == |was| - 1 && st.r in was && now == was - {st.r}
            else now == was
  {
    if Takes(st) {
      RefsGrown(s.refs, st.r, Subject(s, st), x);
    } else if Drops(st) {
      RefsShrunk(s.refs, st.r, x);
    }
  }

  predicate Takes(st: Step) { st.New? || st.Get? || st.PutReget? }
  predicate Drops(st: Step) { st.PutShared? || st.PutFast? || st.Retain? || st.KillLast? }

  /** What the code does to the count of its dentry. */
  lemma CountOf(s: State, st: Step)
    requires Enabled(s, st)
    ensures var d, e' := Subject(s, st), Apply(s, st).dentries[Subject(s, st)];
            if st.New? then e'.count == 1
            else if Kills(st) then 0 <= s.dentries[d].count == Bit(Drops(st)) && e'.count < 0
            else e'.count == s.dentries[d].count + Bit(Takes(st)) - Bit(Drops(st)) &&
                 (Takes(st) || Drops(st) ==> s.dentries[d].count >= Bit(Drops(st)))
  {
  }

  lemma NoneYet(s: State, d: Id)
    requires RefsInv(s) && d !in s.dentries
    ensures RefsTo(s.refs, d) == {}
  {
  }

  lemma StepKeepsRefs(s: State, st: Step)
    requires RefsInv(s) && Enabled(s, st)
    ensures RefsInv(Apply(s, st))
  {
    var s', d := Apply(s, st), Subject(s, st);
    StepAtDentry(s, st);
    CountOf(s, st);
    if st.New? {
      NoneYet(s, d);
    } else {
      assert RefsFit(s, d);
    }
    forall x | x in s'.dentries
      ensures RefsFit(s', x)
    {
      RefsOf(s, st, x);
      assert x != d ==> RefsFit(s, x);
    }
  }

  lemma StepKeepsUnused(s: State, st: Step)
    requires DentriesInv(s) && TasksInv(s) && UnusedInv(s) && Enabled(s, st)
    ensures UnusedInv(Apply(s, st))
  {
    var s', d, t := Apply(s, st), Subject(s, st), TaskOf(st);
    StepAtDentry(s, st);
    StepOfTask(s, st);
    forall x | x in s'.dentries
      ensures UnusedFits(s', x)
    {
      if x == d {
        UnusedOf(s, st);
      } else {
        assert UnusedFits(s, x);
      }
    }
  }

  lemma UnusedOf(s: State, st: Step)
    requires Enabled(s, st) && DentryFits(s, Subject(s, st)) && UnusedFits(s, Subject(s, st))
    requires TaskFits(s, TaskOf(st))
    ensures UnusedFits(Apply(s, st), Subject(s, st))
  {
    if st.PutFast? {
      assert Apply(s, st).tasks[st.t] == PutWindow(st.d);
    }
  }

  lemma StepKeepsInv(s: State, st: Step)
    requires Inv(s) && Enabled(s, st)
    ensures Inv(Apply(s, st))
  {
    var s', t, d := Apply(s, st), TaskOf(st), Subject(s, st);
    StepAtDentry(s, st);
    StepOfTask(s, st);
    StepFits(s, st);
    DentriesKept(s, s', t, d);
    forall u | u in s'.tasks && s'.tasks[u].d == d
      ensures TaskFits(s', u)
    {
      if Counts(st) {
        CountingKeepsCharge(s, st, u);
      } else if Kills(st) {
        KillKeepsCharge(s, st, u);
      } else {
        ListingKeepsCharge(s, st, u);
      }
    }
    TasksKept(s, s', t, d);
    StepKeepsCount(s, st);
    StepKeepsRefs(s, st);
    StepKeepsUnused(s, st);
  }

  // ---- runs --------------------------------------------------------------------------------------------

  /** `states` is a run: it starts empty and each state follows from the one before by one of `steps`. */
  ghost predicate Run(states: seq<State>, steps: seq<Step>) {
    && |states| == |steps| + 1 && Init(states[0])
    && forall i :: 0 <= i < |steps| ==> Enabled(states[i], steps[i]) && states[i + 1] == Apply(states[i], steps[i])
  }

  lemma {:induction false} RunKeepsInv(states: seq<State>, steps: seq<Step>, n: nat)
    requires Run(states, steps) && n < |states|
    ensures Inv(states[n])
  {
    if n == 0 {
      assert OnLists(states[0]) == {};
    } else {
      RunKeepsInv(states, steps, n - 1);
      StepKeepsInv(states[n - 1], steps[n - 1]);
    }
  }

  /** In every run a dentry is freed at most once, only after it was killed, and a task that is about to free
      one frees it for the first time, off every list. */
  lemma FreedAtMostOnce(states: seq<State>, steps: seq<Step>, n: nat)
    requires Run(states, steps) && n < |states|
    ensures forall d :: d in states[n].dentries ==>
              var e := states[n].dentries[d];
              e.frees <= 1 && (e.frees == 1 ==> e.count < 0 && e.link == Off)
    ensures forall t :: t in states[n].tasks && states[n].tasks[t].Freeing? ==>
              var d := states[n].tasks[t].d;
              d in states[n].dentries && states[n].dentries[d].frees == 0 && states[n].dentries[d].link == Off
  {
    RunKeepsInv(states, steps, n);
  }

  /** No killer and no owner of a shrink list ever holds a dentry that has been freed. */
  lemma NeverTouchedAfterFree(states: seq<State>, steps: seq<Step>, n: nat)
    requires Run(states, steps) && n < |states|
    ensures forall d :: d in states[n].dentries && states[n].dentries[d].link != Off ==>
              states[n].dentries[d].frees == 0
    ensures forall t :: t in states[n].tasks && !states[n].tasks[t].PutWindow? ==>
              states[n].tasks[t].d in states[n].dentries && states[n].dentries[states[n].tasks[t].d].frees == 0
  {
    RunKeepsInv(states, steps, n);
  }

  predicate Settled(s: State) {
    && (forall t :: t in s.tasks ==> s.tasks[t].PutWindow?)
    && (forall d :: d in s.dentries ==> !s.dentries[d].link.ShrinkOf?)
  }

  /** Nothing is leaked: once killers are done and shrink lists empty, the dentries freed are those killed. */
  lemma KilledIsFreed(states: seq<State>, steps: seq<Step>, n: nat)
    requires Run(states, steps) && n < |states| && Settled(states[n])
    ensures forall d :: d in states[n].dentries ==>
              states[n].dentries[d].frees == if states[n].dentries[d].count < 0 then 1 else 0
  {
    RunKeepsInv(states, steps, n);
  }

  /** No D_FLAG_VERIFY ever warns, and the unused counter is the number of dentries on LRU or shrink lists. */
  lemma UnusedIsCounted(states: seq<State>, steps: seq<Step>, n: nat)
    requires Run(states, steps) && n < |states|
    ensures !states[n].warned && states[n].nrUnused == |OnLists(states[n])|
    ensures forall d :: d in states[n].dentries ==>
              (d in OnLists(states[n]) <==> states[n].dentries[d].link != Off)
  {
    RunKeepsInv(states, steps, n);
  }

  /** Nobody but the killer holds a reference to a dentry that is killed: the last one if the killer drops it, or
      none. */
  lemma KillerIsAlone(states: seq<State>, steps: seq<Step>, n: nat)
    requires Run(states, steps) && n < |steps| && Kills(steps[n])
    ensures RefsTo(states[n].refs, steps[n].d) == if steps[n].KillLast? then {steps[n].r} else {}
    ensures RefsTo(states[n + 1].refs, steps[n].d) == {}
  {
    RunKeepsInv(states, steps, n);
    RunKeepsInv(states, steps, n + 1);
    var s, st := states[n], steps[n];
    CountOf(s, st);
    RefsOf(s, st, st.d);
    assert RefsFit(s, st.d) && RefsFit(states[n + 1], st.d);
    StepAtDentry(s, st);
    if st.KillLast? {
      assert RefsTo(s.refs, st.d) - {st.r} == {};
    }
  }

  /** Whoever holds a reference has a dentry that is alive, has not been freed and will not be while it is held. */
  lemma HeldIsAlive(states: seq<State>, steps: seq<Step>, n: nat, r: Ref)
    requires Run(states, steps) && n < |states| && r in states[n].refs
    ensures var s, d := states[n], states[n].refs[r];
            && d in s.dentries && s.dentries[d].count > 0 && s.dentries[d].frees == 0
            && forall t :: t in s.tasks && s.tasks[t].d == d ==> s.tasks[t].PutWindow?
  {
    RunKeepsInv(states, steps, n);
    var s, d := states[n], states[n].refs[r];
    assert r in RefsTo(s.refs, d);
    assert RefsFit(s, d) && DentryFits(s, d);
    forall t | t in s.tasks && s.tasks[t].d == d ensures s.tasks[t].PutWindow? {
      assert TaskFits(s, t);
    }
  }

  /** The count of a live dentry is the number of references held. */
  lemma CountIsHeld(states: seq<State>, steps: seq<Step>, n: nat, d: Id)
    requires Run(states, steps) && n < |states| && d in states[n].dentries && states[n].dentries[d].count >= 0
    ensures states[n].dentries[d].count == |RefsTo(states[n].refs, d)|
  {
    RunKeepsInv(states, steps, n);
    assert RefsFit(states[n], d);
  }

  /** An unused dentry is where it can be reclaimed: on a list, or with a task that is about to put it there, unless the
      owner of a shrink list gave it up. */
  lemma UnusedIsListed(states: seq<State>, steps: seq<Step>, n: nat, d: Id)
    requires Run(states, steps) && n < |states| && d in states[n].dentries && states[n].dentries[d].count == 0
    ensures states[n].dentries[d].link != Off || states[n].dentries[d].skipped ||
            exists t :: t in states[n].tasks && states[n].tasks[t] == PutWindow(d)
  {
    RunKeepsInv(states, steps, n);
    assert UnusedFits(states[n], d);
  }

  lemma {:induction false} FreshRef(refs: set<Ref>) returns (r: Ref)
    ensures r !in refs && forall x :: x in refs ==> x < r
  {
    if refs == {} {
      r := 0;
    } else {
      var x :| x in refs;
      var rest := FreshRef(refs - {x});
      r := if rest <= x then x + 1 else rest;
      assert forall y :: y in refs ==> y == x || y in refs - {x};
    }
  }

  /** No task is stuck: one that has dropped a reference can leave or take it again, and a killer can go on until the
      dentry is freed or left to the owner of a shrink list. */
  lemma NeverStuck(states: seq<State>, steps: seq<Step>, n: nat, t: Tid) returns (st: Step)
    requires Run(states, steps) && n < |states| && t in states[n].tasks
    ensures Enabled(states[n], st) && TaskOf(st) == t && (st.PutSeen? || st.PutReget? || st.KillEnd? || st.Free?)
  {
    RunKeepsInv(states, steps, n);
    var s := states[n];
    assert TaskFits(s, t);
    match s.tasks[t]
    case PutWindow(d) =>
      var r := FreshRef(s.refs.Keys);
      st := if s.dentries[d].count != 0 then PutSeen(t) else PutReget(t, r);
    case Killing(_) => st := KillEnd(t);
    case Freeing(_) => st := Free(t);
  }
}
