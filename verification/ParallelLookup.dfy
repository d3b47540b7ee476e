/** Parallel lookup in the dentry cache: `d_alloc_parallel`, `__d_add`, `__d_lookup_done` and `d_drop` of
    any number of tasks, interleaved at the granularity of their shared accesses.

    A directory carries a 32-bit sequence word, odd while an addition is in progress.  A looked-up name is
    in one of two tables: the in-lookup chains (under a bucket lock) or the main hash (searched without
    locks).  `__d_add` moves a dentry from the first to the second and is in neither for a moment. */
module ParallelLookup {

  type Id = nat
  type Tid = nat
  type Bucket = nat

  /** A parent directory and a name in it, up to `d_same_name`. */
  datatype Key = Key(dir: nat, name: nat)

  /** Which table a dentry is in.  `Moving` is in neither, inside `__d_add`. */
  datatype Place = Nowhere | InLookup | Moving | Hashed

  /** `owner` allocated the dentry; no step reads it. */
  datatype Dentry = Dentry(key: Key, place: Place, owner: Tid)

  const SEQ_MOD: nat := 0x1_0000_0000

  /** Where a task is.  The remembered sequence words are kept unbounded, see `SameWord`. */
  datatype Pc =
    | Retry
    | SeqRead(n: nat)
    | Scanning(n: nat, cand: set<Id>)
    | Missed(n: nat)
    | Locked(n: nat)
    | Checked
    | Waiting(found: Id)
    | Owner
    | AddStarted(n: nat)
    | AddLocked(n: nat)
    | Detached(n: nat)
    | Rehashed(n: nat)
    | AbortLocked

  /** A task looking `key` up, and the dentry it allocated for it. */
  datatype Task = Task(own: Id, key: Key, at: Pc)

  /** `linked` says on which in-lookup chain a dentry is; `seqs` counts the changes of each `i_dir_seq`. */
  datatype State = State(
    bucketOf: Key -> Bucket,
    dentries: map<Id, Dentry>,
    linked: map<Id, Bucket>,
    locks: map<Bucket, Tid>,
    seqs: map<nat, nat>,
    tasks: map<Tid, Task>)

  /** One access by one task. */
  datatype Move =
    | ReadSeq
    | ScanBegin
    | ScanMiss
    | LockBucket
    | SeqMismatch
    | SeqMatch
    | ChainHit(d: Id)
    | Insert
    | Return(d: Id)
    | Again
    | AddStart
    | AddLock
    | AddDetach
    | AddHash
    | AddEnd
    | AbortLock
    | AbortDetach

  datatype Step =
    | Alloc(t: Tid, id: Id, key: Key)
    | By(t: Tid, move: Move)
    | Drop(d: Id)

  function Count(s: State, dir: nat): nat {
    if dir in s.seqs then s.seqs[dir] else 0
  }

  /** The code compares 32-bit words: the remainders of the counts. */
  predicate SameWord(m: nat, n: nat) { m % SEQ_MOD == n % SEQ_MOD }

  predicate IsAt(dentries: map<Id, Dentry>, key: Key, d: Id, place: Place) {
    d in dentries && dentries[d].key == key && dentries[d].place == place
  }

  predicate IsHashed(s: State, key: Key, d: Id) { IsAt(s.dentries, key, d, Hashed) }

  predicate OnChain(s: State, key: Key, d: Id) {
    d in s.linked && s.linked[d] == s.bucketOf(key) && d in s.dentries && s.dentries[d].key == key
  }

  /** Whether the next access of task `t` can be `m`. */
  predicate MayMove(s: State, t: Tid, m: Move) {
    t in s.tasks &&
    var Task(own, key, at) := s.tasks[t];
    match m
    case ReadSeq => at.Retry?
    case ScanBegin => at.SeqRead?
    case ScanMiss => at.Scanning? && forall d :: d in at.cand ==> !IsHashed(s, key, d)
    case LockBucket => at.Missed? && at.n % 2 == 0 && s.bucketOf(key) !in s.locks
    case SeqMismatch => at.Locked? && !SameWord(Count(s, key.dir), at.n)
    case SeqMatch => at.Locked? && SameWord(Count(s, key.dir), at.n)
    case ChainHit(d) => at.Checked? && OnChain(s, key, d)
    case Insert => at.Checked? && forall d :: d in s.linked ==> !OnChain(s, key, d)
    case Return(d) => (at.Scanning? || at == Waiting(d)) && IsHashed(s, key, d)
    case Again => at.Scanning? || at.Waiting? || (at.Missed? && at.n % 2 == 1)
    case AddStart => at.Owner? && Count(s, key.dir) % 2 == 0
    case AddLock => at.AddStarted? && s.bucketOf(key) !in s.locks
    case AddDetach => at.AddLocked?
    case AddHash => at.Detached?
    case AddEnd => at.Rehashed?
    case AbortLock => at.Owner? && s.bucketOf(key) !in s.locks
    case AbortDetach => at.AbortLocked?
  }

  function Goto(s: State, t: Tid, at: Pc): State
    requires t in s.tasks
  {
    s.(tasks := s.tasks[t := s.tasks[t].(at := at)])
  }

  function Done(s: State, t: Tid): State { s.(tasks := s.tasks - {t}) }

  function LockedBy(s: State, key: Key, t: Tid): State { s.(locks := s.locks[s.bucketOf(key) := t]) }

  function Unlocked(s: State, key: Key): State { s.(locks := s.locks - {s.bucketOf(key)}) }

  function Put(s: State, d: Id, place: Place): State
    requires d in s.dentries
  {
    s.(dentries := s.dentries[d := s.dentries[d].(place := place)])
  }

  function SetCount(s: State, dir: nat, n: nat): State { s.(seqs := s.seqs[dir := n]) }

  predicate Owned(s: State, t: Tid) { t in s.tasks && s.tasks[t].own in s.dentries }

  /** The state after access `m` of task `t`. */
  function Moved(s: State, t: Tid, m: Move): State
    requires Owned(s, t) && MayMove(s, t, m)
  {
    var Task(own, key, at) := s.tasks[t];
    match m
    case ReadSeq => Goto(s, t, SeqRead(Count(s, key.dir)))
    case ScanBegin => Goto(s, t, Scanning(at.n, set d | d in s.dentries && IsHashed(s, key, d)))
    case ScanMiss => Goto(s, t, Missed(at.n))
    case LockBucket => Goto(LockedBy(s, key, t), t, Locked(at.n))
    case SeqMismatch => Goto(Unlocked(s, key), t, Retry)
    case SeqMatch => Goto(s, t, Checked)
    case ChainHit(d) => Goto(Unlocked(s, key), t, Waiting(d))
    case Insert => Goto(Put(Unlocked(s, key), own, InLookup), t, Owner).(linked := s.linked[own := s.bucketOf(key)])
    case Return(_) => Done(s, t)
    case Again => Goto(s, t, Retry)
    case AddStart => Goto(SetCount(s, key.dir, Count(s, key.dir) + 1), t, AddStarted(Count(s, key.dir)))
    case AddLock => Goto(LockedBy(s, key, t), t, AddLocked(at.n))
    case AddDetach => Goto(Put(Unlocked(s, key), own, Moving), t, Detached(at.n)).(linked := s.linked - {own})
    case AddHash => Goto(Put(s, own, Hashed), t, Rehashed(at.n))
    case AddEnd => Done(SetCount(s, key.dir, at.n + 2), t)
    case AbortLock => Goto(LockedBy(s, key, t), t, AbortLocked)
    case AbortDetach => Done(Put(Unlocked(s, key), own, Nowhere), t).(linked := s.linked - {own})
  }

  predicate Enabled(s: State, st: Step) {
    match st
    case Alloc(t, id, _) => t !in s.tasks && id !in s.dentries
    case By(t, m) => Owned(s, t) && MayMove(s, t, m)
    case Drop(d) => d in s.dentries && s.dentries[d].place.Hashed?
  }

  function Apply(s: State, st: Step): State
    requires Enabled(s, st)
  {
    match st
    case Alloc(t, id, key) =>
      s.(dentries := s.dentries[id := Dentry(key, Nowhere, t)], tasks := s.tasks[t := Task(id, key, Retry)])
    case By(t, m) => Moved(s, t, m)
    case Drop(d) => Put(s, d, Nowhere)
  }

  predicate Init(s: State) {
    s.dentries == map[] && s.linked == map[] && s.locks == map[] && s.tasks == map[] && s.seqs == map[]
  }

  // ---- invariant -------------------------------------------------------------------------------------

  predicate Listed(at: Pc) { at.Owner? || at.AddStarted? || at.AddLocked? || at.AbortLocked? }
  predicate Adding(at: Pc) { at.AddStarted? || at.AddLocked? || at.Detached? || at.Rehashed? }
  predicate Locking(at: Pc) { at.Locked? || at.Checked? || at.AddLocked? || at.AbortLocked? }
  predicate Reading(at: Pc) { at.SeqRead? || at.Scanning? || at.Missed? || at.Locked? }

  /** The table a task's own dentry is in follows from its program counter. */
  predicate PlaceFits(at: Pc, place: Place) {
    if Listed(at) then place.InLookup?
    else if at.Detached? then place.Moving?
    else if at.Rehashed? then place.Hashed? || place.Nowhere?
    else place.Nowhere?
  }

  /** Every task has its own dentry, and a dentry on its way into the hash has its task. */
  ghost predicate TasksInv(s: State) {
    && (forall t :: t in s.tasks ==> s.tasks[t].own in s.dentries)
    && (forall t :: t in s.tasks ==>
          var d := s.dentries[s.tasks[t].own];
          d.owner == t && d.key == s.tasks[t].key && PlaceFits(s.tasks[t].at, d.place))
    && (forall d :: d in s.dentries && s.dentries[d].place.Moving? ==>
          var t := s.dentries[d].owner;
          t in s.tasks && s.tasks[t].own == d)
  }

  /** The chains hold exactly the dentries flagged in-lookup, each on the chain of its key. */
  ghost predicate ChainsInv(s: State) {
    && (forall d :: d in s.linked ==>
          d in s.dentries && s.dentries[d].place.InLookup? && s.linked[d] == s.bucketOf(s.dentries[d].key))
    && (forall d :: d in s.dentries && s.dentries[d].place.InLookup? ==> d in s.linked)
  }

  ghost predicate LocksInv(s: State) {
    forall t :: t in s.tasks && Locking(s.tasks[t].at) ==>
      var b := s.bucketOf(s.tasks[t].key);
      b in s.locks && s.locks[b] == t
  }

  /** The sequence word is odd while an addition is in progress, so there is one at a time. */
  ghost predicate SeqInv(s: State) {
    && (forall t :: t in s.tasks && Adding(s.tasks[t].at) ==>
          s.tasks[t].at.n % 2 == 0 && Count(s, s.tasks[t].key.dir) == s.tasks[t].at.n + 1)
    && (forall t, u :: t in s.tasks && u in s.tasks && Adding(s.tasks[t].at) && Adding(s.tasks[u].at) ==>
          s.tasks[t].key.dir == s.tasks[u].key.dir ==> t == u)
  }

  /** No addition has begun or ended in the directory since the word was read, and none was in progress. */
  predicate Quiet(count: nat, n: nat) { n % 2 == 0 && count == n }

  /** What a lookup has learnt at each point, as long as its directory is quiet. */
  ghost predicate Learnt(dentries: map<Id, Dentry>, count: nat, key: Key, at: Pc) {
    && (Reading(at) ==> at.n <= count)
    && (at.Scanning? && Quiet(count, at.n) ==> forall d :: IsAt(dentries, key, d, Hashed) ==> d in at.cand)
    && ((at.Missed? || at.Locked?) && Quiet(count, at.n) ==> forall d :: !IsAt(dentries, key, d, Hashed))
    && (at.Locked? ==> at.n % 2 == 0)
    && (at.Checked? ==> forall d :: !IsAt(dentries, key, d, Hashed) && !IsAt(dentries, key, d, Moving))
  }

  ghost predicate WindowInv(s: State) {
    forall t :: t in s.tasks ==> Learnt(s.dentries, Count(s, s.tasks[t].key.dir), s.tasks[t].key, s.tasks[t].at)
  }

  /** At most one dentry per name is in-lookup, hashed, or on its way from the first to the second. */
  ghost predicate Unique(s: State) {
    forall d, e :: d in s.dentries && e in s.dentries ==>
      s.dentries[d].key == s.dentries[e].key && !s.dentries[d].place.Nowhere? && !s.dentries[e].place.Nowhere? ==>
      d == e
  }

  ghost predicate Inv(s: State) {
    TasksInv(s) && ChainsInv(s) && LocksInv(s) && SeqInv(s) && WindowInv(s) && Unique(s)
  }

  /** Fewer than 2^31 additions pass between a lookup's first and second read of the sequence word. */
  predicate ShortWindow(s: State, st: Step) {
    st.By? && st.move.SeqMatch? && st.t in s.tasks && s.tasks[st.t].at.Locked? ==>
      Count(s, s.tasks[st.t].key.dir) < s.tasks[st.t].at.n + SEQ_MOD
  }

  /** What a lookup has learnt survives any change that hashes nothing of its name behind its back. */
  lemma LearntFrame(ds: map<Id, Dentry>, ds': map<Id, Dentry>, c: nat, c': nat, key: Key, at: Pc)
    requires Learnt(ds, c, key, at) && c <= c'
    requires forall d :: IsAt(ds', key, d, Hashed) ==> IsAt(ds, key, d, Hashed) || (c' % 2 == 1 && !at.Checked?)
    requires forall d :: IsAt(ds', key, d, Moving) ==> IsAt(ds, key, d, Moving) || !at.Checked?
    ensures Learnt(ds', c', key, at)
  {
  }

  /** The moves of a lookup up to the decision to insert: they change neither table nor sequence word. */
  predicate Searching(m: Move) {
    m.ReadSeq? || m.ScanBegin? || m.ScanMiss? || m.LockBucket? || m.SeqMismatch? || m.SeqMatch? ||
    m.ChainHit? || m.Return? || m.Again?
  }

  /** The moves of an addition that only take a lock or set the sequence word. */
  predicate Signals(m: Move) { m.AddStart? || m.AddEnd? || m.AddLock? || m.AbortLock? }

  /** `s'` is `s` with task `t` elsewhere in its search, or gone. */
  predicate Retasked(s: State, s': State, t: Tid) {
    && t in s.tasks && s'.dentries == s.dentries && s'.seqs == s.seqs
    && (s'.tasks == s.tasks - {t} ||
        (t in s'.tasks && s'.tasks == s.tasks[t := s.tasks[t].(at := s'.tasks[t].at)] &&
         !Listed(s'.tasks[t].at) && !Adding(s'.tasks[t].at)))
  }

  lemma RetaskKeepsTasks(s: State, s': State, t: Tid)
    requires TasksInv(s) && Retasked(s, s', t) && s.dentries[s.tasks[t].own].place.Nowhere?
    ensures TasksInv(s')
  {
  }

  lemma RetaskKeepsSeq(s: State, s': State, t: Tid)
    requires SeqInv(s) && Retasked(s, s', t)
    ensures SeqInv(s')
  {
  }

  lemma SearchKeepsTasks(s: State, t: Tid, m: Move)
    requires Owned(s, t) && MayMove(s, t, m) && Searching(m)
    requires TasksInv(s)
    ensures TasksInv(Moved(s, t, m))
  {
    RetaskKeepsTasks(s, Moved(s, t, m), t);
  }

  lemma UpdateKeepsTasks(s: State, t: Tid, m: Move)
    requires Owned(s, t) && MayMove(s, t, m) && !Searching(m)
    requires TasksInv(s)
    ensures TasksInv(Moved(s, t, m))
  {
  }

  lemma MoveKeepsChains(s: State, t: Tid, m: Move)
    requires Owned(s, t) && MayMove(s, t, m)
    requires TasksInv(s) && ChainsInv(s)
    ensures ChainsInv(Moved(s, t, m))
  {
  }

  lemma MoveKeepsLocks(s: State, t: Tid, m: Move)
    requires Owned(s, t) && MayMove(s, t, m)
    requires LocksInv(s)
    ensures LocksInv(Moved(s, t, m))
  {
  }

  lemma SearchKeepsSeq(s: State, t: Tid, m: Move)
    requires Owned(s, t) && MayMove(s, t, m) && Searching(m)
    requires SeqInv(s)
    ensures SeqInv(Moved(s, t, m))
  {
    RetaskKeepsSeq(s, Moved(s, t, m), t);
  }

  lemma SignalKeepsSeq(s: State, t: Tid, m: Move)
    requires Owned(s, t) && MayMove(s, t, m) && Signals(m)
    requires SeqInv(s)
    ensures SeqInv(Moved(s, t, m))
  {
  }

  lemma UpdateKeepsSeq(s: State, t: Tid, m: Move)
    requires Owned(s, t) && MayMove(s, t, m) && !Searching(m) && !Signals(m)
    requires SeqInv(s)
    ensures SeqInv(Moved(s, t, m))
  {
  }

  lemma SearchKeepsWindow(s: State, t: Tid, m: Move)
    requires Owned(s, t) && MayMove(s, t, m) && Searching(m) && !m.SeqMatch?
    requires WindowInv(s)
    ensures WindowInv(Moved(s, t, m))
  {
  }

  /** The heart of the protocol: an unchanged even word, read twice, means no match was hashed or is moving. */
  lemma RecheckKeepsWindow(s: State, t: Tid, m: Move)
    requires Owned(s, t) && MayMove(s, t, m) && m.SeqMatch?
    requires TasksInv(s) && SeqInv(s) && WindowInv(s) && ShortWindow(s, By(t, m))
    ensures WindowInv(Moved(s, t, m))
  {
    var key := s.tasks[t].key;
    assert Quiet(Count(s, key.dir), s.tasks[t].at.n);
    assert forall u :: u in s.tasks && s.tasks[u].at.Detached? ==> s.tasks[u].key.dir != key.dir;
  }

  lemma SignalKeepsWindow(s: State, t: Tid, m: Move)
    requires Owned(s, t) && MayMove(s, t, m) && Signals(m)
    requires TasksInv(s) && SeqInv(s) && WindowInv(s)
    ensures WindowInv(Moved(s, t, m))
  {
    var s' := Moved(s, t, m);
    forall u | u in s'.tasks && u != t
      ensures Learnt(s'.dentries, Count(s', s'.tasks[u].key.dir), s'.tasks[u].key, s'.tasks[u].at)
    {
      var key := s.tasks[u].key;
      LearntFrame(s.dentries, s'.dentries, Count(s, key.dir), Count(s', key.dir), key, s.tasks[u].at);
    }
  }

  lemma UpdateKeepsWindow(s: State, t: Tid, m: Move)
    requires Owned(s, t) && MayMove(s, t, m) && !Searching(m) && !Signals(m)
    requires TasksInv(s) && SeqInv(s) && LocksInv(s) && WindowInv(s)
    ensures WindowInv(Moved(s, t, m))
  {
    var s' := Moved(s, t, m);
    forall u | u in s'.tasks && u != t
      ensures Learnt(s'.dentries, Count(s', s'.tasks[u].key.dir), s'.tasks[u].key, s'.tasks[u].at)
    {
      var key := s.tasks[u].key;
      LearntFrame(s.dentries, s'.dentries, Count(s, key.dir), Count(s', key.dir), key, s.tasks[u].at);
    }
  }

  /** An insertion finds its name in no table and between none. */
  lemma InsertKeepsUnique(s: State, t: Tid, m: Move)
    requires Owned(s, t) && MayMove(s, t, m) && m.Insert?
    requires TasksInv(s) && ChainsInv(s) && WindowInv(s) && Unique(s)
    ensures Unique(Moved(s, t, m))
  {
    var key := s.tasks[t].key;
    forall d | d in s.dentries && s.dentries[d].key == key
      ensures s.dentries[d].place.Nowhere?
    {
      assert !IsAt(s.dentries, key, d, Hashed) && !IsAt(s.dentries, key, d, Moving);
      assert d in s.linked ==> !OnChain(s, key, d);
    }
  }

  lemma MoveKeepsUnique(s: State, t: Tid, m: Move)
    requires Owned(s, t) && MayMove(s, t, m) && !m.Insert?
    requires TasksInv(s) && Unique(s)
    ensures Unique(Moved(s, t, m))
  {
  }

  /** Allocation and dropping keep the tables consistent. */
  lemma OtherKeepsTables(s: State, st: Step)
    requires Enabled(s, st) && !st.By?
    requires TasksInv(s) && ChainsInv(s) && LocksInv(s) && Unique(s)
    ensures var s' := Apply(s, st); TasksInv(s') && ChainsInv(s') && LocksInv(s') && Unique(s')
  {
  }

  lemma OtherKeepsSeq(s: State, st: Step)
    requires Enabled(s, st) && !st.By? && SeqInv(s)
    ensures SeqInv(Apply(s, st))
  {
  }

  lemma OtherKeepsWindow(s: State, st: Step)
    requires Enabled(s, st) && !st.By? && TasksInv(s) && WindowInv(s)
    ensures WindowInv(Apply(s, st))
  {
    var s' := Apply(s, st);
    forall u | u in s.tasks
      ensures Learnt(s'.dentries, Count(s, s.tasks[u].key.dir), s.tasks[u].key, s.tasks[u].at)
    {
      var c := Count(s, s.tasks[u].key.dir);
      LearntFrame(s.dentries, s'.dentries, c, c, s.tasks[u].key, s.tasks[u].at);
    }
  }

  /** Every step of every task keeps the invariant, if the sequence word does not wrap within a window. */
  lemma StepKeepsInv(s: State, st: Step)
    requires Inv(s) && Enabled(s, st) && ShortWindow(s, st)
    ensures Inv(Apply(s, st))
  {
    if st.By? {
      var t, m := st.t, st.move;
      MoveKeepsChains(s, t, m);
      MoveKeepsLocks(s, t, m);
      if m.Insert? {
        InsertKeepsUnique(s, t, m);
      } else {
        MoveKeepsUnique(s, t, m);
      }
      if Searching(m) {
        SearchKeepsTasks(s, t, m);
        SearchKeepsSeq(s, t, m);
        if m.SeqMatch? {
          RecheckKeepsWindow(s, t, m);
        } else {
          SearchKeepsWindow(s, t, m);
        }
      } else {
        UpdateKeepsTasks(s, t, m);
        if Signals(m) {
          SignalKeepsSeq(s, t, m);
          SignalKeepsWindow(s, t, m);
        } else {
          UpdateKeepsSeq(s, t, m);
          UpdateKeepsWindow(s, t, m);
        }
      }
    } else {
      OtherKeepsTables(s, st);
      OtherKeepsSeq(s, st);
      OtherKeepsWindow(s, st);
    }
  }

  // ---- runs ------------------------------------------------------------------------------------------

  /** `steps` can be taken one after the other from `s`. */
  ghost predicate Valid(s: State, steps: seq<Step>)
    decreases |steps|, 0
  {
    steps == [] ||
    var before := steps[..|steps| - 1];
    Valid(s, before) && Enabled(Exec(s, before), steps[|steps| - 1])
  }

  ghost function Exec(s: State, steps: seq<Step>): State
    requires Valid(s, steps)
    decreases |steps|, 1
  {
    if steps == [] then s else Apply(Exec(s, steps[..|steps| - 1]), steps[|steps| - 1])
  }

  ghost predicate ShortWindows(s: State, steps: seq<Step>)
    requires Valid(s, steps)
  {
    steps == [] ||
    var before := steps[..|steps| - 1];
    ShortWindows(s, before) && ShortWindow(Exec(s, before), steps[|steps| - 1])
  }

  lemma {:induction false} RunKeepsInv(s: State, steps: seq<Step>)
    requires Init(s) && Valid(s, steps) && ShortWindows(s, steps)
    ensures Inv(Exec(s, steps))
  {
    if steps != [] {
      var before := steps[..|steps| - 1];
      RunKeepsInv(s, before);
      StepKeepsInv(Exec(s, before), steps[|steps| - 1]);
    }
  }

  /** In every interleaving of lookups, additions, aborted lookups and drops, at most one dentry per parent
      and name is in-lookup, hashed, or between the two. */
  lemma AtMostOneLive(s: State, steps: seq<Step>)
    requires Init(s) && Valid(s, steps) && ShortWindows(s, steps)
    ensures Unique(Exec(s, steps))
  {
    RunKeepsInv(s, steps);
  }

  /** The second read accepts exactly when no addition began since the first, if the window is short. */
  lemma RecheckIsExact(s: State, t: Tid)
    requires Inv(s) && t in s.tasks && s.tasks[t].at.Locked?
    requires ShortWindow(s, By(t, SeqMatch))
    ensures MayMove(s, t, SeqMatch) <==> Count(s, s.tasks[t].key.dir) == s.tasks[t].at.n
    ensures MayMove(s, t, SeqMismatch) <==> Count(s, s.tasks[t].key.dir) != s.tasks[t].at.n
  {
    assert Learnt(s.dentries, Count(s, s.tasks[t].key.dir), s.tasks[t].key, s.tasks[t].at);
  }

  // ---- nobody is stuck ---------------------------------------------------------------------------------

  /** A bucket lock is held by a task that is about to give it back. */
  ghost predicate HeldInv(s: State) {
    forall b :: b in s.locks ==>
      var t := s.locks[b];
      t in s.tasks && Locking(s.tasks[t].at) && s.bucketOf(s.tasks[t].key) == b
  }

  ghost predicate AdderIn(s: State, dir: nat) {
    exists t :: t in s.tasks && Adding(s.tasks[t].at) && s.tasks[t].key.dir == dir
  }

  /** An odd word is that of an addition in progress. */
  ghost predicate OddInv(s: State) { forall dir :: dir in s.seqs && s.seqs[dir] % 2 == 1 ==> AdderIn(s, dir) }

  /** A lookup waits for a dentry of its own name. */
  ghost predicate WaitInv(s: State) {
    forall t :: t in s.tasks && s.tasks[t].at.Waiting? ==>
      var d := s.tasks[t].at.found;
      d in s.dentries && s.dentries[d].key == s.tasks[t].key
  }

  /** What holds in every run, with short windows or not. */
  ghost predicate Live(s: State) { TasksInv(s) && LocksInv(s) && SeqInv(s) && HeldInv(s) && OddInv(s) && WaitInv(s) }

  lemma MoveKeepsHeld(s: State, t: Tid, m: Move)
    requires Owned(s, t) && MayMove(s, t, m) && LocksInv(s) && HeldInv(s)
    ensures HeldInv(Moved(s, t, m))
  {
  }

  /** An adder stays one until it has made the word even again. */
  lemma MoveKeepsOdd(s: State, t: Tid, m: Move)
    requires Owned(s, t) && MayMove(s, t, m) && SeqInv(s) && OddInv(s)
    ensures OddInv(Moved(s, t, m))
  {
    var s' := Moved(s, t, m);
    forall dir | dir in s'.seqs && s'.seqs[dir] % 2 == 1 ensures AdderIn(s', dir) {
      if m.AddStart? && dir == s.tasks[t].key.dir {
        assert Adding(s'.tasks[t].at);
      } else {
        var u :| u in s.tasks && Adding(s.tasks[u].at) && s.tasks[u].key.dir == dir;
        assert u in s'.tasks && Adding(s'.tasks[u].at);
      }
    }
  }

  lemma MoveKeepsWait(s: State, t: Tid, m: Move)
    requires Owned(s, t) && MayMove(s, t, m) && WaitInv(s)
    ensures WaitInv(Moved(s, t, m))
  {
  }

  lemma OtherKeepsLive(s: State, st: Step)
    requires Enabled(s, st) && !st.By? && TasksInv(s) && HeldInv(s) && OddInv(s) && WaitInv(s)
    ensures var s' := Apply(s, st); HeldInv(s') && OddInv(s') && WaitInv(s')
  {
    var s' := Apply(s, st);
    forall dir | dir in s'.seqs && s'.seqs[dir] % 2 == 1 ensures AdderIn(s', dir) {
      var u :| u in s.tasks && Adding(s.tasks[u].at) && s.tasks[u].key.dir == dir;
      assert u in s'.tasks && Adding(s'.tasks[u].at);
    }
  }

  lemma OtherKeepsTasks(s: State, st: Step)
    requires Enabled(s, st) && !st.By? && TasksInv(s) && LocksInv(s)
    ensures TasksInv(Apply(s, st)) && LocksInv(Apply(s, st))
  {
  }

  lemma StepKeepsLive(s: State, st: Step)
    requires Live(s) && Enabled(s, st)
    ensures Live(Apply(s, st))
  {
    if st.By? {
      var t, m := st.t, st.move;
      MoveKeepsLocks(s, t, m);
      MoveKeepsHeld(s, t, m);
      MoveKeepsOdd(s, t, m);
      MoveKeepsWait(s, t, m);
      if Searching(m) {
        SearchKeepsTasks(s, t, m);
        SearchKeepsSeq(s, t, m);
      } else {
        UpdateKeepsTasks(s, t, m);
        if Signals(m) {
          SignalKeepsSeq(s, t, m);
        } else {
          UpdateKeepsSeq(s, t, m);
        }
      }
    } else {
      OtherKeepsTasks(s, st);
      OtherKeepsSeq(s, st);
      OtherKeepsLive(s, st);
    }
  }

  lemma {:induction false} RunKeepsLive(s: State, steps: seq<Step>)
    requires Init(s) && Valid(s, steps)
    ensures Live(Exec(s, steps))
  {
    if steps != [] {
      var before := steps[..|steps| - 1];
      RunKeepsLive(s, before);
      StepKeepsLive(Exec(s, before), steps[|steps| - 1]);
    }
  }

  /** A task that holds a bucket lock can move. */
  lemma LockerMoves(s: State, t: Tid) returns (m: Move)
    requires t in s.tasks && Locking(s.tasks[t].at)
    ensures MayMove(s, t, m) && !m.Again?
  {
    var key, at := s.tasks[t].key, s.tasks[t].at;
    if at.Locked? {
      m := if SameWord(Count(s, key.dir), at.n) then SeqMatch else SeqMismatch;
    } else if at.Checked? {
      if d :| d in s.linked && OnChain(s, key, d) {
        m := ChainHit(d);
      } else {
        m := Insert;
      }
    } else {
      m := if at.AddLocked? then AddDetach else AbortDetach;
    }
  }

  /** The holder of a bucket lock that a task waits for can move. */
  lemma HolderMoves(s: State, b: Bucket) returns (u: Tid, m: Move)
    requires Live(s) && b in s.locks
    ensures Owned(s, u) && MayMove(s, u, m) && !m.Again?
  {
    u := s.locks[b];
    m := LockerMoves(s, u);
  }

  /** An addition in progress can go on, or the holder of its bucket lock can. */
  lemma AdderMoves(s: State, t: Tid) returns (u: Tid, m: Move)
    requires Live(s) && t in s.tasks && Adding(s.tasks[t].at)
    ensures Owned(s, u) && MayMove(s, u, m) && !m.Again?
  {
    var at, b := s.tasks[t].at, s.bucketOf(s.tasks[t].key);
    if at.AddStarted? && b in s.locks {
      u, m := HolderMoves(s, b);
    } else {
      u := t;
      m := if at.AddStarted? then AddLock else if at.AddLocked? then AddDetach
           else if at.Detached? then AddHash else AddEnd;
    }
  }

  lemma OwnerMoves(s: State, t: Tid) returns (u: Tid, m: Move)
    requires Live(s) && t in s.tasks && s.tasks[t].at.Owner?
    ensures Owned(s, u) && MayMove(s, u, m) && !m.Again?
  {
    var dir := s.tasks[t].key.dir;
    if Count(s, dir) % 2 == 0 {
      u, m := t, AddStart;
    } else {
      assert AdderIn(s, dir);
      var v :| v in s.tasks && Adding(s.tasks[v].at) && s.tasks[v].key.dir == dir;
      u, m := AdderMoves(s, v);
    }
  }

  lemma SearcherMoves(s: State, t: Tid) returns (u: Tid, m: Move)
    requires Live(s) && t in s.tasks
    requires var at := s.tasks[t].at; at.Retry? || at.SeqRead? || at.Scanning? || at.Missed? || at.Waiting?
    ensures Owned(s, u) && MayMove(s, u, m)
    ensures m.Again? ==> u == t && (s.tasks[t].at.Waiting? || (s.tasks[t].at.Missed? && s.tasks[t].at.n % 2 == 1))
  {
    var key, at := s.tasks[t].key, s.tasks[t].at;
    u, m := t, Again;
    if at.Retry? {
      m := ReadSeq;
    } else if at.SeqRead? {
      m := ScanBegin;
    } else if at.Scanning? {
      if d :| d in at.cand && IsHashed(s, key, d) {
        m := Return(d);
      } else {
        m := ScanMiss;
      }
    } else if at.Missed? && at.n % 2 == 0 {
      if s.bucketOf(key) in s.locks {
        u, m := HolderMoves(s, s.bucketOf(key));
      } else {
        m := LockBucket;
      }
    }
  }

  /** In every run, whatever a task waits for, it or the one it waits for can go on; and it only starts over if it has
      waited for another lookup or read the word during an addition. */
  lemma NeverStuck(s: State, steps: seq<Step>, t: Tid) returns (u: Tid, m: Move)
    requires Init(s) && Valid(s, steps) && t in Exec(s, steps).tasks
    ensures var x := Exec(s, steps);
            && Owned(x, u) && MayMove(x, u, m)
            && (m.Again? ==> u == t && (x.tasks[t].at.Waiting? || (x.tasks[t].at.Missed? && x.tasks[t].at.n % 2 == 1)))
  {
    RunKeepsLive(s, steps);
    var x := Exec(s, steps);
    var at := x.tasks[t].at;
    if Adding(at) {
      u, m := AdderMoves(x, t);
    } else if at.Owner? {
      u, m := OwnerMoves(x, t);
    } else if Locking(at) {
      u := t;
      m := LockerMoves(x, t);
    } else {
      u, m := SearcherMoves(x, t);
    }
  }

  /** What a lookup returns or waits for has its name; what it returns is hashed, and the only live dentry of the
      name. */
  lemma FoundIsRight(s: State, steps: seq<Step>, t: Tid, d: Id)
    requires Init(s) && Valid(s, steps) && ShortWindows(s, steps) && t in Exec(s, steps).tasks
    ensures var x := Exec(s, steps);
            && (x.tasks[t].at == Waiting(d) ==> d in x.dentries && x.dentries[d].key == x.tasks[t].key)
            && (Enabled(x, By(t, Return(d))) ==>
                  && IsAt(x.dentries, x.tasks[t].key, d, Hashed)
                  && forall e :: e in x.dentries && x.dentries[e].key == x.tasks[t].key && e != d ==>
                       x.dentries[e].place.Nowhere?)
  {
    RunKeepsLive(s, steps);
    RunKeepsInv(s, steps);
  }

  // ---- the window must be short ------------------------------------------------------------------------

  ghost predicate Reach(s0: State, s: State) {
    exists steps :: Valid(s0, steps) && Exec(s0, steps) == s
  }

  lemma ReachStep(s0: State, s: State, st: Step)
    requires Reach(s0, s) && Enabled(s, st)
    ensures Reach(s0, Apply(s, st))
  {
    var steps :| Valid(s0, steps) && Exec(s0, steps) == s;
    var longer := steps + [st];
    assert longer[..|longer| - 1] == steps;
    assert Valid(s0, longer) && Exec(s0, longer) == Apply(s, st);
  }

  /** A lookup of an absent name misses. */
  lemma MissAbsent(s0: State, s: State, t: Tid) returns (s': State)
    requires Reach(s0, s) && Owned(s, t) && s.tasks[t].at.SeqRead?
    requires forall d :: !IsHashed(s, s.tasks[t].key, d)
    ensures Reach(s0, s') && s' == Goto(s, t, Missed(s.tasks[t].at.n))
  {
    ReachStep(s0, s, By(t, ScanBegin));
    var scanning := Apply(s, By(t, ScanBegin));
    assert scanning.tasks[t].at.cand == {};
    ReachStep(s0, scanning, By(t, ScanMiss));
    s' := Apply(scanning, By(t, ScanMiss));
  }

  lemma LookUp(s0: State, s: State, t: Tid, id: Id, key: Key) returns (s': State)
    requires Reach(s0, s) && t !in s.tasks && id !in s.dentries
    requires forall d :: !IsHashed(s, key, d)
    ensures Reach(s0, s')
    ensures s' == s.(dentries := s.dentries[id := Dentry(key, Nowhere, t)],
                     tasks := s.tasks[t := Task(id, key, Missed(Count(s, key.dir)))])
  {
    ReachStep(s0, s, Alloc(t, id, key));
    s' := Apply(s, Alloc(t, id, key));
    ReachStep(s0, s', By(t, ReadSeq));
    s' := Apply(s', By(t, ReadSeq));
    forall d ensures !IsHashed(s', key, d) { assert !IsHashed(s, key, d); }
    s' := MissAbsent(s0, s', t);
  }

  /** A missed lookup whose word still reads the same inserts its dentry. */
  lemma InsertMissed(s0: State, s: State, t: Tid) returns (s': State)
    requires Reach(s0, s) && Owned(s, t) && s.tasks[t].at.Missed? && s.locks == map[] && s.linked == map[]
    requires s.tasks[t].at.n % 2 == 0 && SameWord(Count(s, s.tasks[t].key.dir), s.tasks[t].at.n)
    ensures Reach(s0, s')
    ensures var Task(own, key, _) := s.tasks[t];
            s' == s.(dentries := s.dentries[own := s.dentries[own].(place := InLookup)],
                     linked := map[own := s.bucketOf(key)], tasks := s.tasks[t := Task(own, key, Owner)])
  {
    ReachStep(s0, s, By(t, LockBucket));
    s' := Apply(s, By(t, LockBucket));
    ReachStep(s0, s', By(t, SeqMatch));
    s' := Apply(s', By(t, SeqMatch));
    ReachStep(s0, s', By(t, Insert));
    s' := Apply(s', By(t, Insert));
  }

  /** An inserted dentry leaves its chain, the word being odd. */
  lemma DetachInserted(s0: State, s: State, t: Tid) returns (s': State)
    requires Reach(s0, s) && Owned(s, t) && s.tasks[t].at.Owner? && s.locks == map[]
    requires s.linked.Keys == {s.tasks[t].own} && Count(s, s.tasks[t].key.dir) % 2 == 0
    ensures Reach(s0, s')
    ensures var Task(own, key, _) := s.tasks[t];
            var n := Count(s, key.dir);
            s' == s.(dentries := s.dentries[own := s.dentries[own].(place := Moving)], linked := map[],
                     seqs := s.seqs[key.dir := n + 1], tasks := s.tasks[t := Task(own, key, Detached(n))])
  {
    ReachStep(s0, s, By(t, AddStart));
    s' := Apply(s, By(t, AddStart));
    ReachStep(s0, s', By(t, AddLock));
    s' := Apply(s', By(t, AddLock));
    ReachStep(s0, s', By(t, AddDetach));
    s' := Apply(s', By(t, AddDetach));
  }

  /** A detached dentry is hashed and the word made even again. */
  lemma HashDetached(s0: State, s: State, t: Tid) returns (s': State)
    requires Reach(s0, s) && Owned(s, t) && s.tasks[t].at.Detached?
    ensures Reach(s0, s')
    ensures var Task(own, key, at) := s.tasks[t];
            s' == s.(dentries := s.dentries[own := s.dentries[own].(place := Hashed)],
                     seqs := s.seqs[key.dir := at.n + 2], tasks := s.tasks - {t})
  {
    ReachStep(s0, s, By(t, AddHash));
    s' := Apply(s, By(t, AddHash));
    ReachStep(s0, s', By(t, AddEnd));
    s' := Apply(s', By(t, AddEnd));
  }

  const START: State := State(_ => 0, map[], map[], map[], map[], map[])

  /** Task 1 has missed name 0 at word 0 and stalls; task 2 has added name 0; `k` times since then task 3 has
      added name 1 and it was dropped. */
  ghost predicate Stalled(s: State, k: nat) {
    && s.locks == map[] && s.linked == map[] && Count(s, 0) == 2 + 2 * k
    && s.tasks == map[1 := Task(1, Key(0, 0), Missed(0))]
    && 1 in s.dentries && s.dentries[1] == Dentry(Key(0, 0), Nowhere, 1)
    && 2 in s.dentries && s.dentries[2] == Dentry(Key(0, 0), Hashed, 2)
    && forall d :: d in s.dentries ==> 1 <= d <= 2 + k && (d > 2 ==> s.dentries[d].place.Nowhere?)
  }

  lemma InsertAbsent(s0: State, s: State, t: Tid, id: Id, key: Key) returns (s': State)
    requires Reach(s0, s) && t !in s.tasks && id !in s.dentries && s.locks == map[] && s.linked == map[]
    requires Count(s, key.dir) % 2 == 0 && forall d :: !IsHashed(s, key, d)
    ensures Reach(s0, s') && s'.locks == map[] && s'.linked == map[id := s.bucketOf(key)]
    ensures s'.tasks == s.tasks[t := Task(id, key, Owner)]
    ensures s'.dentries == s.dentries[id := Dentry(key, InLookup, t)]
    ensures s'.seqs == s.seqs && s'.bucketOf == s.bucketOf
  {
    s' := LookUp(s0, s, t, id, key);
    s' := InsertMissed(s0, s', t);
  }

  lemma AddInserted(s0: State, s: State, t: Tid) returns (s': State)
    requires Reach(s0, s) && Owned(s, t) && s.tasks[t].at.Owner? && s.locks == map[]
    requires s.linked.Keys == {s.tasks[t].own} && Count(s, s.tasks[t].key.dir) % 2 == 0
    ensures Reach(s0, s')
    ensures var Task(own, key, _) := s.tasks[t];
            s' == s.(dentries := s.dentries[own := s.dentries[own].(place := Hashed)], linked := map[],
                     seqs := s.seqs[key.dir := Count(s, key.dir) + 2], tasks := s.tasks - {t})
  {
    s' := DetachInserted(s0, s, t);
    s' := HashDetached(s0, s', t);
  }

  /** An absent name is looked up and added, start to finish. */
  lemma AddAbsent(s0: State, s: State, t: Tid, id: Id, key: Key) returns (s': State)
    requires Reach(s0, s) && t !in s.tasks && id !in s.dentries && s.locks == map[] && s.linked == map[]
    requires Count(s, key.dir) % 2 == 0 && forall d :: !IsHashed(s, key, d)
    ensures Reach(s0, s') && s'.locks == map[] && s'.linked == map[] && s'.tasks == s.tasks
    ensures s'.dentries == s.dentries[id := Dentry(key, Hashed, t)]
    ensures s'.seqs == s.seqs[key.dir := Count(s, key.dir) + 2] && s'.bucketOf == s.bucketOf
  {
    s' := InsertAbsent(s0, s, t, id, key);
    assert s'.linked.Keys == {id} && Count(s', key.dir) == Count(s, key.dir);
    s' := AddInserted(s0, s', t);
    assert s'.tasks == s.tasks;
  }

  lemma StallBegins() returns (s: State)
    ensures Reach(START, s) && Stalled(s, 0)
  {
    assert Valid(START, []) && Exec(START, []) == START;
    s := LookUp(START, START, 1, 1, Key(0, 0));
    s := AddAbsent(START, s, 2, 2, Key(0, 0));
  }

  lemma StallGoesOn(p: State, k: nat) returns (s: State)
    requires Reach(START, p) && Stalled(p, k)
    ensures Reach(START, s) && Stalled(s, k + 1)
  {
    var id := 3 + k;
    var added := AddAbsent(START, p, 3, id, Key(0, 1));
    ReachStep(START, added, Drop(id));
    s := Apply(added, Drop(id));
  }

  lemma {:induction false} StallFor(k: nat) returns (s: State)
    ensures Reach(START, s) && Stalled(s, k)
  {
    if k == 0 {
      s := StallBegins();
    } else {
      s := StallFor(k - 1);
      s := StallGoesOn(s, k - 1);
    }
  }

  /** Without the bound the promise fails: a lookup that sleeps through 2^31 additions reads the same word
      again and inserts a name that is already hashed. */
  lemma WrappedWordAdmitsTwo() returns (s: State)
    ensures Init(START) && Reach(START, s) && !Unique(s)
  {
    s := StallFor(0x7fff_ffff);
    s := InsertMissed(START, s, 1);
    assert s.dentries[1].place.InLookup? && s.dentries[2].place.Hashed?;
  }
}
