/** Slot accounting of an AIO context: how `io_setup` sizes a context, and how free completion slots move
    between the global counter, the per-CPU counters, requests in flight and completed events. */
module AioSlots {
  import opened Arith
  import opened Wrappers

  const U32: nat := 0x1_0000_0000
  const EVENT_BYTES: nat := 32   // struct io_event
  const HEADER_BYTES: nat := 32  // struct aio_ring

  // ---- sizing (ioctx_alloc, aio_setup_ring) ------------------------------------------------------------------

  datatype Setup = Ready(nrEvents: nat, batch: nat, pages: nat) | Einval | Eagain

  function Max(a: nat, b: nat): nat { if a < b then b else a }

  function Div(a: nat, b: nat): (q: nat)
    requires b > 0
    ensures b * q <= a < b * q + b
  {
    a / b
  }

  function CeilDiv(a: nat, b: nat): nat
    requires b > 0
  {
    Div(a + b - 1, b)
  }

  lemma CeilDivBounds(a: nat, b: nat)
    requires b > 0
    ensures a <= b * CeilDiv(a, b) < a + b
  {
    var q := Div(a + b - 1, b);
  }

  function RingPages(wanted: nat, pageSize: nat): nat
    requires pageSize > 0
  {
    CeilDiv(HEADER_BYTES + EVENT_BYTES * (wanted + 2), pageSize)
  }

  /** The ring has room for what was asked of it plus two, and is less than a page larger. */
  function RingEvents(wanted: nat, pageSize: nat): (n: nat)
    requires pageSize > 0
    ensures wanted + 2 <= n <= wanted + 2 + pageSize / EVENT_BYTES
  {
    CeilDivBounds(HEADER_BYTES + EVENT_BYTES * (wanted + 2), pageSize);
    (pageSize * RingPages(wanted, pageSize) - HEADER_BYTES) / EVENT_BYTES
  }

  /** The request, raised to what the per-CPU counters need and doubled, in 32 bits. */
  function Wanted(nr: nat, cpus: nat): nat { Max(nr, cpus * 4 % U32) * 2 % U32 }

  lemma WantedWraps(nr: nat, cpus: nat)
    requires nr < U32 && cpus < U32 / 8
    ensures Wanted(nr, cpus) == if nr < U32 / 2 then Max(nr, cpus * 4) * 2 else nr * 2 - U32
  {
  }

  /** What io_setup(nr) makes on a machine with `cpus` processors; all counts are 32-bit words. */
  function IoSetup(nr: nat, cpus: nat, aioMaxNr: nat, pageSize: nat): Setup
    requires 0 < nr < U32 && 0 < cpus && 0 < pageSize
  {
    var wanted := Wanted(nr, cpus);
    if wanted > 0x1000_0000 / EVENT_BYTES then Einval
    else if wanted == 0 || nr > aioMaxNr then Eagain
    else
      var nrEvents := RingEvents(wanted, pageSize);
      Ready(nrEvents, Max(1, Div(nrEvents - 1, cpus * 4)), RingPages(wanted, pageSize))
  }

  /** A context is made exactly if the doubled request is not zero and not too large, and the request is within the
      limit on all of them. */
  lemma ReadyIff(nr: nat, cpus: nat, aioMaxNr: nat, pageSize: nat)
    requires 0 < nr < U32 && 0 < cpus < U32 / 8 && 0 < pageSize
    ensures var wanted := (if nr < U32 / 2 then Max(nr, cpus * 4) * 2 else nr * 2 - U32);
            && (IoSetup(nr, cpus, aioMaxNr, pageSize).Ready? <==>
                0 < wanted <= 0x1000_0000 / 32 && nr <= aioMaxNr)
            && (IoSetup(nr, cpus, aioMaxNr, pageSize).Einval? <==> wanted > 0x1000_0000 / 32)
  {
    WantedWraps(nr, cpus);
  }

  /** Ceiling on pages so that a wrapped request cannot be rounded back up to its size. */
  const MAX_PAGE: nat := 0x1_0000

  /** The header of io_setup promises at least `nr` slots.  A context that is made has them exactly if doubling
      the request did not wrap: the one check against large requests comes after the multiplication. */
  lemma CapacityIffNoWrap(nr: nat, cpus: nat, aioMaxNr: nat, pageSize: nat)
    requires 0 < nr < U32 && 0 < cpus < U32 / 8 && 0 < pageSize <= MAX_PAGE
    requires IoSetup(nr, cpus, aioMaxNr, pageSize).Ready?
    ensures IoSetup(nr, cpus, aioMaxNr, pageSize).nrEvents - 1 >= nr <==> nr < U32 / 2
  {
    WantedWraps(nr, cpus);
    var n := RingEvents(Wanted(nr, cpus), pageSize);
    assert pageSize / EVENT_BYTES <= 0x800;
  }

  /** The wrap is reachable: half of 2^32 and one requests give a context of 127 slots with 4 KiB pages. */
  lemma WrappedSetup()
    ensures IoSetup(0x8000_0001, 1, U32, 4096) == Ready(127, 31, 1)
  {
  }

  /** Sizes of a context whose request did not wrap. */
  predicate Sized(nr: nat, cpus: nat, nrEvents: nat, batch: nat) {
    && 0 < nr && 0 < cpus && nrEvents - 1 >= 2 * Max(nr, 4 * cpus) + 1
    && batch == Div(nrEvents - 1, cpus * 4)
  }

  lemma SetupIsSized(nr: nat, cpus: nat, aioMaxNr: nat, pageSize: nat)
    requires 0 < nr < U32 / 2 && 0 < cpus < U32 / 8 && 0 < pageSize
    requires IoSetup(nr, cpus, aioMaxNr, pageSize).Ready?
    ensures var c := IoSetup(nr, cpus, aioMaxNr, pageSize); Sized(nr, cpus, c.nrEvents, c.batch)
  {
    WantedWraps(nr, cpus);
    var n := RingEvents(Wanted(nr, cpus), pageSize);
    var c := IoSetup(nr, cpus, aioMaxNr, pageSize);
    assert Div(c.nrEvents - 1, cpus * 4) >= 1;
  }

  // ---- accounting ----------------------------------------------------------------------------------------------

  /** `free` is `reqs_available`, `parked` the per-CPU counters.  `published` and `consumed` count all events
      ever put into and taken out of the ring; the code keeps only their remainders, `tail` and `head`. */
  datatype Slots = Slots(
    nrEvents: nat, batch: nat, free: nat, parked: seq<nat>, inFlight: nat, completed: nat,
    published: nat, consumed: nat)

  function Sum(l: seq<nat>): nat { if l == [] then 0 else l[0] + Sum(l[1..]) }

  lemma {:induction false} SumUpdate(l: seq<nat>, i: nat, v: nat)
    requires i < |l|
    ensures Sum(l[i := v]) == Sum(l) - l[i] + v
  {
    if i == 0 {
      assert l[i := v][1..] == l[1..];
    } else {
      assert l[i := v][1..] == l[1..][i - 1 := v];
      SumUpdate(l[1..], i - 1, v);
    }
  }

  lemma {:induction false} SumBound(l: seq<nat>, most: nat)
    requires forall i :: 0 <= i < |l| ==> l[i] <= most
    ensures Sum(l) <= |l| * most
  {
    if l != [] {
      SumBound(l[1..], most);
      assert |l| * most == most + |l[1..]| * most;
    }
  }

  /** What put_reqs_available leaves on a CPU that comes to hold `n` slots: it sheds batches down to one. */
  function Kept(n: nat, batch: nat): (k: nat)
    requires batch > 0
    ensures k <= n && k < 2 * batch && (n < 2 * batch ==> k == n) && (n >= 2 * batch ==> k >= batch)
  {
    if n < 2 * batch then n else Kept(n - batch, batch)
  }

  /** It sheds whole batches. */
  lemma {:induction false} KeptSheds(n: nat, batch: nat) returns (m: nat)
    requires batch > 0
    ensures n == Kept(n, batch) + m * batch
  {
    if n < 2 * batch {
      m := 0;
    } else {
      m := KeptSheds(n - batch, batch);
      m := m + 1;
    }
  }

  function Put(s: Slots, c: nat, nr: nat): Slots
    requires c < |s.parked| && s.batch > 0
  {
    var n := s.parked[c] + nr;
    var k := Kept(n, s.batch);
    s.(parked := s.parked[c := k], free := s.free + (n - k))
  }

  /** Whether get_reqs_available succeeds on CPU `c`. */
  predicate CanGet(s: Slots, c: nat)
    requires c < |s.parked|
  {
    s.parked[c] > 0 || s.free >= s.batch
  }

  function Got(s: Slots, c: nat): Slots
    requires c < |s.parked| && CanGet(s, c) && s.batch > 0
  {
    if s.parked[c] > 0 then s.(parked := s.parked[c := s.parked[c] - 1])
    else s.(parked := s.parked[c := s.batch - 1], free := s.free - s.batch)
  }

  /** Events between a head and a tail that are both inside the ring. */
  function Distance(head: nat, tail: nat, nrEvents: nat): nat
    requires head < nrEvents && tail < nrEvents
  {
    if head <= tail then tail - head else nrEvents - (head - tail)
  }

  /** Completed events no longer in the ring, going by whatever head is stored there. */
  function Reclaimed(s: Slots, head: nat, tail: nat): (n: nat)
    requires 0 < s.nrEvents && tail < s.nrEvents
    ensures n <= s.completed
  {
    var inRing := Distance(head % s.nrEvents, tail, s.nrEvents);
    if inRing < s.completed then s.completed - inRing else 0
  }

  function Refilled(s: Slots, c: nat, head: nat, tail: nat): Slots
    requires 0 < s.nrEvents && tail < s.nrEvents && c < |s.parked| && s.batch > 0
  {
    var n := Reclaimed(s, head, tail);
    if n == 0 then s else Put(s.(completed := s.completed - n), c, n)
  }

  function Tail(s: Slots): nat requires s.nrEvents > 0 { s.published % s.nrEvents }

  /** A step on CPU `c`; `head` is whatever value the code finds in the ring. */
  datatype Step =
    | GetReq(c: nat)
    | FailReq(c: nat)
    | Complete(c: nat, head: nat)
    | Refill(c: nat, head: nat)
    | Read(k: nat)

  predicate Enabled(s: Slots, st: Step) {
    match st
    case GetReq(c) => c < |s.parked| && CanGet(s, c)
    case FailReq(c) => c < |s.parked| && s.inFlight > 0
    case Complete(c, _) => c < |s.parked| && s.inFlight > 0
    case Refill(c, _) => c < |s.parked| && s.completed > 0
    case Read(k) => s.consumed + k <= s.published
  }

  predicate Sane(s: Slots) { s.nrEvents > 1 && s.batch > 0 }

  function Apply(s: Slots, st: Step): Slots
    requires Sane(s) && Enabled(s, st)
  {
    match st
    case GetReq(c) => Got(s, c).(inFlight := s.inFlight + 1)
    case FailReq(c) => Put(s.(inFlight := s.inFlight - 1), c, 1)
    case Complete(c, head) =>
      var done := s.(inFlight := s.inFlight - 1, published := s.published + 1, completed := s.completed + 1);
      if done.completed > 1 then Refilled(done, c, head, Tail(done)) else done
    case Refill(c, head) => Refilled(s, c, head, Tail(s))
    case Read(k) => s.(consumed := s.consumed + k)
  }

  predicate Init(s: Slots) {
    && Sane(s) && s.free == s.nrEvents - 1 && s.inFlight == 0 && s.completed == 0 && s.published == s.consumed == 0
    && |s.parked| > 0 && forall i :: 0 <= i < |s.parked| ==> s.parked[i] == 0
  }

  /** Every slot but one is free, parked, in flight, or holds an event not yet reclaimed. */
  ghost predicate Conserved(s: Slots) {
    && Sane(s)
    && s.free + Sum(s.parked) + s.inFlight + s.completed == s.nrEvents - 1
    && forall i :: 0 <= i < |s.parked| ==> s.parked[i] < 2 * s.batch
  }

  lemma PutConserves(s: Slots, c: nat, nr: nat)
    requires c < |s.parked| && s.batch > 0
    ensures var p := Put(s, c, nr); p.free + Sum(p.parked) == s.free + Sum(s.parked) + nr
  {
    SumUpdate(s.parked, c, Kept(s.parked[c] + nr, s.batch));
  }

  lemma RefillConserves(s: Slots, c: nat, head: nat, tail: nat)
    requires Conserved(s) && tail < s.nrEvents && c < |s.parked|
    ensures Conserved(Refilled(s, c, head, tail))
  {
    var n := Reclaimed(s, head, tail);
    PutConserves(s.(completed := s.completed - n), c, n);
  }

  lemma GetConserves(s: Slots, c: nat)
    requires Conserved(s) && c < |s.parked| && CanGet(s, c)
    ensures Conserved(Got(s, c).(inFlight := s.inFlight + 1))
  {
    SumUpdate(s.parked, c, Got(s, c).parked[c]);
  }

  lemma FailConserves(s: Slots, c: nat)
    requires Conserved(s) && c < |s.parked| && s.inFlight > 0
    ensures Conserved(Put(s.(inFlight := s.inFlight - 1), c, 1))
  {
    PutConserves(s.(inFlight := s.inFlight - 1), c, 1);
  }

  /** Conservation holds whatever head userland stored. */
  lemma StepConserves(s: Slots, st: Step)
    requires Conserved(s) && Enabled(s, st)
    ensures Conserved(Apply(s, st))
  {
    match st
    case GetReq(c) =>
      GetConserves(s, c);
    case FailReq(c) =>
      FailConserves(s, c);
    case Complete(c, head) =>
      var done := s.(inFlight := s.inFlight - 1, published := s.published + 1, completed := s.completed + 1);
      RefillConserves(done, c, head, Tail(done));
    case Refill(c, head) =>
      RefillConserves(s, c, head, Tail(s));
    case Read(_) =>
  }

  // ---- a well-behaved head -------------------------------------------------------------------------------------

  /** Events not yet read are among those not yet reclaimed. */
  ghost predicate Unoverrun(s: Slots) {
    s.consumed <= s.published <= s.consumed + s.completed
  }

  /** The distance in the ring is the number of events between two positions less than a lap apart. */
  lemma DistanceIsCount(r: nat, p: nat, n: nat)
    requires 0 < n && r <= p < r + n
    ensures Distance(r % n, p % n, n) == p - r
  {
    ModAdd(r, p - r, n);
  }

  lemma HonestRefillKeeps(s: Slots, c: nat, head: nat, r: nat)
    requires Sane(s) && Unoverrun(s) && c < |s.parked|
    requires s.published < r + s.nrEvents && r <= s.consumed && head % s.nrEvents == r % s.nrEvents
    ensures var f := Refilled(s, c, head, Tail(s));
            && f.published == s.published && f.consumed == s.consumed && f.inFlight == s.inFlight
            && f.completed == if s.published - r < s.completed then s.published - r else s.completed
  {
    DistanceIsCount(r, s.published, s.nrEvents);
  }

  /** The head found by a step, if it looks at one. */
  function HeadOf(st: Step): Option<nat> {
    match st
    case Complete(_, head) => Some(head)
    case Refill(_, head) => Some(head)
    case _ => None
  }

  /** Less than a lap is unread: what is unread is accounted as completed, and some slot is not. */
  lemma LessThanLap(s: Slots, r: nat)
    requires Conserved(s) && s.published <= r + s.completed
    ensures s.published + s.inFlight < r + s.nrEvents
  {
  }

  /** A step that finds a position `r` from which no more is unread than is accounted as completed, keeps it so. */
  lemma StepNeverOverruns(s: Slots, st: Step, r: nat)
    requires Conserved(s) && Unoverrun(s) && Enabled(s, st)
    requires r <= s.consumed && s.published <= r + s.completed
    requires HeadOf(st).Some? ==> HeadOf(st).value % s.nrEvents == r % s.nrEvents
    ensures Unoverrun(Apply(s, st))
  {
    LessThanLap(s, r);
    match st
    case Complete(c, head) =>
      var done := s.(inFlight := s.inFlight - 1, published := s.published + 1, completed := s.completed + 1);
      HonestRefillKeeps(done, c, head, r);
    case Refill(c, head) =>
      HonestRefillKeeps(s, c, head, r);
    case _ =>
  }

  // ---- runs ------------------------------------------------------------------------------------------------------

  ghost predicate Run(states: seq<Slots>, steps: seq<Step>) {
    && |states| == |steps| + 1 && Init(states[0])
    && forall i :: 0 <= i < |steps| ==>
         Sane(states[i]) && Enabled(states[i], steps[i]) && states[i + 1] == Apply(states[i], steps[i])
  }

  /** Steps that hold `completion_lock`. */
  predicate Locked(st: Step) { HeadOf(st).Some? }

  /** The reader stores only its own position: the head that a step finds is where the reader was at some point since
      the lock was taken.  `since[i]` is that point for step `i`. */
  ghost predicate HonestRun(states: seq<Slots>, steps: seq<Step>, since: seq<nat>)
    requires Run(states, steps)
  {
    && |since| == |steps|
    && forall i :: 0 <= i < |steps| && Locked(steps[i]) ==> since[i] <= i && Honest(states, steps, since[i], i)
  }

  ghost predicate Honest(states: seq<Slots>, steps: seq<Step>, j: nat, i: nat)
    requires Run(states, steps) && j <= i < |steps| && Locked(steps[i])
  {
    && HeadOf(steps[i]).value % states[i].nrEvents == states[j].consumed % states[i].nrEvents
    && forall k :: j <= k < i ==> !Locked(steps[k])
  }

  /** While the lock is free of others, nothing is published or reclaimed and the reader only goes on. */
  lemma {:induction false} QuietPart(states: seq<Slots>, steps: seq<Step>, j: nat, i: nat)
    requires Run(states, steps) && j <= i < |states| && forall k :: j <= k < i ==> !Locked(steps[k])
    ensures states[i].published == states[j].published && states[i].completed == states[j].completed
    ensures states[j].consumed <= states[i].consumed
    decreases i
  {
    if j < i {
      QuietPart(states, steps, j, i - 1);
    }
  }

  lemma {:induction false} SumZero(l: seq<nat>)
    requires forall i :: 0 <= i < |l| ==> l[i] == 0
    ensures Sum(l) == 0
  {
    if l != [] { SumZero(l[1..]); }
  }

  /** In every run of submissions, failures, completions, refills and reads, on any CPUs and with any heads,
      no slot is lost or made up. */
  lemma {:induction false} RunConserves(states: seq<Slots>, steps: seq<Step>, n: nat)
    requires Run(states, steps) && n < |states|
    ensures Conserved(states[n]) && states[n].nrEvents == states[0].nrEvents
    ensures states[n].batch == states[0].batch && |states[n].parked| == |states[0].parked|
  {
    if n == 0 {
      SumZero(states[0].parked);
    } else {
      RunConserves(states, steps, n - 1);
      StepConserves(states[n - 1], steps[n - 1]);
    }
  }

  /** With an honest reader, unread events never outnumber those accounted as completed. */
  lemma {:induction false} RunNeverOverruns(states: seq<Slots>, steps: seq<Step>, since: seq<nat>, n: nat)
    requires Run(states, steps) && HonestRun(states, steps, since) && n < |states|
    ensures Unoverrun(states[n])
  {
    if n > 0 {
      var i := n - 1;
      RunNeverOverruns(states, steps, since, i);
      RunConserves(states, steps, i);
      if Locked(steps[i]) {
        var j := since[i];
        RunNeverOverruns(states, steps, since, j);
        QuietPart(states, steps, j, i);
        StepNeverOverruns(states[i], steps[i], states[j].consumed);
      } else {
        StepNeverOverruns(states[i], steps[i], states[i].consumed);
      }
    }
  }

  /** With an honest reader, a completion never writes to the slot of an event that has not been read. */
  lemma CompleteNeverOverwrites(states: seq<Slots>, steps: seq<Step>, since: seq<nat>, n: nat, unread: nat)
    requires Run(states, steps) && HonestRun(states, steps, since) && n < |steps| && steps[n].Complete?
    requires states[n].consumed <= unread < states[n].published
    ensures unread % states[n].nrEvents != Tail(states[n])
  {
    RunConserves(states, steps, n);
    RunNeverOverruns(states, steps, since, n);
    LessThanLap(states[n], states[n].consumed);
    DistanceIsCount(unread, states[n].published, states[n].nrEvents);
  }

  // ---- capacity ----------------------------------------------------------------------------------------------------

  lemma HalfArithmetic(cpus: nat, b: nat, slots: nat, parked: nat)
    requires cpus > 0 && b > 0 && cpus * 4 * b <= slots && parked <= cpus * (2 * b - 1)
    ensures 2 * parked < slots
  {
    assert cpus * (2 * b - 1) == 2 * (cpus * b) - cpus;
    assert cpus * 4 * b == 4 * (cpus * b);
  }

  /** Less than half of the slots are parked on per-CPU counters, as long as one on every CPU is less than half. */
  lemma LessThanHalfParked(s: Slots)
    requires Conserved(s) && |s.parked| > 0 && s.batch == Max(1, Div(s.nrEvents - 1, |s.parked| * 4))
    requires 2 * |s.parked| < s.nrEvents - 1
    ensures 2 * Sum(s.parked) < s.nrEvents - 1
  {
    SumBound(s.parked, 2 * s.batch - 1);
    if Div(s.nrEvents - 1, |s.parked| * 4) > 0 {
      HalfArithmetic(|s.parked|, s.batch, s.nrEvents - 1, Sum(s.parked));
    }
  }

  /** A context that `io_setup` has just made. */
  predicate Made(s: Slots, m: Setup, cpus: nat) {
    m.Ready? && Init(s) && s.nrEvents == m.nrEvents && s.batch == m.batch && |s.parked| == cpus
  }

  function Fresh(nrEvents: nat, batch: nat, cpus: nat): Slots
    requires nrEvents > 1
  {
    Slots(nrEvents, batch, nrEvents - 1, seq(cpus, _ => 0), 0, 0, 0, 0)
  }

  /** One slot on each of the first `k` CPUs. */
  function OneEach(cpus: nat, k: nat): seq<nat> { seq(cpus, i => if i < k then 1 else 0) }

  lemma {:induction false} OneEachSum(cpus: nat, k: nat)
    requires k <= cpus
    ensures Sum(OneEach(cpus, k)) == k
  {
    if k == 0 {
      SumZero(OneEach(cpus, 0));
    } else {
      OneEachSum(cpus, k - 1);
      assert OneEach(cpus, k) == OneEach(cpus, k - 1)[k - 1 := 1];
      SumUpdate(OneEach(cpus, k - 1), k - 1, 1);
    }
  }

  lemma RunExtended(states: seq<Slots>, steps: seq<Step>, st: Step)
    requires Run(states, steps) && Sane(states[|steps|]) && Enabled(states[|steps|], st)
    ensures Run(states + [Apply(states[|steps|], st)], steps + [st])
  {
  }

  /** A request that fails on a CPU leaves its slot there, if slots are taken one at a time. */
  lemma {:induction false} ParkRun(s: Slots, k: nat) returns (states: seq<Slots>, steps: seq<Step>)
    requires Init(s) && s.batch == 1 && k <= |s.parked| && k <= s.free
    ensures Run(states, steps) && states[0] == s && |steps| == 2 * k
    ensures states[|steps|] == s.(free := s.free - k, parked := OneEach(|s.parked|, k))
  {
    if k == 0 {
      states, steps := [s], [];
      assert s.parked == OneEach(|s.parked|, 0);
    } else {
      states, steps := ParkRun(s, k - 1);
      var c, last := k - 1, states[|steps|];
      var taken := Apply(last, GetReq(c));
      assert taken.parked == last.parked;
      RunExtended(states, steps, GetReq(c));
      states, steps := states + [taken], steps + [GetReq(c)];
      assert Kept(1, 1) == 1;
      assert last.parked[c := 1] == OneEach(|s.parked|, k);
      RunExtended(states, steps, FailReq(c));
      states, steps := states + [Apply(taken, FailReq(c))], steps + [FailReq(c)];
    }
  }

  /** At no point of any run is half of the slots parked. */
  ghost predicate HalfNeverParked(m: Setup, cpus: nat) {
    forall states: seq<Slots>, steps: seq<Step>, n ::
      Run(states, steps) && Made(states[0], m, cpus) && 0 <= n < |states| ==>
        2 * Sum(states[n].parked) < states[n].nrEvents - 1
  }

  lemma BatchIsOne(slots: nat, cpus: nat)
    requires cpus > 0 && slots <= 2 * cpus
    ensures Max(1, Div(slots, cpus * 4)) == 1
  {
    assert cpus * 4 * Div(slots, cpus * 4) <= slots;
  }

  lemma HalfParked(m: Setup, cpus: nat)
    requires m.Ready? && m.nrEvents > 1 && m.batch == 1 && m.nrEvents - 1 <= 2 * cpus
    ensures !HalfNeverParked(m, cpus)
  {
    var k := m.nrEvents / 2;
    var states, steps := ParkRun(Fresh(m.nrEvents, 1, cpus), k);
    OneEachSum(cpus, k);
    assert Made(states[0], m, cpus) && 2 * Sum(states[|steps|].parked) >= m.nrEvents - 1;
  }

  lemma HalfUnparked(m: Setup, cpus: nat)
    requires m.Ready? && m.nrEvents > 1 && cpus > 0 && m.batch == Max(1, Div(m.nrEvents - 1, cpus * 4))
    requires 2 * cpus < m.nrEvents - 1
    ensures HalfNeverParked(m, cpus)
  {
    forall states: seq<Slots>, steps: seq<Step>, n
      | Run(states, steps) && Made(states[0], m, cpus) && 0 <= n < |states|
      ensures 2 * Sum(states[n].parked) < states[n].nrEvents - 1
    {
      RunConserves(states, steps, n);
      LessThanHalfParked(states[n]);
    }
  }

  /** Of a context that `io_setup` makes, less than half of the slots can ever be parked exactly if one on every CPU is
      less than half. */
  lemma HalfParkedIff(nr: nat, cpus: nat, aioMaxNr: nat, pageSize: nat)
    requires 0 < nr < U32 && 0 < cpus && 0 < pageSize && IoSetup(nr, cpus, aioMaxNr, pageSize).Ready?
    ensures var m := IoSetup(nr, cpus, aioMaxNr, pageSize); HalfNeverParked(m, cpus) <==> 2 * cpus < m.nrEvents - 1
  {
    var m := IoSetup(nr, cpus, aioMaxNr, pageSize);
    if 2 * cpus < m.nrEvents - 1 {
      HalfUnparked(m, cpus);
    } else {
      BatchIsOne(m.nrEvents - 1, cpus);
      HalfParked(m, cpus);
    }
  }

  /** A request that did not wrap leaves enough slots for that. */
  lemma UnwrappedNeverParked(nr: nat, cpus: nat, aioMaxNr: nat, pageSize: nat)
    requires 0 < nr < U32 / 2 && 0 < cpus < U32 / 8 && 0 < pageSize
    requires IoSetup(nr, cpus, aioMaxNr, pageSize).Ready?
    ensures HalfNeverParked(IoSetup(nr, cpus, aioMaxNr, pageSize), cpus)
  {
    SetupIsSized(nr, cpus, aioMaxNr, pageSize);
    HalfParkedIff(nr, cpus, aioMaxNr, pageSize);
  }

  /** One that did wrap may not: with 64 CPUs a request that fails on each of them parks 64 of 126 slots. */
  lemma HalfParkedExample() returns (states: seq<Slots>, steps: seq<Step>)
    ensures IoSetup(0x8000_0001, 64, U32, 4096) == Ready(127, 1, 1)
    ensures Run(states, steps) && Made(states[0], Ready(127, 1, 1), 64) && |steps| == 128
    ensures Sum(states[128].parked) == 64 && states[128].free == 62
  {
    states, steps := ParkRun(Fresh(127, 1, 64), 64);
    OneEachSum(64, 64);
  }

  lemma {:induction false} SumBoundBut(l: seq<nat>, most: nat, c: nat)
    requires c < |l| && l[c] == 0 && forall i :: 0 <= i < |l| ==> l[i] <= most
    ensures Sum(l) <= (|l| - 1) * most
  {
    if c == 0 {
      SumBound(l[1..], most);
    } else {
      SumBoundBut(l[1..], most, c - 1);
      assert (|l| - 1) * most == most + (|l[1..]| - 1) * most;
    }
  }

  lemma FullArithmetic(slots: nat, nr: nat, cpus: nat, b: nat, free: nat, parked: nat, used: nat)
    requires cpus > 0 && b > 0 && cpus * 4 * b <= slots && slots >= 2 * nr + 1
    requires free < b && parked <= (cpus - 1) * (2 * b - 1) && free + parked + used == slots
    ensures used > nr
  {
    assert (cpus - 1) * (2 * b - 1) == 2 * (cpus * b) - cpus - 2 * b + 1;
    assert cpus * 4 * b == 4 * (cpus * b);
  }

  /** The state after `user_refill_reqs_available` if the ring holds the true head. */
  function TrulyRefilled(s: Slots, c: nat): Slots
    requires Sane(s) && c < |s.parked|
  {
    if s.completed > 0 then Refilled(s, c, s.consumed % s.nrEvents, Tail(s)) else s
  }

  /** What io_setup promises: right after a refill that saw the true head, a slot is refused only if requests
      in flight and unread events already outnumber the `nr` asked for. */
  ghost predicate Serves(s: Slots, nr: nat)
    requires Sane(s)
  {
    forall c, c2 :: 0 <= c < |s.parked| && 0 <= c2 < |s.parked| && !CanGet(TrulyRefilled(s, c), c2) ==>
      s.inFlight + (s.published - s.consumed) > nr
  }

  lemma ModTwice(x: nat, n: nat)
    requires n > 0
    ensures x % n % n == x % n
  {
  }

  /** Such a refill leaves exactly the unread events accounted as completed. */
  lemma TrulyRefilledIs(s: Slots, c: nat)
    requires Conserved(s) && Unoverrun(s) && c < |s.parked|
    ensures var f := TrulyRefilled(s, c);
            && Conserved(f) && |f.parked| == |s.parked| && f.nrEvents == s.nrEvents && f.batch == s.batch
            && f.inFlight == s.inFlight && f.completed == s.published - s.consumed
  {
    if s.completed > 0 {
      LessThanLap(s, s.consumed);
      var head := s.consumed % s.nrEvents;
      ModTwice(s.consumed, s.nrEvents);
      HonestRefillKeeps(s, c, head, s.consumed);
      RefillConserves(s, c, head, Tail(s));
    }
  }

  lemma RefusedOnlyWhenFull(s: Slots, nr: nat)
    requires Conserved(s) && Unoverrun(s) && Sized(nr, |s.parked|, s.nrEvents, s.batch)
    ensures Serves(s, nr)
  {
    forall c, c2 | 0 <= c < |s.parked| && 0 <= c2 < |s.parked| && !CanGet(TrulyRefilled(s, c), c2)
      ensures s.inFlight + (s.published - s.consumed) > nr
    {
      var f := TrulyRefilled(s, c);
      TrulyRefilledIs(s, c);
      SumBoundBut(f.parked, 2 * f.batch - 1, c2);
      FullArithmetic(f.nrEvents - 1, nr, |f.parked|, f.batch, f.free, Sum(f.parked), f.inFlight + f.completed);
    }
  }

  /** Requests on one CPU until one is refused. */
  lemma {:induction false} DrainRun(states: seq<Slots>, steps: seq<Step>)
    returns (states': seq<Slots>, steps': seq<Step>)
    requires Run(states, steps) && forall i :: 0 <= i < |steps| ==> steps[i].GetReq?
    requires states[|steps|].completed == 0
    ensures Run(states', steps') && states'[0] == states[0] && forall i :: 0 <= i < |steps'| ==> steps'[i].GetReq?
    ensures states'[|steps'|].completed == 0 && |states'[|steps'|].parked| > 0 && !CanGet(states'[|steps'|], 0)
    decreases states[0].nrEvents - states[|steps|].inFlight
  {
    var last := states[|steps|];
    RunConserves(states, steps, |steps|);
    if CanGet(last, 0) {
      RunExtended(states, steps, GetReq(0));
      var next := Apply(last, GetReq(0));
      states', steps' := DrainRun(states + [next], steps + [GetReq(0)]);
    } else {
      states', steps' := states, steps;
    }
  }

  /** At every point of every run with an honest reader the promise of `io_setup` is kept. */
  ghost predicate AlwaysServes(m: Setup, cpus: nat, nr: nat) {
    forall states: seq<Slots>, steps: seq<Step>, since: seq<nat>, n ::
      Run(states, steps) && HonestRun(states, steps, since) && Made(states[0], m, cpus) && 0 <= n < |states| ==>
        Sane(states[n]) && Serves(states[n], nr)
  }

  /** A context that `io_setup(nr)` makes keeps this promise exactly if doubling the request did not wrap. */
  lemma ServesIff(nr: nat, cpus: nat, aioMaxNr: nat, pageSize: nat)
    requires 0 < nr < U32 && 0 < cpus < U32 / 8 && 0 < pageSize <= MAX_PAGE
    requires IoSetup(nr, cpus, aioMaxNr, pageSize).Ready?
    ensures AlwaysServes(IoSetup(nr, cpus, aioMaxNr, pageSize), cpus, nr) <==> nr < U32 / 2
  {
    var m := IoSetup(nr, cpus, aioMaxNr, pageSize);
    if nr < U32 / 2 {
      SetupIsSized(nr, cpus, aioMaxNr, pageSize);
      forall states: seq<Slots>, steps: seq<Step>, since: seq<nat>, n
        | Run(states, steps) && HonestRun(states, steps, since) && Made(states[0], m, cpus) && 0 <= n < |states|
        ensures Sane(states[n]) && Serves(states[n], nr)
      {
        RunConserves(states, steps, n);
        RunNeverOverruns(states, steps, since, n);
        RefusedOnlyWhenFull(states[n], nr);
      }
    } else {
      CapacityIffNoWrap(nr, cpus, aioMaxNr, pageSize);
      NotServed(m, cpus, nr);
    }
  }

  /** With fewer slots than asked for, one is refused when all are in use. */
  lemma NotServed(m: Setup, cpus: nat, nr: nat)
    requires m.Ready? && m.nrEvents > 1 && m.batch > 0 && cpus > 0 && m.nrEvents - 1 < nr
    ensures !AlwaysServes(m, cpus, nr)
  {
    var s := Fresh(m.nrEvents, m.batch, cpus);
    var states, steps := DrainRun([s], []);
    var n := |steps|;
    var since := seq(n, _ => 0);
    var last := states[n];
    RunConserves(states, steps, n);
    RunNeverOverruns(states, steps, since, n);
    assert HonestRun(states, steps, since) && Made(states[0], m, cpus);
    assert !CanGet(TrulyRefilled(last, 0), 0);
    assert !Serves(states[n], nr);
  }

  // ---- the code ----------------------------------------------------------------------------------------------------

  /** aio_get_req's use of the counters on CPU `c`: once more after a refill if there was no slot. */
  function Acquired(s: Slots, c: nat, head: nat): (r: (bool, Slots))
    requires Sane(s) && c < |s.parked|
  {
    if CanGet(s, c) then (true, Got(s, c))
    else
      var f := if s.completed > 0 then Refilled(s, c, head, Tail(s)) else s;
      if CanGet(f, c) then (true, Got(f, c)) else (false, f)
  }

  /** A state of a run with an honest reader, in a context for `nr` requests whose size did not wrap, with the true
      head in the ring. */
  ghost predicate Truthful(s: Slots, nr: nat, head: nat) {
    && Conserved(s) && Unoverrun(s) && Sized(nr, |s.parked|, s.nrEvents, s.batch)
    && head % s.nrEvents == s.consumed % s.nrEvents
  }

  /** Then a slot is refused only if requests in flight and unread events outnumber the `nr` asked for. */
  lemma AcquiredServes(s: Slots, nr: nat, c: nat, head: nat)
    requires Truthful(s, nr, head) && c < |s.parked|
    ensures Acquired(s, c, head).0 || s.inFlight + (s.published - s.consumed) > nr
  {
    RefusedOnlyWhenFull(s, nr);
    ModTwice(s.consumed, s.nrEvents);
    assert !CanGet(s, c) ==> (Acquired(s, c, head).0 <==> CanGet(TrulyRefilled(s, c), c));
  }

  /** `s'` is what steps of a run make of `s`. */
  ghost predicate Through(s: Slots, steps: seq<Step>, s': Slots)
    decreases |steps|
  {
    if steps == [] then s' == s
    else Sane(s) && Enabled(s, steps[0]) && Through(Apply(s, steps[0]), steps[1..], s')
  }

  /** The steps of aio_get_req: a refill if there is no slot at first and something has completed, the request if
      there is a slot then, and its failure if there is no memory for it. */
  function Attempt(s: Slots, c: nat, head: nat, haveMemory: bool): seq<Step>
    requires Sane(s) && c < |s.parked|
  {
    (if !CanGet(s, c) && s.completed > 0 then [Refill(c, head)] else []) +
    (if !Acquired(s, c, head).0 then [] else if haveMemory then [GetReq(c)] else [GetReq(c), FailReq(c)])
  }

  lemma ThroughNext(s: Slots, st: Step, steps: seq<Step>, s': Slots)
    requires Sane(s) && Enabled(s, st) && Through(Apply(s, st), steps, s')
    ensures Through(s, [st] + steps, s')
  {
    assert ([st] + steps)[1..] == steps;
  }

  /** The state that aio_get_req leaves. */
  function Attempted(s: Slots, c: nat, head: nat, haveMemory: bool): Slots
    requires Sane(s) && c < |s.parked|
  {
    var (got, f) := Acquired(s, c, head);
    if !got then f else if haveMemory then f.(inFlight := f.inFlight + 1) else Put(f, c, 1)
  }

  lemma TakingIsSteps(f: Slots, c: nat, haveMemory: bool)
    requires Sane(f) && c < |f.parked| && CanGet(f, c)
    ensures var taken := Got(f, c);
            if haveMemory then Through(f, [GetReq(c)], taken.(inFlight := f.inFlight + 1))
            else Through(f, [GetReq(c), FailReq(c)], Put(taken, c, 1))
  {
    var taken := Apply(f, GetReq(c));
    if haveMemory {
      ThroughNext(f, GetReq(c), [], taken);
    } else {
      var end := Put(Got(f, c), c, 1);
      assert taken.(inFlight := taken.inFlight - 1) == Got(f, c);
      ThroughNext(taken, FailReq(c), [], end);
      ThroughNext(f, GetReq(c), [FailReq(c)], end);
    }
  }

  /** Its effect is that of enabled steps of a run. */
  lemma AttemptIsSteps(s: Slots, c: nat, head: nat, haveMemory: bool)
    requires Sane(s) && c < |s.parked|
    ensures Through(s, Attempt(s, c, head, haveMemory), Attempted(s, c, head, haveMemory))
  {
    var refill := !CanGet(s, c) && s.completed > 0;
    var f := if refill then Refilled(s, c, head, Tail(s)) else s;
    var end := Attempted(s, c, head, haveMemory);
    var rest := if !Acquired(s, c, head).0 then [] else if haveMemory then [GetReq(c)] else [GetReq(c), FailReq(c)];
    if CanGet(f, c) {
      TakingIsSteps(f, c, haveMemory);
    }
    assert Through(f, rest, end);
    if refill {
      ThroughNext(s, Refill(c, head), rest, end);
    } else {
      assert [] + rest == rest;
    }
  }

  class Kioctx {
    var nrEvents: nat
    var reqBatch: nat
    var reqsAvailable: nat
    var cpu: seq<nat>
    var tail: nat
    var completedEvents: nat
    var ringHead: nat  // in the page shared with userland
    ghost var inFlight: nat
    ghost var published: nat
    ghost var consumed: nat

    ghost predicate Valid()
      reads this
    {
      nrEvents > 1 && reqBatch > 0 && tail == published % nrEvents
    }

    ghost function View(): Slots
      reads this
    {
      Slots(nrEvents, reqBatch, reqsAvailable, cpu, inFlight, completedEvents, published, consumed)
    }

    method PutReqsAvailable(c: nat, nr: nat)
      requires Valid() && c < |cpu|
      modifies `cpu, `reqsAvailable
      ensures Valid() && View() == Put(old(View()), c, nr)
    {
      ghost var n := cpu[c] + nr;
      cpu := cpu[c := cpu[c] + nr];
      while cpu[c] >= reqBatch * 2
        invariant |cpu| == |old(cpu)| && cpu == old(cpu)[c := cpu[c]]
        invariant Kept(cpu[c], reqBatch) == Kept(n, reqBatch)
        invariant cpu[c] + reqsAvailable == n + old(reqsAvailable)
        decreases cpu[c]
      {
        cpu := cpu[c := cpu[c] - reqBatch];
        reqsAvailable := reqsAvailable + reqBatch;
      }
    }

    method GetReqsAvailable(c: nat) returns (ok: bool)
      requires Valid() && c < |cpu|
      modifies `cpu, `reqsAvailable
      ensures Valid() && ok == CanGet(old(View()), c)
      ensures View() == if ok then Got(old(View()), c) else old(View())
    {
      if cpu[c] == 0 {
        if reqsAvailable < reqBatch {
          return false;
        }
        reqsAvailable := reqsAvailable - reqBatch;
        cpu := cpu[c := cpu[c] + reqBatch];
      }
      ok := true;
      cpu := cpu[c := cpu[c] - 1];
    }

    method RefillReqsAvailable(c: nat, head0: nat, tail0: nat)
      requires Valid() && c < |cpu| && tail0 < nrEvents
      modifies `cpu, `reqsAvailable, `completedEvents
      ensures Valid() && View() == Refilled(old(View()), c, head0, tail0)
    {
      var head := head0 % nrEvents;
      var eventsInRing := if head <= tail0 then tail0 - head else nrEvents - (head - tail0);
      var completed := completedEvents;
      if eventsInRing < completed {
        completed := completed - eventsInRing;
      } else {
        completed := 0;
      }
      if completed == 0 {
        return;
      }
      completedEvents := completedEvents - completed;
      PutReqsAvailable(c, completed);
    }

    method UserRefillReqsAvailable(c: nat)
      requires Valid() && c < |cpu|
      modifies `cpu, `reqsAvailable, `completedEvents
      ensures Valid()
      ensures View() == if old(completedEvents) > 0 then Refilled(old(View()), c, ringHead, Tail(old(View())))
                        else old(View())
    {
      if completedEvents > 0 {
        RefillReqsAvailable(c, ringHead, tail);
      }
    }

    /** aio_get_req; `haveMemory` is whether the request itself could be allocated. */
    method AioGetReq(c: nat, haveMemory: bool) returns (ok: bool)
      requires Valid() && c < |cpu|
      modifies `cpu, `reqsAvailable, `completedEvents, `inFlight
      ensures Valid()
      ensures ok == (Acquired(old(View()), c, ringHead).0 && haveMemory)
      ensures View() == Attempted(old(View()), c, ringHead, haveMemory)
      ensures Through(old(View()), Attempt(old(View()), c, ringHead, haveMemory), View())
      ensures !ok && haveMemory ==>
                forall nr :: Truthful(old(View()), nr, ringHead) ==> inFlight + (published - consumed) > nr
    {
      AttemptIsSteps(View(), c, ringHead, haveMemory);
      forall nr | Truthful(View(), nr, ringHead)
        ensures Acquired(View(), c, ringHead).0 || inFlight + (published - consumed) > nr
      {
        AcquiredServes(View(), nr, c, ringHead);
      }
      var got := GetReqsAvailable(c);
      if !got {
        UserRefillReqsAvailable(c);
        got := GetReqsAvailable(c);
        if !got {
          return false;
        }
      }
      if !haveMemory {
        PutReqsAvailable(c, 1);
        return false;
      }
      inFlight := inFlight + 1;
      ok := true;
    }

    /** The accounting of aio_complete. */
    method AioComplete(c: nat)
      requires Valid() && c < |cpu| && inFlight > 0
      modifies `cpu, `reqsAvailable, `completedEvents, `inFlight, `tail, `published
      ensures Valid() && View() == Apply(old(View()), Complete(c, ringHead))
    {
      ModAdd(published, 1, nrEvents);
      var t := tail + 1;
      if t >= nrEvents {
        t := 0;
      }
      tail := t;
      inFlight, published := inFlight - 1, published + 1;
      completedEvents := completedEvents + 1;
      if completedEvents > 1 {
        RefillReqsAvailable(c, ringHead, t);
      }
    }
  }
}
