/** Exclusive opens of block devices: `bd_may_claim`, the two-phase claim of `blkdev_get`, and the release of
    `blkdev_put`, over whole devices and their partitions.  Each region under `bdev_lock` is one step. */
module ExclusiveClaim {

  type Who = nat

  /** A block device: partition `part` of a disk, or the whole disk if `part` is 0. */
  datatype Dev = Dev(disk: nat, part: nat)

  /** `bd_contains` of a device. */
  function Whole(d: Dev): Dev { Dev(d.disk, 0) }

  /** `bd_holder`: nobody, a claimer, or the marker a whole device carries while its partitions are claimed
      (the address of `bd_may_claim`). */
  datatype Holder = Nobody | Marker | By(who: Who)

  /** `bd_holder`, `bd_holders` and `bd_claiming`; what is not in a map is NULL or zero. */
  datatype Table = Table(holder: map<Dev, Holder>, holders: map<Dev, int>, claiming: map<Dev, Who>)

  function HolderOf(t: Table, d: Dev): Holder { if d in t.holder then t.holder[d] else Nobody }
  function HoldersOf(t: Table, d: Dev): int { if d in t.holders then t.holders[d] else 0 }

  predicate MayClaim(t: Table, d: Dev, who: Who) {
    if HolderOf(t, d) == By(who) then true
    else if HolderOf(t, d) != Nobody then false
    else if Whole(d) == d then true
    else if HolderOf(t, Whole(d)) == Marker then true
    else if HolderOf(t, Whole(d)) != Nobody then false
    else true
  }

  // ---- the protocol --------------------------------------------------------------------------------------------

  /** A claim by `who` on a device. */
  datatype Claim = Claim(dev: Dev, who: Who)

  /** `pending` claims have started and must finish or abort; `granted` ones are exclusive opens. */
  datatype State = State(t: Table, pending: map<nat, Claim>, granted: map<nat, Claim>)

  datatype Step =
    | Start(id: nat, c: Claim)
    | Finish(id: nat)
    | Abort(id: nat)
    | Release(id: nat)

  function Add(holders: map<Dev, int>, d: Dev, k: int): map<Dev, int> {
    holders[d := (if d in holders then holders[d] else 0) + k]
  }

  /** A claim is granted: one more on the whole device and its marker, one more on the device and its holder. */
  function Granted(t: Table, c: Claim): Table {
    t.(holders := Add(Add(t.holders, Whole(c.dev), 1), c.dev, 1),
       holder := t.holder[Whole(c.dev) := Marker][c.dev := By(c.who)],
       claiming := t.claiming - {Whole(c.dev)})
  }

  function Released(t: Table, d: Dev): Table {
    var holders := Add(Add(t.holders, d, -1), Whole(d), -1);
    var h := if holders[d] == 0 then t.holder[d := Nobody] else t.holder;
    t.(holders := holders, holder := if holders[Whole(d)] == 0 then h[Whole(d) := Nobody] else h)
  }

  /** Start may wait or be refused; it goes on when nobody else is claiming and the claim is allowed. */
  predicate Enabled(s: State, st: Step) {
    match st
    case Start(id, c) =>
      id !in s.pending && id !in s.granted && MayClaim(s.t, c.dev, c.who) && Whole(c.dev) !in s.t.claiming
    case Finish(id) => id in s.pending
    case Abort(id) => id in s.pending
    case Release(id) => id in s.granted
  }

  function Apply(s: State, st: Step): State
    requires Enabled(s, st)
  {
    match st
    case Start(id, c) =>
      State(s.t.(claiming := s.t.claiming[Whole(c.dev) := c.who]), s.pending[id := c], s.granted)
    case Finish(id) => State(Granted(s.t, s.pending[id]), s.pending - {id}, s.granted[id := s.pending[id]])
    case Abort(id) =>
      State(s.t.(claiming := s.t.claiming - {Whole(s.pending[id].dev)}), s.pending - {id}, s.granted)
    case Release(id) => State(Released(s.t, s.granted[id].dev), s.pending, s.granted - {id})
  }

  predicate Init(s: State) { s == State(Table(map[], map[], map[]), map[], map[]) }

  // ---- invariant -------------------------------------------------------------------------------------------------

  /** The exclusive opens of a device itself, and those of the partitions of a whole device. */
  function Opens(granted: map<nat, Claim>, d: Dev): set<nat> { set i | i in granted && granted[i].dev == d }
  function PartOpens(granted: map<nat, Claim>, w: Dev): set<nat> {
    set i | i in granted && granted[i].dev != w && Whole(granted[i].dev) == w
  }

  ghost function Count(granted: map<nat, Claim>, d: Dev): int {
    if Whole(d) == d then 2 * |Opens(granted, d)| + |PartOpens(granted, d)| else |Opens(granted, d)|
  }

  /** Holders are counted once per open of a partition, and twice per open of the whole device. */
  ghost predicate CountsInv(t: Table, granted: map<nat, Claim>) {
    forall d :: HoldersOf(t, d) == Count(granted, d)
  }

  /** The holder field names the one holder of the device; the marker stands for claimed partitions. */
  ghost predicate HolderInv(t: Table, granted: map<nat, Claim>) {
    && (forall i :: i in granted ==> Held(t, granted[i]))
    && (forall d :: Backed(t, granted, d))
  }

  /** A granted claim shows in the table: its holder on the device, and the marker above a partition. */
  predicate Held(t: Table, c: Claim) {
    HolderOf(t, c.dev) == By(c.who) && (c.dev != Whole(c.dev) ==> HolderOf(t, Whole(c.dev)) == Marker)
  }

  /** Nothing else shows in the table. */
  ghost predicate Backed(t: Table, granted: map<nat, Claim>, d: Dev) {
    && (HolderOf(t, d).By? ==> Opens(granted, d) != {})
    && (HolderOf(t, d).Marker? ==> Whole(d) == d && PartOpens(granted, d) != {})
  }

  /** A claim on this whole device or on a partition of it has started and not ended. */
  ghost predicate InProgress(pending: map<nat, Claim>, w: Dev) {
    exists i :: i in pending && Whole(pending[i].dev) == w
  }

  /** One claim at a time on a whole device, and it stays allowed until it finishes; a mark is that of such a claim. */
  ghost predicate PendingInv(t: Table, pending: map<nat, Claim>) {
    && (forall i :: i in pending ==> MayClaim(t, pending[i].dev, pending[i].who))
    && (forall i :: i in pending ==>
          Whole(pending[i].dev) in t.claiming && t.claiming[Whole(pending[i].dev)] == pending[i].who)
    && (forall i, j :: i in pending && j in pending && Whole(pending[i].dev) == Whole(pending[j].dev) ==> i == j)
    && (forall w :: w in t.claiming ==> InProgress(pending, w))
  }

  ghost predicate Inv(s: State) {
    && CountsInv(s.t, s.granted) && HolderInv(s.t, s.granted) && PendingInv(s.t, s.pending)
    && s.pending.Keys !! s.granted.Keys
  }

  lemma OpensGrown(granted: map<nat, Claim>, id: nat, c: Claim, d: Dev)
    requires id !in granted
    ensures Opens(granted[id := c], d) == if d == c.dev then Opens(granted, d) + {id} else Opens(granted, d)
    ensures PartOpens(granted[id := c], d) ==
              if d != c.dev && Whole(c.dev) == d then PartOpens(granted, d) + {id} else PartOpens(granted, d)
    ensures id !in Opens(granted, d) && id !in PartOpens(granted, d)
  {
  }

  lemma OpensShrunk(granted: map<nat, Claim>, id: nat, d: Dev)
    requires id in granted
    ensures Opens(granted - {id}, d) == Opens(granted, d) - {id}
    ensures PartOpens(granted - {id}, d) == PartOpens(granted, d) - {id}
    ensures id in Opens(granted, d) <==> granted[id].dev == d
    ensures id in PartOpens(granted, d) <==> granted[id].dev != d && Whole(granted[id].dev) == d
  {
  }

  lemma CountGrown(granted: map<nat, Claim>, id: nat, c: Claim, d: Dev)
    requires id !in granted
    ensures Count(granted[id := c], d) ==
              Count(granted, d) + (if d == c.dev then 1 else 0) + (if d == Whole(c.dev) then 1 else 0)
  {
    OpensGrown(granted, id, c, d);
  }

  lemma CountShrunk(granted: map<nat, Claim>, id: nat, d: Dev)
    requires id in granted
    ensures var dev := granted[id].dev;
            Count(granted - {id}, d) ==
              Count(granted, d) - (if d == dev then 1 else 0) - (if d == Whole(dev) then 1 else 0)
  {
    OpensShrunk(granted, id, d);
  }

  lemma GrantCounts(t: Table, granted: map<nat, Claim>, id: nat, c: Claim)
    requires CountsInv(t, granted) && id !in granted
    ensures CountsInv(Granted(t, c), granted[id := c])
  {
    forall d ensures HoldersOf(Granted(t, c), d) == Count(granted[id := c], d) {
      CountGrown(granted, id, c, d);
    }
  }

  lemma ReleaseCounts(t: Table, granted: map<nat, Claim>, id: nat)
    requires CountsInv(t, granted) && id in granted
    ensures CountsInv(Released(t, granted[id].dev), granted - {id})
  {
    forall d ensures HoldersOf(Released(t, granted[id].dev), d) == Count(granted - {id}, d) {
      CountShrunk(granted, id, d);
    }
  }

  /** Two allowed claims agree: an allowed claim never displaces a granted one. */
  lemma AllowedAgrees(t: Table, granted: map<nat, Claim>, c: Claim, i: nat)
    requires HolderInv(t, granted) && MayClaim(t, c.dev, c.who) && i in granted
    ensures granted[i].dev == c.dev ==> granted[i].who == c.who
    ensures granted[i].dev == Whole(c.dev) ==> c.dev == Whole(c.dev)
    ensures Whole(granted[i].dev) == c.dev ==> granted[i].dev == c.dev
  {
    assert Held(t, granted[i]);
    assert Backed(t, granted, c.dev);
    if HolderOf(t, c.dev) == By(c.who) {
      var j :| j in Opens(granted, c.dev);
      assert Held(t, granted[j]);
    }
  }

  lemma GrantHolds(t: Table, granted: map<nat, Claim>, id: nat, c: Claim)
    requires HolderInv(t, granted) && id !in granted && MayClaim(t, c.dev, c.who)
    ensures HolderInv(Granted(t, c), granted[id := c])
  {
    var granted', t' := granted[id := c], Granted(t, c);
    forall i | i in granted' ensures Held(t', granted'[i]) {
      if i != id {
        assert Held(t, granted[i]);
        AllowedAgrees(t, granted, c, i);
      }
    }
    forall d ensures Backed(t', granted', d) {
      assert Backed(t, granted, d);
      OpensGrown(granted, id, c, d);
    }
  }

  lemma StillOpen(granted: map<nat, Claim>, i: nat)
    requires i in granted
    ensures Count(granted, granted[i].dev) > 0 && Count(granted, Whole(granted[i].dev)) > 0
  {
    assert i in Opens(granted, granted[i].dev);
    assert granted[i].dev != Whole(granted[i].dev) ==> i in PartOpens(granted, Whole(granted[i].dev));
  }

  lemma ReleaseHolds(t: Table, granted: map<nat, Claim>, id: nat)
    requires HolderInv(t, granted) && CountsInv(t, granted) && id in granted
    ensures HolderInv(Released(t, granted[id].dev), granted - {id})
  {
    var granted', t' := granted - {id}, Released(t, granted[id].dev);
    ReleaseCounts(t, granted, id);
    forall i | i in granted' ensures Held(t', granted'[i]) {
      assert Held(t, granted[i]);
      StillOpen(granted', i);
      assert HoldersOf(t', granted[i].dev) > 0 && HoldersOf(t', Whole(granted[i].dev)) > 0;
    }
    forall d ensures Backed(t', granted', d) {
      ReleaseBacked(t, granted, id, d);
    }
  }

  lemma ReleaseBacked(t: Table, granted: map<nat, Claim>, id: nat, d: Dev)
    requires HolderInv(t, granted) && CountsInv(t, granted) && id in granted
    ensures Backed(Released(t, granted[id].dev), granted - {id}, d)
  {
    var granted', t' := granted - {id}, Released(t, granted[id].dev);
    ReleaseCounts(t, granted, id);
    OpensShrunk(granted, id, d);
    assert Backed(t, granted, d);
    assert Held(t, granted[id]);
    assert HoldersOf(t', d) == Count(granted', d);
    forall i | i in Opens(granted, d) ensures Held(t, granted[i]) {}
  }

  lemma StartPends(t: Table, pending: map<nat, Claim>, id: nat, c: Claim)
    requires PendingInv(t, pending) && MayClaim(t, c.dev, c.who) && Whole(c.dev) !in t.claiming
    requires id !in pending
    ensures PendingInv(t.(claiming := t.claiming[Whole(c.dev) := c.who]), pending[id := c])
  {
    forall w | w in t.claiming || w == Whole(c.dev) ensures InProgress(pending[id := c], w) {
      if w == Whole(c.dev) {
        assert pending[id := c][id] == c;
      } else {
        var i :| i in pending && Whole(pending[i].dev) == w;
        assert pending[id := c][i] == pending[i];
      }
    }
  }

  /** The end of a claim takes nothing from the claims on other devices. */
  lemma EndPends(t: Table, pending: map<nat, Claim>, id: nat, t': Table)
    requires PendingInv(t, pending) && id in pending
    requires t'.claiming == t.claiming - {Whole(pending[id].dev)}
    requires forall d :: Whole(d) != Whole(pending[id].dev) ==> HolderOf(t', d) == HolderOf(t, d)
    ensures PendingInv(t', pending - {id})
  {
    forall w | w in t'.claiming ensures InProgress(pending - {id}, w) {
      var i :| i in pending && Whole(pending[i].dev) == w;
      assert i in pending - {id};
    }
  }

  /** A claim that was allowed is still allowed after a release. */
  lemma ReleaseAllows(t: Table, granted: map<nat, Claim>, id: nat, c: Claim)
    requires HolderInv(t, granted) && id in granted && MayClaim(t, c.dev, c.who)
    ensures MayClaim(Released(t, granted[id].dev), c.dev, c.who)
  {
    if HolderOf(t, c.dev) == By(c.who) {
      assert Backed(t, granted, c.dev);
      var j :| j in Opens(granted, c.dev);
      assert Held(t, granted[j]);
    }
  }

  /** Claims in progress are not holders. */
  lemma ClaimingAside(t: Table, claiming: map<Dev, Who>, granted: map<nat, Claim>)
    requires CountsInv(t, granted) && HolderInv(t, granted)
    ensures CountsInv(t.(claiming := claiming), granted) && HolderInv(t.(claiming := claiming), granted)
  {
    var t' := t.(claiming := claiming);
    forall d ensures HoldersOf(t', d) == Count(granted, d) && Backed(t', granted, d) {
      assert HoldersOf(t, d) == Count(granted, d) && Backed(t, granted, d);
    }
  }

  /** Every step keeps the invariant. */
  lemma StepKeepsInv(s: State, st: Step)
    requires Inv(s) && Enabled(s, st)
    ensures Inv(Apply(s, st))
  {
    match st
    case Start(id, c) =>
      StartPends(s.t, s.pending, id, c);
      ClaimingAside(s.t, Apply(s, st).t.claiming, s.granted);
    case Finish(id) =>
      GrantCounts(s.t, s.granted, id, s.pending[id]);
      GrantHolds(s.t, s.granted, id, s.pending[id]);
      EndPends(s.t, s.pending, id, Granted(s.t, s.pending[id]));
    case Abort(id) =>
      EndPends(s.t, s.pending, id, Apply(s, st).t);
      ClaimingAside(s.t, Apply(s, st).t.claiming, s.granted);
    case Release(id) =>
      ReleaseCounts(s.t, s.granted, id);
      ReleaseHolds(s.t, s.granted, id);
      forall i | i in s.pending ensures MayClaim(Apply(s, st).t, s.pending[i].dev, s.pending[i].who) {
        ReleaseAllows(s.t, s.granted, id, s.pending[i]);
      }
  }

  // ---- runs -----------------------------------------------------------------------------------------------------

  ghost predicate Run(states: seq<State>, steps: seq<Step>) {
    && |states| == |steps| + 1 && Init(states[0])
    && forall k :: 0 <= k < |steps| ==> Enabled(states[k], steps[k]) && states[k + 1] == Apply(states[k], steps[k])
  }

  lemma {:induction false} RunKeepsInv(states: seq<State>, steps: seq<Step>, k: nat)
    requires Run(states, steps) && k < |states|
    ensures Inv(states[k])
    decreases k
  {
    if k > 0 {
      RunKeepsInv(states, steps, k - 1);
      StepKeepsInv(states[k - 1], steps[k - 1]);
    }
  }

  /** Two claims that may not be open together: one device and two holders, or a whole device and a partition. */
  predicate Conflict(c: Claim, c': Claim) {
    if c.dev == c'.dev then c.who != c'.who else c.dev == Whole(c'.dev) || Whole(c.dev) == c'.dev
  }

  /** Exclusion: at every point of every run, all opens of a device are by one holder, and a whole device and one
      of its partitions are never open together. */
  lemma NeverHeldTogether(states: seq<State>, steps: seq<Step>, k: nat, i: nat, j: nat)
    requires Run(states, steps) && k < |states|
    requires i in states[k].granted && j in states[k].granted
    ensures !Conflict(states[k].granted[i], states[k].granted[j])
  {
    RunKeepsInv(states, steps, k);
    assert Held(states[k].t, states[k].granted[i]) && Held(states[k].t, states[k].granted[j]);
  }

  /** The counts of every run: twice the opens of the whole device itself plus those of its partitions, and the
      opens of a partition. */
  lemma HoldersCounted(states: seq<State>, steps: seq<Step>, k: nat, d: Dev)
    requires Run(states, steps) && k < |states|
    ensures HoldersOf(states[k].t, d) == |Opens(states[k].granted, d)| +
              if Whole(d) == d then |Opens(states[k].granted, d)| + |PartOpens(states[k].granted, d)| else 0
    ensures HolderOf(states[k].t, d) == Nobody <==> HoldersOf(states[k].t, d) == 0
  {
    var s := states[k];
    RunKeepsInv(states, steps, k);
    assert HoldersOf(s.t, d) == Count(s.granted, d);
    assert Backed(s.t, s.granted, d);
    forall i | i in s.granted ensures Held(s.t, s.granted[i]) {}
  }

  /** The assertions in the code: at every finish the claim is still allowed and the claim in progress is its own,
      and no release takes a count below zero, in either of its two decrements. */
  lemma AssertionsHold(states: seq<State>, steps: seq<Step>, k: nat)
    requires Run(states, steps) && k < |steps|
    ensures match steps[k]
            case Start(_, _) => true
            case Finish(id) => var c := states[k].pending[id];
              && MayClaim(states[k].t, c.dev, c.who)
              && Whole(c.dev) in states[k].t.claiming && states[k].t.claiming[Whole(c.dev)] == c.who
            case Abort(id) => var c := states[k].pending[id];
              Whole(c.dev) in states[k].t.claiming && states[k].t.claiming[Whole(c.dev)] == c.who
            case Release(id) => var d := states[k].granted[id].dev;
              && HoldersOf(states[k].t, d) - 1 >= 0
              && HoldersOf(states[k].t, Whole(d)) - (if Whole(d) == d then 2 else 1) >= 0
  {
    RunKeepsInv(states, steps, k);
    if steps[k].Release? {
      RunKeepsInv(states, steps, k + 1);
      var d := states[k].granted[steps[k].id].dev;
      assert HoldersOf(states[k + 1].t, d) == Count(states[k + 1].granted, d);
      assert HoldersOf(states[k + 1].t, Whole(d)) == Count(states[k + 1].granted, Whole(d));
    }
  }

  /** A claim is refused exactly when it would break exclusion with the opens there are. */
  lemma RefusedIff(states: seq<State>, steps: seq<Step>, k: nat, c: Claim)
    requires Run(states, steps) && k < |states|
    ensures !MayClaim(states[k].t, c.dev, c.who) <==>
              exists i :: i in states[k].granted && Conflict(states[k].granted[i], c)
  {
    var s := states[k];
    RunKeepsInv(states, steps, k);
    if MayClaim(s.t, c.dev, c.who) {
      forall i | i in s.granted ensures !Conflict(s.granted[i], c) {
        AllowedAgrees(s.t, s.granted, c, i);
      }
    } else {
      assert Backed(s.t, s.granted, c.dev) && Backed(s.t, s.granted, Whole(c.dev));
      var d := if HolderOf(s.t, c.dev) == Nobody then Whole(c.dev) else c.dev;
      var i :| i in if HolderOf(s.t, d).By? then Opens(s.granted, d) else PartOpens(s.granted, d);
      assert Held(s.t, s.granted[i]);
    }
  }

  /** Marks and claims in progress are the same at every point of every run. */
  lemma MarkedIff(states: seq<State>, steps: seq<Step>, k: nat, w: Dev)
    requires Run(states, steps) && k < |states|
    ensures w in states[k].t.claiming <==> InProgress(states[k].pending, w)
  {
    RunKeepsInv(states, steps, k);
  }

  /** Progress: a new claim can start exactly if it conflicts with no open and no claim on its whole device is in
      progress.  One that is in progress can end at any time, and its device is free for claims then. */
  lemma StartsIff(states: seq<State>, steps: seq<Step>, k: nat, id: nat, c: Claim)
    requires Run(states, steps) && k < |states| && id !in states[k].pending && id !in states[k].granted
    ensures Enabled(states[k], Start(id, c)) <==>
              && (forall i :: i in states[k].granted ==> !Conflict(states[k].granted[i], c))
              && !InProgress(states[k].pending, Whole(c.dev))
  {
    RefusedIff(states, steps, k, c);
    MarkedIff(states, steps, k, Whole(c.dev));
  }

  lemma EndFreesDevice(states: seq<State>, steps: seq<Step>, k: nat, id: nat, ok: bool)
    requires Run(states, steps) && k < |states| && id in states[k].pending
    ensures var st := if ok then Finish(id) else Abort(id);
            && Enabled(states[k], st)
            && !InProgress(Apply(states[k], st).pending, Whole(states[k].pending[id].dev))
            && Whole(states[k].pending[id].dev) !in Apply(states[k], st).t.claiming
  {
    RunKeepsInv(states, steps, k);
    StepKeepsInv(states[k], if ok then Finish(id) else Abort(id));
  }

  // ---- the code ------------------------------------------------------------------------------------------------

  datatype Prepared = Busy | MustWait | Mine

  class BlockDevices {
    var holder: map<Dev, Holder>
    var holders: map<Dev, int>
    var claiming: map<Dev, Who>

    function Abs(): Table reads this { Table(holder, holders, claiming) }

    /** One round of `bd_prepare_to_claim`, and the mark that `bd_start_claiming` sets after it. */
    method StartClaiming(c: Claim) returns (r: Prepared)
      modifies this
      ensures r.Mine? <==> MayClaim(old(Abs()), c.dev, c.who) && Whole(c.dev) !in old(claiming)
      ensures r.Busy? <==> !MayClaim(old(Abs()), c.dev, c.who)
      ensures Abs() == if r.Mine? then old(Abs()).(claiming := old(claiming)[Whole(c.dev) := c.who]) else old(Abs())
    {
      if !MayClaim(Abs(), c.dev, c.who) {
        return Busy;
      }
      if Whole(c.dev) in claiming {
        return MustWait;
      }
      claiming := claiming[Whole(c.dev) := c.who];
      r := Mine;
    }

    /** The end of a claim in `blkdev_get`, with the result of the open itself. */
    method FinishClaiming(c: Claim, ok: bool)
      requires MayClaim(Abs(), c.dev, c.who)
      requires Whole(c.dev) in claiming && claiming[Whole(c.dev)] == c.who
      modifies this
      ensures Abs() == if ok then Granted(old(Abs()), c) else old(Abs()).(claiming := old(claiming) - {Whole(c.dev)})
      ensures claiming == old(claiming) - {Whole(c.dev)}
    {
      if ok {
        holders := Add(holders, Whole(c.dev), 1);
        holder := holder[Whole(c.dev) := Marker];
        holders := Add(holders, c.dev, 1);
        holder := holder[c.dev := By(c.who)];
      }
      claiming := claiming - {Whole(c.dev)};
    }

    /** The release in `blkdev_put`. */
    method ReleaseClaim(d: Dev) returns (unheld: bool)
      requires d in holders && Whole(d) in holders && holders[d] > 0
      requires holders[Whole(d)] >= if Whole(d) == d then 2 else 1
      modifies this
      ensures Abs() == Released(old(Abs()), d)
      ensures unheld <==> HoldersOf(Abs(), d) == 0
    {
      holders := Add(holders, d, -1);
      assert holders[d] >= 0;
      holders := Add(holders, Whole(d), -1);
      assert holders[Whole(d)] >= 0;
      unheld := holders[d] == 0;
      if unheld {
        holder := holder[d := Nobody];
      }
      if holders[Whole(d)] == 0 {
        holder := holder[Whole(d) := Nobody];
      }
    }
  }
}
