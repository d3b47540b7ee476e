/** The completion ring of an AIO context: events spread over pages, the first of which starts with a header
    in the place of its first slot, published at the tail and copied out from the head. */
module AioRing {

  import opened AioSlots
  import opened Arith

  datatype Event = Event(obj: int, data: int, res: int, res2: int)

  /** Slots in a page, and how many of them the header takes from the first. */
  function PerPage(pageSize: nat): nat { pageSize / EVENT_BYTES }
  const OFFSET: nat := HEADER_BYTES / EVENT_BYTES

  /** A ring of `pages` pages as aio_setup_ring lays it out. */
  ghost predicate Fits(nrEvents: nat, pageSize: nat, pages: nat) {
    && pageSize > 0 && pageSize % EVENT_BYTES == 0 && pages > 0
    && nrEvents == PerPage(pageSize) * pages - OFFSET && nrEvents > 0
  }

  /** A position in units of slots, as a page and a slot in it. */
  lemma PageOf(x: nat, n: nat, pages: nat)
    requires x < n * pages
    ensures n > 0 && x == n * (x / n) + x % n && 0 <= x / n < pages && 0 <= x % n < n
  {
    MulBounds(n, x / n - pages + 1);
    assert n * (x / n - pages + 1) == n * (x / n) - n * pages + n;
  }

  /** Event `i` lies inside the allocated pages and clear of the header, and no other event lies there. */
  lemma SlotsAreDistinct(nrEvents: nat, pageSize: nat, pages: nat, i: nat, j: nat)
    requires Fits(nrEvents, pageSize, pages) && i < nrEvents && j < nrEvents
    ensures var n := PerPage(pageSize);
            && n > 0 && (i + OFFSET) / n < pages
            && ((i + OFFSET) / n == 0 ==> (i + OFFSET) % n * EVENT_BYTES >= HEADER_BYTES)
            && ((i + OFFSET) % n + 1) * EVENT_BYTES <= pageSize
            && ((i + OFFSET) / n == (j + OFFSET) / n && (i + OFFSET) % n == (j + OFFSET) % n ==> i == j)
  {
    PageOf(i + OFFSET, PerPage(pageSize), pages);
    PageOf(j + OFFSET, PerPage(pageSize), pages);
  }

  /** The ring that aio_setup_ring makes has that layout, for every page size that slots fill evenly. */
  lemma SetupFits(wanted: nat, pageSize: nat)
    requires pageSize > 0 && pageSize % EVENT_BYTES == 0
    ensures Fits(RingEvents(wanted, pageSize), pageSize, RingPages(wanted, pageSize))
  {
    var n, pages := PerPage(pageSize), RingPages(wanted, pageSize);
    CeilDivBounds(HEADER_BYTES + EVENT_BYTES * (wanted + 2), pageSize);
    assert pageSize == EVENT_BYTES * n;
    assert pageSize * pages == EVENT_BYTES * (n * pages);
  }

  // ---- the queue a ring stands for -----------------------------------------------------------------------------

  type Pages = seq<seq<Event>>

  ghost predicate Laid(pages: Pages, n: nat, nrEvents: nat) {
    && n > 0 && nrEvents > 0 && nrEvents + OFFSET == n * |pages|
    && forall p :: 0 <= p < |pages| ==> |pages[p]| == n
  }

  ghost function EventAt(pages: Pages, n: nat, nrEvents: nat, i: nat): Event
    requires Laid(pages, n, nrEvents) && i < nrEvents
  {
    PageOf(i + OFFSET, n, |pages|);
    pages[(i + OFFSET) / n][(i + OFFSET) % n]
  }

  /** A position at most one lap ahead, brought back into the ring. */
  function Wrap(x: nat, nrEvents: nat): nat { if x < nrEvents then x else x - nrEvents }

  lemma WrapIsMod(x: nat, nrEvents: nat)
    requires 0 < nrEvents && x < 2 * nrEvents
    ensures Wrap(x, nrEvents) == x % nrEvents
  {
    if x < nrEvents { ModUnique(x, nrEvents, 0, x); } else { ModUnique(x, nrEvents, 1, x - nrEvents); }
  }

  /** The events from the head up to the tail, oldest first. */
  ghost function Queue(pages: Pages, n: nat, nrEvents: nat, head: nat, tail: nat): (q: seq<Event>)
    requires Laid(pages, n, nrEvents) && head < nrEvents && tail < nrEvents
    ensures |q| == Distance(head, tail, nrEvents)
    ensures forall k :: 0 <= k < |q| ==> q[k] == EventAt(pages, n, nrEvents, Wrap(head + k, nrEvents))
  {
    seq(Distance(head, tail, nrEvents), k requires 0 <= k < Distance(head, tail, nrEvents) =>
      EventAt(pages, n, nrEvents, Wrap(head + k, nrEvents)))
  }

  function Min(a: int, b: int): int { if a < b then a else b }

  /** Events that follow each other in one page follow each other in the queue. */
  lemma ChunkIsQueue(pages: Pages, n: nat, nrEvents: nat, head: nat, tail: nat, p: nat, pos: nat, len: nat)
    requires Laid(pages, n, nrEvents) && head < nrEvents && tail < nrEvents
    requires len <= (if head <= tail then tail else nrEvents) - head
    requires p < |pages| && head + OFFSET == n * p + pos && pos + len <= n
    ensures pages[p][pos..pos + len] == Queue(pages, n, nrEvents, head, tail)[..len]
  {
    forall k | 0 <= k < len
      ensures pages[p][pos + k] == Queue(pages, n, nrEvents, head, tail)[k]
    {
      DivUnique(head + k + OFFSET, n, p, pos + k);
    }
  }

  /** Taking `k` events off the front. */
  lemma QueueDrop(pages: Pages, n: nat, nrEvents: nat, head: nat, tail: nat, k: nat)
    requires Laid(pages, n, nrEvents) && head < nrEvents && tail < nrEvents && k <= Distance(head, tail, nrEvents)
    ensures Queue(pages, n, nrEvents, Wrap(head + k, nrEvents), tail) == Queue(pages, n, nrEvents, head, tail)[k..]
  {
    var q, q' := Queue(pages, n, nrEvents, head, tail), Queue(pages, n, nrEvents, Wrap(head + k, nrEvents), tail);
    forall j | 0 <= j < |q'| ensures q'[j] == q[k..][j] {
      assert Wrap(Wrap(head + k, nrEvents) + j, nrEvents) == Wrap(head + (k + j), nrEvents);
    }
  }

  /** Publishing an event in a ring that is not full puts it at the back of the queue. */
  lemma QueueAppend(pages: Pages, pages': Pages, n: nat, nrEvents: nat, head: nat, tail: nat, e: Event)
    requires Laid(pages, n, nrEvents) && Laid(pages', n, nrEvents) && head < nrEvents && tail < nrEvents
    requires Distance(head, tail, nrEvents) + 1 < nrEvents && EventAt(pages', n, nrEvents, tail) == e
    requires forall i :: 0 <= i < nrEvents && i != tail ==>
               EventAt(pages', n, nrEvents, i) == EventAt(pages, n, nrEvents, i)
    ensures Queue(pages', n, nrEvents, head, Wrap(tail + 1, nrEvents)) ==
            Queue(pages, n, nrEvents, head, tail) + [e]
  {
    var q, q' := Queue(pages, n, nrEvents, head, tail), Queue(pages', n, nrEvents, head, Wrap(tail + 1, nrEvents));
    forall k | 0 <= k < |q'| ensures q'[k] == (q + [e])[k] {
      assert k < |q| ==> Wrap(head + k, nrEvents) != tail;
      assert k == |q| ==> Wrap(head + k, nrEvents) == tail;
    }
  }

  /** The accounting of slots leaves room for every event: when `aio_complete` publishes, the ring is not full as seen
      from the reader's position, so the event goes to the back of the queue. */
  lemma RoomToPublish(states: seq<Slots>, steps: seq<Step>, since: seq<nat>, k: nat)
    requires Run(states, steps) && HonestRun(states, steps, since) && k < |steps| && steps[k].Complete?
    ensures var s := states[k]; Distance(s.consumed % s.nrEvents, Tail(s), s.nrEvents) + 1 < s.nrEvents
  {
    RunConserves(states, steps, k);
    RunNeverOverruns(states, steps, since, k);
    LessThanLap(states[k], states[k].consumed);
    DistanceIsCount(states[k].consumed, states[k].published, states[k].nrEvents);
  }

  // ---- the code ----------------------------------------------------------------------------------------------------

  datatype ReadResult = Copied(events: seq<Event>) | Efault

  /** One chunk: as many events as the tail, the end of the ring, the end of the page and the caller allow. */
  lemma ChunkAdvances(pages: Pages, n: nat, nrEvents: nat, h0: nat, tail: nat, done: nat, p: nat, pos: nat, len: nat)
    requires Laid(pages, n, nrEvents) && h0 < nrEvents && tail < nrEvents
    requires done <= Distance(h0, tail, nrEvents)
    requires var head := Wrap(h0 + done, nrEvents);
             && len <= (if head <= tail then tail else nrEvents) - head
             && p < |pages| && head + OFFSET == n * p + pos && pos + len <= n
    ensures var q := Queue(pages, n, nrEvents, h0, tail);
            && done + len <= |q| && pages[p][pos..pos + len] == q[done..done + len]
            && (Wrap(h0 + done, nrEvents) + len) % nrEvents == Wrap(h0 + done + len, nrEvents)
  {
    var head := Wrap(h0 + done, nrEvents);
    QueueDrop(pages, n, nrEvents, h0, tail, done);
    ChunkIsQueue(pages, n, nrEvents, head, tail, p, pos, len);
    WrapIsMod(head + len, nrEvents);
  }

  /** The copy loop of aio_read_events_ring: the longest prefix of the queue that the caller asked for. */
  method CopyOut(pages: Pages, n: nat, nrEvents: nat, h0: nat, tail: nat, nr: int, room: nat)
    returns (r: ReadResult, head: nat)
    requires Laid(pages, n, nrEvents) && h0 < nrEvents && tail < nrEvents
    ensures var q := Queue(pages, n, nrEvents, h0, tail);
            var most := if nr < 0 then 0 else Min(nr, |q|);
            if most <= room then r == Copied(q[..most]) && head == (h0 + most) % nrEvents else r == Efault
  {
    ghost var q := Queue(pages, n, nrEvents, h0, tail);
    var out: seq<Event> := [];
    head := h0;
    while |out| < nr
      invariant |out| <= |q| && out == q[..|out|] && |out| <= room && |out| <= if nr < 0 then 0 else nr
      invariant head == Wrap(h0 + |out|, nrEvents)
      decreases nr - |out|
    {
      var avail := (if head <= tail then tail else nrEvents) - head;
      if head == tail {
        break;
      }
      var pos := head + OFFSET;
      PageOf(pos, n, |pages|);
      var page := pages[pos / n];
      ghost var p := pos / n;
      pos := pos % n;
      avail := Min(avail, nr - |out|);
      avail := Min(avail, n - pos);
      if |out| + avail > room {
        ChunkAdvances(pages, n, nrEvents, h0, tail, |out|, p, pos, avail);
        return Efault, head;
      }
      ChunkAdvances(pages, n, nrEvents, h0, tail, |out|, p, pos, avail);
      out := out + page[pos..pos + avail];
      head := (head + avail) % nrEvents;
    }
    WrapIsMod(h0 + |out|, nrEvents);
    r := Copied(out);
  }

  class Ring {
    const n: nat         // AIO_EVENTS_PER_PAGE
    const nrEvents: nat
    var pages: Pages
    var tail: nat
    var ringHead: nat    // these two live in the first page, where userland can write them
    var ringTail: nat

    ghost predicate Valid()
      reads this
    {
      Laid(pages, n, nrEvents) && tail < nrEvents
    }

    ghost function Unread(): seq<Event>
      requires Valid()
      reads this
    {
      Queue(pages, n, nrEvents, ringHead % nrEvents, ringTail % nrEvents)
    }

    /** The ring's part of aio_complete. */
    method Publish(e: Event)
      requires Valid()
      modifies `pages, `tail, `ringTail
      ensures Valid() && tail == Wrap(old(tail) + 1, nrEvents) && ringTail == tail
      ensures forall h :: 0 <= h < nrEvents && Distance(h, old(tail), nrEvents) + 1 < nrEvents ==>
                Queue(pages, n, nrEvents, h, tail) == Queue(old(pages), n, nrEvents, h, old(tail)) + [e]
    {
      var pos := tail + OFFSET;
      var t := tail + 1;
      if t >= nrEvents {
        t := 0;
      }
      ghost var before := pages;
      PageOf(pos, n, |pages|);
      pages := pages[pos / n := pages[pos / n][pos % n := e]];
      forall i | 0 <= i < nrEvents && i != tail
        ensures EventAt(pages, n, nrEvents, i) == EventAt(before, n, nrEvents, i)
      {
        PageOf(i + OFFSET, n, |pages|);
      }
      forall h | 0 <= h < nrEvents && Distance(h, tail, nrEvents) + 1 < nrEvents
        ensures Queue(pages, n, nrEvents, h, t) == Queue(before, n, nrEvents, h, tail) + [e]
      {
        QueueAppend(before, pages, n, nrEvents, h, tail, e);
      }
      tail := t;
      ringTail := t;
    }

    /** aio_read_events_ring: copy out at most `nr` events.  The caller's buffer can take `room` of them
        before the copy faults. */
    method ReadEvents(nr: int, room: nat) returns (r: ReadResult)
      requires Valid()
      modifies `ringHead
      ensures Valid()
      ensures var most := if nr < 0 then 0 else Min(nr, |old(Unread())|);
              if most <= room then
                && r == Copied(old(Unread())[..most])
                && r.events + Unread() == old(Unread())
                && ringHead == (if old(ringHead) == ringTail then old(ringHead)
                                else (old(ringHead) + most) % nrEvents)
              else r == Efault && ringHead == old(ringHead) && Unread() == old(Unread())
    {
      var head, rtail := ringHead, ringTail;
      if head == rtail {
        return Copied([]);
      }
      r, head := CopyOut(pages, n, nrEvents, head % nrEvents, rtail % nrEvents, nr, room);
      if r.Efault? {
        return;
      }
      ModShift(ringHead, |r.events|, nrEvents);
      WrapIsMod(ringHead % nrEvents + |r.events|, nrEvents);
      QueueDrop(pages, n, nrEvents, ringHead % nrEvents, ringTail % nrEvents, |r.events|);
      ringHead := head;
      ModUnique(head, nrEvents, 0, head);
    }
  }

  lemma ModShift(x: nat, k: nat, n: nat)
    requires 0 < n
    ensures (x % n + k) % n == (x + k) % n
  {
    assert x == n * (x / n) + x % n;
    var y := x % n + k;
    assert y == n * (y / n) + y % n;
    assert n * (x / n + y / n) == n * (x / n) + n * (y / n);
    ModUnique(x + k, n, x / n + y / n, y % n);
  }
}
