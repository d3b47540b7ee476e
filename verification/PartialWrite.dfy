/** Writing part of a page through its buffers: `__block_write_begin`, the copy of the caller's data, and
    `__block_commit_write`.

    The page is its blocks of `bs` bytes; byte `y` of block `i` is at page offset `Start(bs, i) + y`.  What the file
    holds under the page before the write is the logical content: memory where it is known to be up to date, the disk
    block where there is one, and zeros in a hole. */
module PartialWrite {
  import opened Wrappers

  type Byte = bv8
  type Block = seq<Byte>

  datatype Buf = Buf(mapped: bool, uptodate: bool, isNew: bool, dirty: bool)

  /** What `get_block` answers: an error, or a disk block that it had to allocate or not. */
  datatype Answer = Failed | Found(wasHole: bool)

  function Zeros(n: nat): Block { seq(n, _ => 0) }

  /** A block with its bytes `lo` to `hi` set to zero; nothing if the range is empty. */
  function Zeroed(b: Block, lo: int, hi: int): (r: Block)
    ensures |r| == |b|
  {
    seq(|b|, y requires 0 <= y < |b| => if lo <= y < hi then 0 else b[y])
  }

  /** The page offset of block `i`. */
  function Start(bs: nat, i: nat): nat { if i == 0 then 0 else Start(bs, i - 1) + bs }

  predicate Overlaps(bs: nat, from: nat, to: nat, i: nat) { !(Start(bs, i) + bs <= from || Start(bs, i) >= to) }

  function Committed(b: Buf, overlaps: bool): Buf {
    if overlaps then b.(uptodate := true, dirty := true, isNew := false) else b.(isNew := false)
  }

  /** What a block holds after the write: the new data inside the range, the old bytes outside it. */
  function Overlaid(b: Block, start: nat, from: nat, data: Block): (r: Block)
    ensures |r| == |b|
  {
    seq(|b|, y requires 0 <= y < |b| => if from <= start + y < from + |data| then data[start + y - from] else b[y])
  }

  /** Equal outside the range. */
  predicate SameOutside(a: Block, b: Block, start: nat, from: nat, to: nat) {
    |a| == |b| && forall y :: 0 <= y < |a| && !(from <= start + y < to) ==> a[y] == b[y]
  }

  /** A block of the range that waits for no read is mapped and right outside the range; the rest of the page is
      known to be up to date if the page is. */
  predicate Settled(bs: nat, from: nat, to: nat, page: bool, j: nat, b: Buf, waits: bool, m: Block, c: Block) {
    && (Overlaps(bs, from, to, j) ==> b.mapped && (waits || SameOutside(m, c, Start(bs, j), from, to)))
    && (page ==> b.uptodate)
  }

  /** A buffer of the range that is marked new was a hole and is zero outside the range. */
  predicate NewGood(bs: nat, from: nat, to: nat, page: bool, j: nat, b: Buf, m: Block, c: Block) {
    b.isNew && Overlaps(bs, from, to, j) ==> !page && c == Zeros(bs) && SameOutside(m, c, Start(bs, j), from, to)
  }

  /** A block with its part of the range set to zero. */
  function ZeroedIn(bs: nat, from: nat, to: nat, j: nat, b: Block): Block {
    var start, end := Start(bs, j), Start(bs, j) + bs;
    Zeroed(b, (if from > start then from else start) - start, (if to < end then to else end) - start)
  }

  lemma HoleZeroedIn(bs: nat, from: nat, to: nat, page: bool, j: nat, b: Buf, m: Block, c: Block)
    requires NewGood(bs, from, to, page, j, b, m, c) && b.isNew && Overlaps(bs, from, to, j) && |m| == bs
    ensures ZeroedIn(bs, from, to, j, m) == c
  {
  }

  /** `get_block` is asked for buffer `f` of the range and fails. */
  predicate Fails(bs: nat, from: nat, to: nat, bufs: seq<Buf>, answers: seq<Answer>, f: nat) {
    f < |bufs| && f < |answers| && Overlaps(bs, from, to, f) && !bufs[f].mapped && answers[f].Failed?
  }

  ghost predicate AnyFails(bs: nat, from: nat, to: nat, bufs: seq<Buf>, answers: seq<Answer>) {
    exists f: nat :: Fails(bs, from, to, bufs, answers, f)
  }

  /** A buffer of the range still marked new from before, behind one for which `get_block` fails: the mark is not taken
      off it. */
  ghost predicate StaleBehind(bs: nat, from: nat, to: nat, bufs: seq<Buf>, answers: seq<Answer>, j: nat) {
    && j < |bufs| && Overlaps(bs, from, to, j) && bufs[j].isNew
    && exists f: nat :: f < j && Fails(bs, from, to, bufs, answers, f)
  }

  /** What becomes of one buffer of the range: nothing more to do, a read to wait for, or an error. */
  datatype Begun = Set | MustRead | NoBlock

  /** A buffer and its block after `page_zero_new_buffers`. */
  function NewCleared(bs: nat, from: nat, to: nat, page: bool, j: nat, b: Buf): Buf {
    if b.isNew && Overlaps(bs, from, to, j) then b.(isNew := false, dirty := true, uptodate := b.uptodate || !page)
    else b
  }

  function NewZeroed(bs: nat, from: nat, to: nat, page: bool, j: nat, b: Buf, m: Block): Block {
    if b.isNew && Overlaps(bs, from, to, j) && !page then ZeroedIn(bs, from, to, j, m) else m
  }

  /** The stale marks left are those of the range behind the buffer at which the loop stopped. */
  lemma StaleIff(bs: nat, from: nat, to: nat, bufs: seq<Buf>, answers: seq<Answer>, stop: nat, failed: bool)
    requires stop <= |bufs| == |answers|
    requires if failed then stop > 0 && Fails(bs, from, to, bufs, answers, stop - 1) else stop == |bufs|
    requires forall f :: 0 <= f < (if failed then stop - 1 else stop) ==> !Fails(bs, from, to, bufs, answers, f)
    ensures forall j :: 0 <= j < |bufs| ==>
              (StaleBehind(bs, from, to, bufs, answers, j) <==>
               stop <= j && bufs[j].isNew && Overlaps(bs, from, to, j))
  {
  }

  /** Zeros in the range make the blocks with a stale mark what they should be. */
  ghost predicate StaleHarmless(bs: nat, from: nat, to: nat, bufs: seq<Buf>, answers: seq<Answer>, mem: seq<Block>,
                                content: seq<Block>)
    requires |mem| == |content| == |bufs|
  {
    forall j :: 0 <= j < |bufs| && StaleBehind(bs, from, to, bufs, answers, j) ==>
      ZeroedIn(bs, from, to, j, mem[j]) == content[j]
  }

  class PageBuffers {
    const bs: nat
    var bufs: seq<Buf>
    var mem: seq<Block>
    var uptodate: bool

    constructor (bs: nat, bufs: seq<Buf>, mem: seq<Block>, uptodate: bool)
      ensures this.bs == bs && this.bufs == bufs && this.mem == mem && this.uptodate == uptodate
    {
      this.bs, this.bufs, this.mem, this.uptodate := bs, bufs, mem, uptodate;
    }

    predicate Shape()
      reads `bufs, `mem
    {
      bs > 0 && |mem| == |bufs| && forall i :: 0 <= i < |mem| ==> |mem[i]| == bs
    }

    /** Every block that is flagged up to date, by its buffer or by the page, holds the logical content. */
    ghost predicate Known(content: seq<Block>)
      reads this
    {
      && Shape() && |content| == |mem| && (forall i :: 0 <= i < |content| ==> |content[i]| == bs)
      && forall i :: 0 <= i < |mem| && (uptodate || bufs[i].uptodate) ==> mem[i] == content[i]
    }

    /** What the file system and the disk answer is the logical content: an allocated block was a hole, and any other
        block reads as what it holds. */
    ghost predicate Faithful(content: seq<Block>, answers: seq<Answer>, disk: seq<Option<Block>>)
      reads this
    {
      && |content| == |answers| == |disk| == |bufs|
      && (forall i :: 0 <= i < |bufs| && !bufs[i].mapped && answers[i] == Found(true) ==> content[i] == Zeros(bs))
      && (forall i :: 0 <= i < |bufs| && disk[i].Some? ==> disk[i].value == content[i])
    }

    /** A block is ready to take the data: what the data does not cover is right already. */
    ghost predicate Ready(content: seq<Block>, from: nat, to: nat, i: nat)
      requires i < |mem| && i < |content|
      reads `mem
    {
      SameOutside(mem[i], content[i], Start(bs, i), from, to)
    }

    /** The copy of the caller's data into the page. */
    method CopyIn(from: nat, data: Block)
      requires Shape()
      modifies `mem
      ensures Shape() && |mem| == |old(mem)|
      ensures forall i :: 0 <= i < |mem| ==> mem[i] == Overlaid(old(mem[i]), Start(bs, i), from, data)
    {
      mem := seq(|mem|, i requires 0 <= i < |mem| reads this => Overlaid(mem[i], Start(bs, i), from, data));
    }

    /** `__block_commit_write`. */
    method Commit(from: nat, to: nat)
      requires Shape()
      modifies `bufs, `uptodate
      ensures Shape()
      ensures forall i :: 0 <= i < |bufs| ==>
                bufs[i] == Committed(old(bufs[i]), Overlaps(bs, from, to, i))
      ensures uptodate <==> old(uptodate) || forall i :: 0 <= i < |bufs| ==> bufs[i].uptodate
    {
      var partial := false;
      var start := 0;
      for i := 0 to |bufs|
        invariant Shape() && |bufs| == |old(bufs)| && start == Start(bs, i) && uptodate == old(uptodate)
        invariant forall j :: 0 <= j < i ==>
                    bufs[j] == Committed(old(bufs[j]), Overlaps(bs, from, to, j))
        invariant forall j :: i <= j < |bufs| ==> bufs[j] == old(bufs[j])
        invariant !partial <==> forall j :: 0 <= j < i ==> bufs[j].uptodate
      {
        var end := start + bs;
        if end <= from || start >= to {
          if !bufs[i].uptodate {
            partial := true;
          }
        } else {
          bufs := bufs[i := bufs[i].(uptodate := true, dirty := true)];
        }
        bufs := bufs[i := bufs[i].(isNew := false)];
        start := end;
      }
      if !partial {
        uptodate := true;
      }
    }

    /** A buffer of the range that `get_block` has just allocated. */
    method TakeNew(i: nat, start: nat, from: nat, to: nat, ghost content: seq<Block>)
      requires Known(content) && i < |bufs| && start == Start(bs, i) && content[i] == Zeros(bs)
      requires bufs[i].isNew
      modifies `bufs, `mem
      ensures Known(content) && |bufs| == |old(bufs)|
      ensures uptodate ==> bufs[i].uptodate && !bufs[i].isNew && bufs[i].dirty && mem == old(mem)
      ensures !uptodate ==> bufs == old(bufs)
      ensures Ready(content, from, to, i) && bufs[i].mapped == old(bufs[i].mapped)
      ensures forall j :: 0 <= j < |bufs| && j != i ==> bufs[j] == old(bufs[j]) && mem[j] == old(mem[j])
    {
      if uptodate {
        bufs := bufs[i := bufs[i].(isNew := false, uptodate := true, dirty := true)];
        return;
      }
      if start + bs > to || start < from {
        mem := mem[i := Zeroed(Zeroed(mem[i], to - start, bs), 0, from - start)];
      }
    }

    /** A buffer of the range, in the loop of `__block_write_begin_int`. */
    method BeginBlock(i: nat, start: nat, from: nat, to: nat, answer: Answer, ghost content: seq<Block>)
      returns (r: Begun)
      requires Known(content) && i < |bufs| && start == Start(bs, i)
      requires !bufs[i].mapped && answer == Found(true) ==> content[i] == Zeros(bs)
      modifies `bufs, `mem
      ensures Known(content) && |bufs| == |old(bufs)|
      ensures forall j :: 0 <= j < |bufs| && j != i ==> bufs[j] == old(bufs[j]) && mem[j] == old(mem[j])
      ensures r.NoBlock? <==> !old(bufs[i].mapped) && answer.Failed?
      ensures r.NoBlock? ==> !bufs[i].isNew
      ensures !r.NoBlock? ==> bufs[i].mapped
      ensures r.Set? ==> Ready(content, from, to, i) && (uptodate ==> bufs[i].uptodate)
      ensures bufs[i].isNew ==> r.Set? && !uptodate && content[i] == Zeros(bs)
      ensures r.MustRead? ==> !bufs[i].uptodate && !uptodate && (start < from || start + bs > to)
    {
      if bufs[i].isNew {
        bufs := bufs[i := bufs[i].(isNew := false)];
      }
      if !bufs[i].mapped {
        if answer.Failed? {
          return NoBlock;
        }
        bufs := bufs[i := bufs[i].(mapped := true, isNew := answer.wasHole)];
        if bufs[i].isNew {
          TakeNew(i, start, from, to, content);
          return Set;
        }
      }
      if uptodate {
        if !bufs[i].uptodate {
          bufs := bufs[i := bufs[i].(uptodate := true)];
        }
        return Set;
      }
      if !bufs[i].uptodate && (start < from || start + bs > to) {
        return MustRead;
      }
      r := Set;
    }

    /** One round of the loop of `__block_write_begin_int`, in the range or not. */
    method BeginOne(i: nat, start: nat, from: nat, to: nat, answers: seq<Answer>, ghost content: seq<Block>)
      returns (err: bool, queued: bool)
      requires Known(content) && i < |bufs| == |answers| && start == Start(bs, i)
      requires !bufs[i].mapped && answers[i] == Found(true) ==> content[i] == Zeros(bs)
      modifies `bufs, `mem
      ensures Known(content) && |bufs| == |old(bufs)|
      ensures forall j :: 0 <= j < |bufs| && j != i ==> bufs[j] == old(bufs[j]) && mem[j] == old(mem[j])
      ensures err <==> Fails(bs, from, to, old(bufs), answers, i)
      ensures !err ==> Settled(bs, from, to, uptodate, i, bufs[i], queued, mem[i], content[i])
      ensures NewGood(bs, from, to, uptodate, i, bufs[i], mem[i], content[i])
      ensures queued ==> start < to && start + bs > from && (start < from || start + bs > to)
    {
      err, queued := false, false;
      var end := start + bs;
      if end <= from || start >= to {
        if uptodate && !bufs[i].uptodate {
          bufs := bufs[i := bufs[i].(uptodate := true)];
        }
      } else {
        var r := BeginBlock(i, start, from, to, answers[i], content);
        err, queued := r.NoBlock?, r.MustRead?;
      }
    }

    /** The loop of `__block_write_begin_int`: all buffers, or those up to the first without a block.  `stop` of them
        were looked at. */
    method BeginAll(from: nat, to: nat, answers: seq<Answer>, ghost content: seq<Block>, ghost disk: seq<Option<Block>>)
      returns (err: bool, wait: seq<nat>, ghost stop: nat)
      requires Known(content) && Faithful(content, answers, disk) && from <= to
      modifies `bufs, `mem
      ensures Known(content) && |bufs| == |old(bufs)|
      ensures |wait| <= 2 && forall k :: 0 <= k < |wait| ==> wait[k] < stop
      ensures !err ==> forall j :: 0 <= j < |bufs| ==>
                Settled(bs, from, to, uptodate, j, bufs[j], j in wait, mem[j], content[j])
      ensures stop <= |bufs| && forall j :: stop <= j < |bufs| ==> bufs[j] == old(bufs[j]) && mem[j] == old(mem[j])
      ensures forall j :: 0 <= j < stop ==> NewGood(bs, from, to, uptodate, j, bufs[j], mem[j], content[j])
      ensures if err then stop > 0 && Fails(bs, from, to, old(bufs), answers, stop - 1) else stop == |bufs|
      ensures forall f :: 0 <= f < (if err then stop - 1 else stop) ==> !Fails(bs, from, to, old(bufs), answers, f)
    {
      err, wait, stop := false, [], 0;
      var start := 0;
      for i := 0 to |bufs|
        invariant Known(content) && |bufs| == |old(bufs)| && start == Start(bs, i) && !err && stop == i
        invariant forall j :: i <= j < |bufs| ==> bufs[j] == old(bufs[j]) && mem[j] == old(mem[j])
        invariant forall k :: 0 <= k < |wait| ==> wait[k] < i
        invariant |wait| <= (if from < start then 1 else 0) + (if to < start then 1 else 0)
        invariant forall j :: 0 <= j < i ==>
                    Settled(bs, from, to, uptodate, j, bufs[j], j in wait, mem[j], content[j])
        invariant forall j :: 0 <= j < i ==> NewGood(bs, from, to, uptodate, j, bufs[j], mem[j], content[j])
        invariant forall f :: 0 <= f < i ==> !Fails(bs, from, to, old(bufs), answers, f)
      {
        stop := i + 1;
        var queued;
        err, queued := BeginOne(i, start, from, to, answers, content);
        if err {
          return;
        }
        if queued {
          wait := wait + [i];
        }
        start := start + bs;
      }
    }

    /** The reads that `__block_write_begin_int` waits for, last one first. */
    method AwaitReads(wait: seq<nat>, disk: seq<Option<Block>>, ghost content: seq<Block>) returns (err: bool)
      requires Known(content) && |disk| == |bufs|
      requires forall i :: 0 <= i < |disk| && disk[i].Some? ==> disk[i].value == content[i]
      requires forall k :: 0 <= k < |wait| ==> wait[k] < |bufs|
      modifies `bufs, `mem
      ensures Known(content) && |bufs| == |old(bufs)|
      ensures err <==> exists k :: 0 <= k < |wait| && disk[wait[k]].None?
      ensures forall k :: 0 <= k < |wait| && disk[wait[k]].Some? ==> mem[wait[k]] == content[wait[k]]
      ensures forall i :: 0 <= i < |bufs| ==> bufs[i] == old(bufs[i]).(uptodate := bufs[i].uptodate)
      ensures forall i :: 0 <= i < |bufs| ==> old(bufs[i]).uptodate ==> bufs[i].uptodate
      ensures forall i :: 0 <= i < |bufs| ==>
                (bufs[i] == old(bufs[i]) && mem[i] == old(mem[i])) || (i in wait && mem[i] == content[i])
    {
      err := false;
      var n := |wait|;
      while n > 0
        invariant 0 <= n <= |wait| && Known(content) && |bufs| == |old(bufs)|
        invariant err <==> exists k :: n <= k < |wait| && disk[wait[k]].None?
        invariant forall k :: n <= k < |wait| && disk[wait[k]].Some? ==> mem[wait[k]] == content[wait[k]]
        invariant forall i :: 0 <= i < |bufs| ==> bufs[i] == old(bufs[i]).(uptodate := bufs[i].uptodate)
        invariant forall i :: 0 <= i < |bufs| ==> old(bufs[i]).uptodate ==> bufs[i].uptodate
        invariant forall i :: 0 <= i < |bufs| ==>
                    (bufs[i] == old(bufs[i]) && mem[i] == old(mem[i])) || (i in wait && mem[i] == content[i])
      {
        n := n - 1;
        var i := wait[n];
        if disk[i].Some? {
          mem := mem[i := disk[i].value];
          bufs := bufs[i := bufs[i].(uptodate := true)];
        } else {
          err := true;
        }
      }
    }

    /** `page_zero_new_buffers`: buffers of the range that are marked new lose the mark and become dirty, and unless the
        page is up to date they become so with their part of the range set to zero. */
    method ZeroNew(from: nat, to: nat)
      requires Shape()
      modifies `bufs, `mem
      ensures Shape() && |bufs| == |old(bufs)|
      ensures forall j :: 0 <= j < |bufs| ==> bufs[j] == NewCleared(bs, from, to, uptodate, j, old(bufs[j]))
      ensures forall j :: 0 <= j < |bufs| ==> mem[j] == NewZeroed(bs, from, to, uptodate, j, old(bufs[j]), old(mem[j]))
    {
      var start := 0;
      for i := 0 to |bufs|
        invariant Shape() && |bufs| == |old(bufs)| && start == Start(bs, i)
        invariant forall j :: i <= j < |bufs| ==> bufs[j] == old(bufs[j]) && mem[j] == old(mem[j])
        invariant forall j :: 0 <= j < i ==> bufs[j] == NewCleared(bs, from, to, uptodate, j, old(bufs[j]))
        invariant forall j :: 0 <= j < i ==>
                    mem[j] == NewZeroed(bs, from, to, uptodate, j, old(bufs[j]), old(mem[j]))
      {
        var end := start + bs;
        if bufs[i].isNew && end > from && start < to {
          if !uptodate {
            var lo := if from > start then from else start;
            var hi := if to < end then to else end;
            mem := mem[i := Zeroed(mem[i], lo - start, hi - start)];
            bufs := bufs[i := bufs[i].(uptodate := true)];
          }
          bufs := bufs[i := bufs[i].(isNew := false, dirty := true)];
        }
        start := end;
      }
    }

    /** After an error: blocks that were looked at are right again, and those behind are exactly if zeros in the range
        make them so. */
    method Recover(from: nat, to: nat, ghost content: seq<Block>, ghost stop: nat)
      requires Known(content) && stop <= |bufs|
      requires forall j :: 0 <= j < stop ==> NewGood(bs, from, to, uptodate, j, bufs[j], mem[j], content[j])
      modifies `bufs, `mem
      ensures Shape() && |bufs| == |old(bufs)|
      ensures forall j :: 0 <= j < |bufs| && Overlaps(bs, from, to, j) ==> !bufs[j].isNew
      ensures Known(content) <==>
              uptodate ||
              forall j :: stop <= j < |bufs| && old(bufs[j]).isNew && Overlaps(bs, from, to, j) ==>
                ZeroedIn(bs, from, to, j, old(mem[j])) == content[j]
    {
      forall j | 0 <= j < stop && bufs[j].isNew && Overlaps(bs, from, to, j)
        ensures ZeroedIn(bs, from, to, j, mem[j]) == content[j]
      {
        HoleZeroedIn(bs, from, to, uptodate, j, bufs[j], mem[j], content[j]);
      }
      ZeroNew(from, to);
    }

    /** `__block_write_begin`.  Known blocks stay right, except exactly where an error leaves a stale mark: such a block
        is declared up to date with zeros in the range and whatever memory holds around it. */
    method Begin(from: nat, to: nat, answers: seq<Answer>, disk: seq<Option<Block>>, ghost content: seq<Block>)
      returns (err: bool)
      requires Known(content) && Faithful(content, answers, disk) && from <= to
      modifies `bufs, `mem
      ensures Shape() && |bufs| == |old(bufs)|
      ensures !err ==> Known(content)
      ensures !err ==> forall j :: 0 <= j < |bufs| && Overlaps(bs, from, to, j) ==>
                bufs[j].mapped && Ready(content, from, to, j)
      ensures err ==>
                (Known(content) <==> uptodate || StaleHarmless(bs, from, to, old(bufs), answers, old(mem), content))
      ensures err ==> forall j :: 0 <= j < |bufs| && Overlaps(bs, from, to, j) ==> !bufs[j].isNew
      ensures err ==> exists j :: 0 <= j < |bufs| && (answers[j].Failed? || disk[j].None?)
      ensures AnyFails(bs, from, to, old(bufs), answers) ==> err
    {
      var wait;
      ghost var stop;
      err, wait, stop := BeginAll(from, to, answers, content, disk);
      ghost var failed := err;
      label read:
      var unread := AwaitReads(wait, disk, content);
      if unread {
        err := true;
      }
      if err {
        forall j | 0 <= j < |bufs|
          ensures j < stop ==> NewGood(bs, from, to, uptodate, j, bufs[j], mem[j], content[j])
          ensures j >= stop ==> bufs[j] == old(bufs[j]) && mem[j] == old(mem[j])
        {
          assert j < stop ==> old@read(NewGood(bs, from, to, uptodate, j, bufs[j], mem[j], content[j]));
        }
        StaleIff(bs, from, to, old(bufs), answers, stop, failed);
        Recover(from, to, content, stop);
      }
    }

    /** A whole partial write.  If it succeeds, every block flagged up to date, by its buffer or by the page, holds the
        old content outside the range and the data inside it, and so do the blocks of the range.  If `begin` fails,
        what is up to date still holds the old content exactly if no stale mark was left. */
    method Write(from: nat, data: Block, answers: seq<Answer>, disk: seq<Option<Block>>, ghost content: seq<Block>)
      returns (err: bool)
      requires Known(content) && Faithful(content, answers, disk)
      modifies `bufs, `mem, `uptodate
      ensures |bufs| == |old(bufs)|
      ensures !err ==> Known(Written(bs, content, from, data))
      ensures !err ==> forall j :: 0 <= j < |bufs| && Overlaps(bs, from, from + |data|, j) ==>
                bufs[j].uptodate && bufs[j].mapped && bufs[j].dirty
      ensures err ==>
                (Known(content) <==>
                 old(uptodate) || StaleHarmless(bs, from, from + |data|, old(bufs), answers, old(mem), content))
      ensures AnyFails(bs, from, from + |data|, old(bufs), answers) ==> err
    {
      var to := from + |data|;
      err := Begin(from, to, answers, disk, content);
      if err {
        return;
      }
      CopyIn(from, data);
      Commit(from, to);
      forall j | 0 <= j < |bufs| && (uptodate || bufs[j].uptodate)
        ensures mem[j] == Overlaid(content[j], Start(bs, j), from, data)
      {
      }
    }
  }

  function Written(bs: nat, content: seq<Block>, from: nat, data: Block): seq<Block> {
    seq(|content|, i requires 0 <= i < |content| => Overlaid(content[i], Start(bs, i), from, data))
  }

  /** Two blocks of one byte, both written.  The second is on disk and still marked new; there is no block for the
      first.  The write fails, and the second block is then up to date with a zero that is not what the disk holds. */
  method StaleMarkExample() returns (p: PageBuffers, err: bool, content: seq<Block>)
    ensures content == [[0], [5]] && p.bs == 1 && err
    ensures !p.Known(content)
  {
    content := [[0], [5]];
    var answers := [Failed, Found(false)];
    p := new PageBuffers(1, [Buf(false, false, false, false), Buf(true, false, true, false)], [[0], [7]], false);
    assert Start(1, 1) == 1;
    assert Fails(1, 0, 2, p.bufs, answers, 0);
    assert StaleBehind(1, 0, 2, p.bufs, answers, 1);
    assert ZeroedIn(1, 0, 2, 1, p.mem[1])[0] == 0;
    err := p.Write(0, [1, 1], answers, [None, Some([5])], content);
  }
}
