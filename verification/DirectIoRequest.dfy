/** The request side of direct I/O: `do_direct_IO` walks the user's pages and the file together, maps file blocks to
    disk and hands page sections to the submission queue; the end of `do_blockdev_direct_IO` flushes the queue. */
module DirectIoRequest {
  import opened Arith
  import opened Wrappers
  import opened DirectIoSubmit

  /** A part of a user page, in blocks. */
  datatype Chunk = Chunk(page: Page, from: nat, to: nat)

  /** One block of page memory. */
  datatype Slot = Slot(page: Page, off: nat)

  /** What `get_block` answers: whether the file block is mapped, and then a run of filesystem blocks. */
  datatype Mapping = Mapping(mapped: bool, block: nat, count: nat, isNew: bool, boundary: bool)

  datatype Outcome = Done | NotBlock | Failed

  // ---- where the file is on disk -------------------------------------------------------------------------------

  /** The file blocks from `b` lie one after the other from disk block `block`. */
  predicate RunAt(disk: map<nat, nat>, b: nat, n: nat, block: nat) {
    forall x :: b <= x < b + n ==> x in disk && disk[x] == block + (x - b)
  }

  /** The contract of `get_block` for the filesystem block around file block `b`: the filesystem blocks of the
      mapping follow each other in the file and on disk. */
  predicate IsRun(disk: map<nat, nat>, f: nat, b: nat, m: Mapping)
    requires f > 0
  {
    m.count >= 1 && RunAt(disk, b - b % f, m.count * f, m.block * f)
  }

  function Slots(page: Page, off: nat, n: nat): seq<Slot> {
    if n == 0 then [] else Slots(page, off, n - 1) + [Slot(page, off + n - 1)]
  }

  /** The blocks of the user's buffer. */
  function UserSlots(chunks: seq<Chunk>): seq<Slot>
    requires forall i :: 0 <= i < |chunks| ==> chunks[i].from < chunks[i].to
  {
    if chunks == [] then [] else
      var c := chunks[|chunks| - 1];
      UserSlots(chunks[..|chunks| - 1]) + Slots(c.page, c.from, c.to - c.from)
  }

  /** Memory block `k` goes with file block `first + k`, wherever that is on disk. */
  function Placed(disk: map<nat, nat>, first: nat, slots: seq<Slot>): seq<Piece> {
    if slots == [] then [] else
      var k := |slots| - 1;
      Placed(disk, first, slots[..k]) +
      if first + k in disk then [Piece(slots[k].page, slots[k].off, disk[first + k])] else []
  }

  /** Memory blocks that go with a hole. */
  function OverHoles(disk: map<nat, nat>, first: nat, slots: seq<Slot>): seq<Slot> {
    if slots == [] then [] else
      var k := |slots| - 1;
      OverHoles(disk, first, slots[..k]) + if first + k in disk then [] else [slots[k]]
  }

  /** The file blocks that are on disk, of the `n` from `first`. */
  function FilesUpTo(disk: map<nat, nat>, first: nat, n: nat): seq<nat> {
    if n == 0 then [] else FilesUpTo(disk, first, n - 1) + if first + n - 1 in disk then [first + n - 1] else []
  }

  lemma {:induction false} FilesUpToRun(disk: map<nat, nat>, first: nat, n: nat, m: nat, block: nat)
    requires RunAt(disk, first + n, m, block)
    ensures FilesUpTo(disk, first, n + m) == FilesUpTo(disk, first, n) + Run(first + n, m)
  {
    if m > 0 {
      FilesUpToRun(disk, first, n, m - 1, block);
      assert first + n + m - 1 in disk;
      assert Run(first + n, m) == Run(first + n, m - 1) + [first + n + m - 1];
    }
  }

  /** Blocks that went out as `out` and belong at `own`: zeros in front, which are handed over too far behind, and the
      rest. */
  lemma OwnIff(out: seq<nat>, f: Files, own: seq<nat>, first: nat, part: nat, size: nat, rest: seq<nat>)
    requires CarriedFor(out, f) == true && part <= first && (size == 0 || size == part)
    requires f.log == Run(first, size) + rest && own == Run(first - part, size) + rest
    ensures out == own <==> !f.jumped && size == 0
  {
    if size > 0 {
      assert f.log[0] == first && own[0] == first - part;
    }
  }

  lemma {:induction false} SlotsLength(page: Page, off: nat, n: nat)
    ensures |Slots(page, off, n)| == n
  {
    if n > 0 {
      SlotsLength(page, off, n - 1);
    }
  }

  lemma {:induction false} SlotsJoin(page: Page, off: nat, n: nat, m: nat)
    ensures Slots(page, off, n + m) == Slots(page, off, n) + Slots(page, off + n, m)
  {
    if m > 0 {
      SlotsJoin(page, off, n, m - 1);
    }
  }

  lemma {:induction false} UserPrefix(chunks: seq<Chunk>, n: nat)
    requires forall i :: 0 <= i < |chunks| ==> chunks[i].from < chunks[i].to
    requires n <= |chunks|
    ensures UserSlots(chunks[..n]) <= UserSlots(chunks)
  {
    if n < |chunks| {
      var before := chunks[..|chunks| - 1];
      UserPrefix(before, n);
      assert before[..n] == chunks[..n];
    } else {
      assert chunks[..n] == chunks;
    }
  }

  lemma FedGrows(fed: seq<Slot>, page: Page, off: nat, n: nat, m: nat)
    ensures fed + Slots(page, off, n) + Slots(page, off + n, m) == fed + Slots(page, off, n + m)
  {
    SlotsJoin(page, off, n, m);
    Assoc(fed, Slots(page, off, n), Slots(page, off + n, m));
  }

  /** The part of chunk `n` up to `upto` continues the chunks before it. */
  lemma UserNext(chunks: seq<Chunk>, n: nat, upto: nat, fed: seq<Slot>)
    requires forall i :: 0 <= i < |chunks| ==> chunks[i].from < chunks[i].to
    requires n < |chunks| && chunks[n].from <= upto <= chunks[n].to
    requires |UserSlots(chunks[..n])| <= |fed|
    ensures var now := fed + Slots(chunks[n].page, chunks[n].from, upto - chunks[n].from);
            && (fed == UserSlots(chunks[..n]) ==> now <= UserSlots(chunks))
            && (fed == UserSlots(chunks[..n]) && upto == chunks[n].to ==> now == UserSlots(chunks[..n + 1]))
            && (upto == chunks[n].to ==> |UserSlots(chunks[..n + 1])| <= |now|)
  {
    var c := chunks[n];
    assert chunks[..n + 1][..n] == chunks[..n];
    SlotsJoin(c.page, c.from, upto - c.from, c.to - upto);
    UserPrefix(chunks, n + 1);
  }

  lemma PlacedNext(disk: map<nat, nat>, first: nat, slots: seq<Slot>, s: Slot)
    ensures Placed(disk, first, slots + [s]) == Placed(disk, first, slots) +
              if first + |slots| in disk then [Piece(s.page, s.off, disk[first + |slots|])] else []
    ensures OverHoles(disk, first, slots + [s]) == OverHoles(disk, first, slots) +
              if first + |slots| in disk then [] else [s]
  {
    assert (slots + [s])[..|slots|] == slots;
  }

  /** Blocks that lie one after the other in the file and on disk are placed as one section. */
  lemma {:induction false} PlacedRun(disk: map<nat, nat>, first: nat, slots: seq<Slot>, page: Page, off: nat,
                                     n: nat, block: nat)
    requires RunAt(disk, first + |slots|, n, block)
    ensures Placed(disk, first, slots + Slots(page, off, n)) ==
              Placed(disk, first, slots) + Pieces(page, off, n, block)
  {
    if n == 0 {
      assert slots + Slots(page, off, 0) == slots;
    } else {
      var before, last := slots + Slots(page, off, n - 1), Slot(page, off + n - 1);
      var p := Piece(page, off + n - 1, block + n - 1);
      calc {
        Placed(disk, first, slots + Slots(page, off, n));
        { Assoc(slots, Slots(page, off, n - 1), [last]); }
        Placed(disk, first, before + [last]);
        { SlotsLength(page, off, n - 1);
          PlacedNext(disk, first, before, last);
          assert disk[first + |before|] == block + n - 1; }
        Placed(disk, first, before) + [p];
        { PlacedRun(disk, first, slots, page, off, n - 1, block); }
        Placed(disk, first, slots) + Pieces(page, off, n - 1, block) + [p];
        { Assoc(Placed(disk, first, slots), Pieces(page, off, n - 1, block), [p]); }
        Placed(disk, first, slots) + Pieces(page, off, n, block);
      }
    }
  }

  lemma {:induction false} NoHoles(disk: map<nat, nat>, first: nat, slots: seq<Slot>, page: Page, off: nat,
                                   n: nat, block: nat)
    requires RunAt(disk, first + |slots|, n, block)
    ensures OverHoles(disk, first, slots + Slots(page, off, n)) == OverHoles(disk, first, slots)
  {
    if n == 0 {
      assert slots + Slots(page, off, 0) == slots;
    } else {
      var before, last := slots + Slots(page, off, n - 1), Slot(page, off + n - 1);
      NoHoles(disk, first, slots, page, off, n - 1, block);
      SlotsLength(page, off, n - 1);
      Assoc(slots, Slots(page, off, n - 1), [last]);
      PlacedNext(disk, first, before, last);
      assert first + |before| in disk;
    }
  }

  /** What is handed over and cleared, after `head` and for the memory blocks `slots`. */
  predicate Handed(disk: map<nat, nat>, first: nat, head: seq<Piece>, slots: seq<Slot>, log: seq<Piece>,
                   zeroed: seq<Slot>) {
    log == head + Placed(disk, first, slots) && zeroed == OverHoles(disk, first, slots)
  }

  lemma HandedRun(disk: map<nat, nat>, first: nat, head: seq<Piece>, slots: seq<Slot>, log: seq<Piece>,
                  zeroed: seq<Slot>, page: Page, off: nat, n: nat, block: nat)
    requires Handed(disk, first, head, slots, log, zeroed) && RunAt(disk, first + |slots|, n, block)
    ensures Handed(disk, first, head, slots + Slots(page, off, n), log + Pieces(page, off, n, block), zeroed)
  {
    PlacedRun(disk, first, slots, page, off, n, block);
    NoHoles(disk, first, slots, page, off, n, block);
    Assoc(head, Placed(disk, first, slots), Pieces(page, off, n, block));
  }

  lemma HandedHole(disk: map<nat, nat>, first: nat, head: seq<Piece>, slots: seq<Slot>, log: seq<Piece>,
                   zeroed: seq<Slot>, s: Slot)
    requires Handed(disk, first, head, slots, log, zeroed) && first + |slots| !in disk
    ensures Handed(disk, first, head, slots + [s], log, zeroed + [s])
  {
    PlacedNext(disk, first, slots, s);
  }

  /** The file blocks handed over for, `size` in front and then those of `n` memory blocks. */
  predicate HandedFor(disk: map<nat, nat>, first: nat, size: nat, n: nat, log: seq<nat>) {
    log == Run(first, size) + FilesUpTo(disk, first, n)
  }

  lemma HandedForRun(disk: map<nat, nat>, first: nat, size: nat, n: nat, log: seq<nat>, m: nat, block: nat)
    requires HandedFor(disk, first, size, n, log) && RunAt(disk, first + n, m, block)
    ensures HandedFor(disk, first, size, n + m, log + Run(first + n, m))
  {
    FilesUpToRun(disk, first, n, m, block);
    Assoc(Run(first, size), FilesUpTo(disk, first, n), Run(first + n, m));
  }

  lemma HandedBoth(disk: map<nat, nat>, first: nat, head: seq<Piece>, size: nat, slots: seq<Slot>, zeroed: seq<Slot>,
                   log: seq<Piece>, log': seq<Piece>, files: seq<nat>, files': seq<nat>, page: Page, off: nat, n: nat,
                   block: nat)
    requires Handed(disk, first, head, slots, log, zeroed) && HandedFor(disk, first, size, |slots|, files)
    requires RunAt(disk, first + |slots|, n, block)
    requires log' == log + Pieces(page, off, n, block) && files' == files + Run(first + |slots|, n)
    ensures Handed(disk, first, head, slots + Slots(page, off, n), log', zeroed)
    ensures HandedFor(disk, first, size, |slots| + n, files')
  {
    HandedRun(disk, first, head, slots, log, zeroed, page, off, n, block);
    HandedForRun(disk, first, size, |slots|, files, n, block);
  }

  lemma HandedNone(disk: map<nat, nat>, first: nat, head: seq<Piece>, size: nat)
    ensures Handed(disk, first, head, [], head, []) && HandedFor(disk, first, size, 0, Run(first, size))
  {
  }

  /** A mapping serves the file blocks from `b` to the end of its last filesystem block. */
  lemma MappingRun(disk: map<nat, nat>, f: nat, b: nat, m: Mapping, p: nat)
    requires f > 0 && IsRun(disk, f, b, m) && p <= b % f
    ensures m.count * f - b % f > 0
    ensures RunAt(disk, b - p, m.count * f - b % f + p, m.block * f + b % f - p)
    ensures (b + (m.count * f - b % f)) % f == 0
    ensures b - b % f in disk
  {
    MulBounds(f, m.count);
    assert (b / f + m.count) * f == b + (m.count * f - b % f) by {
      assert b == b / f * f + b % f;
    }
    DivMul(b / f + m.count, f);
  }

  // ---- the request -----------------------------------------------------------------------------------------------

  class Request {
    const disk: map<nat, nat>
    const factor: nat
    const isWrite: bool
    const chunks: seq<Chunk>
    const first: nat
    const final: nat
    /** The file size, in blocks rounded up. */
    const fileBlocks: nat
    /** Blocks in a page. */
    const perPage: nat
    const q: Submitter

    var map_bh: Mapping
    var blocksAvailable: nat
    var nextBlockForIo: nat
    var startZeroDone: bool
    var result: nat
    var pageErrors: bool
    var head: nat
    /** The blocks of read buffers cleared because the file has a hole there. */
    var zeroed: seq<Slot>
    /** The memory blocks that the request has come past, and whether its first filesystem block was new. */
    ghost var fed: seq<Slot>
    ghost var headNew: bool

    constructor (disk: map<nat, nat>, factor: nat, isWrite: bool, chunks: seq<Chunk>, first: nat, final: nat,
                 fileBlocks: nat, perPage: nat)
      requires factor > 0 && perPage > 0 && first <= final
      requires forall i :: 0 <= i < |chunks| ==> chunks[i].from < chunks[i].to
      requires |UserSlots(chunks)| == final - first
      ensures Inv() == true && BufferFits() && Settled() && fresh(q) && fed == [] && head == 0 && !pageErrors
      ensures q.cur.None? && !q.boundary && !q.ioError && !q.files.jumped
      ensures q.blockInFile == first && blocksAvailable == 0
      ensures this.disk == disk && this.factor == factor && this.isWrite == isWrite && this.chunks == chunks
      ensures this.first == first && this.final == final && this.fileBlocks == fileBlocks && this.perPage == perPage
    {
      this.disk, this.factor, this.isWrite, this.chunks := disk, factor, isWrite, chunks;
      this.first, this.final, this.fileBlocks, this.perPage := first, final, fileBlocks, perPage;
      q := new Submitter(first);
      map_bh := Mapping(false, 0, 0, false, false);
      blocksAvailable, nextBlockForIo, startZeroDone, result, pageErrors, head := 0, 0, false, 0, false, 0;
      zeroed, fed, headNew := [], [], false;
    }

    ghost predicate Fixed() {
      factor > 0 && first <= final
    }

    /** The user's buffer is as long as the request. */
    ghost predicate BufferFits() {
      && perPage > 0 && first <= final
      && (forall i :: 0 <= i < |chunks| ==> chunks[i].from < chunks[i].to)
      && |UserSlots(chunks)| == final - first
    }

    /** Zeros in front of the data, from the start of the first filesystem block. */
    ghost function Head(): seq<Piece>
      requires Fixed()
      reads `headNew, `startZeroDone
    {
      if HeadSize() > 0 then Pieces(ZERO_PAGE, 0, HeadSize(), disk[first - first % factor]) else []
    }

    ghost function HeadSize(): nat
      requires Fixed()
      reads `headNew, `startZeroDone
    {
      if headNew && startZeroDone && first - first % factor in disk then first % factor else 0
    }

    /** Zeros still to be written before the data can go where it maps to. */
    ghost function Pending(): nat
      requires Fixed()
      reads `map_bh, `startZeroDone, q`blockInFile
    {
      if map_bh.isNew && !startZeroDone then q.blockInFile % factor else 0
    }

    ghost predicate Progress()
      requires Fixed()
      reads q`blockInFile, `fed, `result
    {
      first <= q.blockInFile <= final && |fed| == q.blockInFile - first && result == |fed|
    }

    /** The blocks available are those that follow in the file, at the blocks they map to. */
    ghost predicate RunGood()
      requires Fixed()
      reads q`blockInFile, q`ioError, `map_bh, `blocksAvailable, `nextBlockForIo, `startZeroDone
    {
      blocksAvailable > 0 ==>
        && map_bh.mapped && (q.blockInFile + blocksAvailable) % factor == 0
        && (!q.ioError ==> RunAt(disk, q.blockInFile - Pending(), blocksAvailable + Pending(), nextBlockForIo))
    }

    /** A write stops inside a filesystem block only before its first mapping or with blocks still available. */
    ghost predicate HeadGood()
      requires Fixed()
      reads q`blockInFile, `map_bh, `blocksAvailable, `startZeroDone, `headNew
    {
      && (map_bh.isNew ==> map_bh.mapped && isWrite)
      && (headNew ==> isWrite && (first % factor != 0 ==> first - first % factor in disk))
      && (isWrite && !startZeroDone && factor > 1 ==> q.blockInFile == first && headNew == map_bh.isNew)
      && (isWrite && blocksAvailable == 0 && q.blockInFile % factor != 0 ==> !startZeroDone && !map_bh.isNew)
    }

    ghost predicate LogGood()
      requires Fixed()
      reads q`log, q`ioError, `fed, `headNew, `startZeroDone, `zeroed
    {
      !q.ioError ==> Handed(disk, first, Head(), fed, q.log, zeroed)
    }

    /** Zeros in front are handed over for the file blocks from `first`, and the data for its own. */
    ghost predicate FilesGood()
      requires Fixed()
      reads q`files, q`cur, q`ioError, `fed, `headNew, `startZeroDone
    {
      q.Led() && (!q.ioError ==> HandedFor(disk, first, HeadSize(), |fed|, q.files.log))
    }

    /** A write comes past no hole, and a read past none behind the end of the file. */
    ghost predicate HolesGood()
      reads q`blockInFile, q`ioError
    {
      !q.ioError ==> forall x :: first <= x < q.blockInFile && x !in disk ==> !isWrite && x < fileBlocks
    }

    /** The invariant is passed on whole, as `Inv() == true`, wherever its parts do not matter. */
    ghost predicate Inv()
      reads this, q
    {
      && Fixed() && q.Valid() && Progress() && RunGood() && HeadGood()
      && LogGood() && FilesGood() && HolesGood()
    }

    /** No zeros are owed in front of the data. */
    ghost predicate Settled()
      reads `headNew, `startZeroDone
    {
      headNew && factor > 1 ==> startZeroDone
    }

    /** `get_more_blocks`. */
    method GetMoreBlocks() returns (ok: bool)
      requires Fixed()
      modifies `map_bh
      ensures ok && map_bh.mapped ==> IsRun(disk, factor, q.blockInFile, map_bh)
      ensures ok && !map_bh.mapped ==> q.blockInFile !in disk
      ensures map_bh.isNew ==> map_bh == old(map_bh) || (ok && map_bh.mapped && isWrite)
      ensures ok ==> !pageErrors
    {
      if pageErrors {
        return false;
      }
      map_bh := Mapping(false, 0, 0, false, false);
      if q.blockInFile !in disk {
        return *;
      }
      var block: nat, count: nat, isNew: bool, boundary: bool := *, *, *, *;
      var m := Mapping(true, block, count, isNew && isWrite, boundary);
      ok := IsRun(disk, factor, q.blockInFile, m);
      if ok {
        map_bh := m;
      }
    }

    /** The blocks of a fresh mapping, from the current position on. */
    method TakeMapping()
      requires Fixed() && map_bh.count * factor - q.blockInFile % factor > 0
      modifies `blocksAvailable, `nextBlockForIo
      ensures blocksAvailable == map_bh.count * factor - q.blockInFile % factor
      ensures nextBlockForIo == map_bh.block * factor + if map_bh.isNew then 0 else q.blockInFile % factor
    {
      blocksAvailable := map_bh.count * factor;
      nextBlockForIo := map_bh.block * factor;
      if factor != 1 {
        var remainder := q.blockInFile % factor;
        if !map_bh.isNew {
          nextBlockForIo := nextBlockForIo + remainder;
        }
        blocksAvailable := blocksAvailable - remainder;
      }
    }

    /** A position inside a filesystem block with nothing mapped: only where a write starts. */
    ghost predicate AtEdge()
      requires Fixed()
      reads q`blockInFile, `startZeroDone
    {
      isWrite && q.blockInFile % factor != 0 ==> q.blockInFile == first && !startZeroDone
    }

    lemma HeadUnset()
      requires Fixed() && AtEdge() && q.blockInFile == first && isWrite
      ensures HeadSize() == 0
    {
    }

    /** The state between a mapping and its first use. */
    ghost predicate Unmapped()
      reads this, q
    {
      && Fixed() && q.Valid() && Progress() && LogGood() && FilesGood() && HolesGood()
      && AtEdge() && blocksAvailable == 0
      && (map_bh.isNew ==> isWrite)
      && (headNew ==> isWrite && (first % factor != 0 ==> first - first % factor in disk))
      && (isWrite && !startZeroDone && factor > 1 ==> q.blockInFile == first)
    }

    /** Whether the filesystem block that a write starts in is new. */
    method NoteHead()
      requires Fixed() && AtEdge() && (LogGood() == true) && (FilesGood() == true)
      requires map_bh.mapped && blocksAvailable > 0
      requires q.blockInFile == first && isWrite ==> first - first % factor in disk
      requires map_bh.isNew ==> isWrite
      requires headNew ==> isWrite && (first % factor != 0 ==> first - first % factor in disk)
      requires isWrite && !startZeroDone && factor > 1 ==> q.blockInFile == first
      modifies `headNew
      ensures (LogGood() == true) && (FilesGood() == true) && HeadGood()
    {
      if q.blockInFile == first && isWrite {
        HeadUnset();
        headNew := map_bh.isNew;
        HeadUnset();
      }
    }

    method UseMapping()
      requires (Unmapped() == true) && map_bh.mapped && IsRun(disk, factor, q.blockInFile, map_bh)
      modifies `blocksAvailable, `nextBlockForIo, `headNew
      ensures Inv() == true && blocksAvailable > 0
    {
      MappingRun(disk, factor, q.blockInFile, map_bh, Pending());
      TakeMapping();
      assert RunGood();
      NoteHead();
    }

    /** The mapping part of the loop in `do_direct_IO`. */
    method MapMore() returns (ok: bool)
      requires Inv() == true && Settled() && blocksAvailable == 0
      modifies `map_bh, `blocksAvailable, `nextBlockForIo, `headNew
      ensures Inv() == true
      ensures ok ==> (map_bh.mapped <==> blocksAvailable > 0)
      ensures ok && !map_bh.mapped ==> q.blockInFile !in disk
      ensures !ok ==> blocksAvailable == 0
      ensures blocksAvailable == 0 ==> Settled()
    {
      assert AtEdge();
      ok := GetMoreBlocks();
      if ok && map_bh.mapped {
        UseMapping();
      }
    }

    /** How many zeros `dio_zero_block` writes. */
    ghost function ZeroCount(end: bool): nat
      requires Fixed()
      reads `map_bh, q`blockInFile
    {
      var part := q.blockInFile % factor;
      if !map_bh.isNew || part == 0 then 0 else if end then factor - part else part
    }

    /** `dio_zero_block`. */
    method ZeroBlock(end: bool)
      requires Fixed() && (q.Valid() == true)
      modifies `startZeroDone, `nextBlockForIo, q`bio, q`submitted, q`boundary, q`finalBlockInBio, q`ioError, q`cur,
               q`log, q`sent, q`files
      ensures (q.Valid() == true) && startZeroDone
      ensures old(q.ioError) ==> q.ioError
      ensures old(q.Led()) ==> q.Led()
      ensures q.files.log == old(q.files.log) + Run(q.blockInFile, ZeroCount(end))
      ensures ZeroCount(end) == 0 ==> q.files == old(q.files)
      ensures q.log == old(q.log) + Pieces(ZERO_PAGE, 0, ZeroCount(end), old(nextBlockForIo))
      ensures !q.ioError ==> nextBlockForIo == old(nextBlockForIo) + ZeroCount(end)
    {
      startZeroDone := true;
      assert ZeroCount(end) == 0 ==> Pieces(ZERO_PAGE, 0, ZeroCount(end), nextBlockForIo) == [];
      assert ZeroCount(end) == 0 ==> Run(q.blockInFile, ZeroCount(end)) == [];
      if factor == 1 || !map_bh.isNew {
        return;
      }
      var count := q.blockInFile % factor;
      if count == 0 {
        return;
      }
      if end {
        count := factor - count;
      }
      var err := q.SubmitPageSection(ZERO_PAGE, 0, count, nextBlockForIo);
      if err {
        return;
      }
      nextBlockForIo := nextBlockForIo + count;
    }

    lemma HeadPlace()
      requires Inv() == true && !q.ioError && blocksAvailable > 0 && factor != 1 && !startZeroDone && map_bh.isNew
      ensures fed == [] && q.log == [] && q.files.log == [] && headNew && zeroed == []
      ensures first % factor != 0 ==> first - first % factor in disk && disk[first - first % factor] == nextBlockForIo
    {
    }

    /** Zeros in front of the first block are the first to be handed over. */
    method ZeroFirst()
      requires Fixed() && (q.Valid() == true) && LogGood() && FilesGood() && !startZeroDone
      requires map_bh.isNew ==> headNew && q.blockInFile == first
      requires !map_bh.isNew ==> !headNew
      requires map_bh.isNew && !q.ioError ==> fed == [] && q.log == [] && q.files.log == [] && zeroed == []
      requires map_bh.isNew && !q.ioError && first % factor != 0 ==>
        first - first % factor in disk && disk[first - first % factor] == nextBlockForIo
      modifies `startZeroDone, `nextBlockForIo, q`bio, q`submitted, q`boundary, q`finalBlockInBio, q`ioError, q`cur,
               q`log, q`sent, q`files
      ensures (q.Valid() == true) && LogGood() && FilesGood() && startZeroDone
      ensures old(q.ioError) ==> q.ioError
      ensures !q.ioError ==> nextBlockForIo == old(nextBlockForIo) + ZeroCount(false)
    {
      ZeroBlock(false);
      if !q.ioError {
        assert HeadSize() == ZeroCount(false);
        assert q.log == old(q.log) + Head() && q.files.log == old(q.files.log) + Run(first, HeadSize());
        if map_bh.isNew {
          HandedNone(disk, first, Head(), HeadSize());
        }
      }
    }

    /** The zeros before the first block of a write into a new filesystem block. */
    method StartZero()
      requires Inv() == true && blocksAvailable > 0
      modifies `startZeroDone, `nextBlockForIo, q`bio, q`submitted, q`boundary, q`finalBlockInBio, q`ioError, q`cur,
               q`log, q`sent, q`files
      ensures Inv() == true && Pending() == 0 && (factor != 1 ==> startZeroDone)
    {
      if factor != 1 && !startZeroDone {
        if map_bh.isNew && !q.ioError {
          HeadPlace();
        }
        ZeroFirst();
        assert Progress() && HeadGood();
        assert RunGood();
      }
    }

    /** A hole: a write gives up, a read clears the user's block unless it is past the end of the file. */
    method PassHole(page: Page, from: nat) returns (stop: Option<Outcome>)
      requires Inv() == true && Settled() && blocksAvailable == 0 && q.blockInFile < final
      requires q.blockInFile !in disk
      modifies `zeroed, `result, `fed, q`blockInFile
      ensures Inv() == true
      ensures stop.None? ==> fed == old(fed) + Slots(page, from, 1)
      ensures stop.Some? ==> fed == old(fed) && Reason(stop.value)
      ensures stop == if isWrite then Some(NotBlock)
                      else if old(q.blockInFile) >= fileBlocks then Some(Done) else None
    {
      if isWrite {
        return Some(NotBlock);
      }
      if q.blockInFile >= fileBlocks {
        return Some(Done);
      }
      if !q.ioError {
        HandedHole(disk, first, Head(), fed, q.log, zeroed, Slot(page, from));
      }
      assert Slots(page, from, 1) == [Slot(page, from)];
      zeroed := zeroed + [Slot(page, from)];
      q.blockInFile := q.blockInFile + 1;
      result := result + 1;
      fed := fed + Slots(page, from, 1);
      stop := None;
    }

    lemma RunSplits(b: nat, n: nat, block: nat, k: nat)
      requires Fixed() && RunAt(disk, b, n, block) && k <= n
      ensures RunAt(disk, b, k, block) && RunAt(disk, b + k, n - k, block + k)
    {
      forall x | b <= x < b + n ensures x in disk && disk[x] == block + (x - b) {}
    }

    /** The position moves on in the file and on disk. */
    method StepOn(n: nat)
      requires Fixed() && RunGood() && HeadGood() && Pending() == 0 && (factor != 1 ==> startZeroDone)
      requires 0 < n <= blocksAvailable && HolesGood()
      modifies `nextBlockForIo, `blocksAvailable, q`blockInFile
      ensures RunGood() && HeadGood() && HolesGood()
      ensures q.blockInFile == old(q.blockInFile) + n
    {
      if !q.ioError {
        RunSplits(q.blockInFile, blocksAvailable, nextBlockForIo, n);
      }
      nextBlockForIo := nextBlockForIo + n;
      q.blockInFile := q.blockInFile + n;
      blocksAvailable := blocksAvailable - n;
    }

    /** The submitted blocks are counted. */
    method Advance(page: Page, from: nat, n: nat)
      requires Fixed() && Progress() && RunGood() && HeadGood() && Pending() == 0 && (factor != 1 ==> startZeroDone)
      requires 0 < n <= blocksAvailable && q.blockInFile + n <= final && HolesGood()
      requires !q.ioError ==> Handed(disk, first, Head(), fed + Slots(page, from, n), q.log, zeroed) == true
      requires (q.Led() == true) && (!q.ioError ==> HandedFor(disk, first, HeadSize(), |fed| + n, q.files.log) == true)
      modifies `nextBlockForIo, `blocksAvailable, `result, `fed, q`blockInFile
      ensures Progress() && (RunGood() == true) && (HeadGood() == true)
      ensures (LogGood() == true) && (FilesGood() == true) && (HolesGood() == true)
      ensures fed == old(fed) + Slots(page, from, n)
    {
      SlotsLength(page, from, n);
      StepOn(n);
      result := result + n;
      fed := fed + Slots(page, from, n);
    }

    /** A chunk of a page is submitted, at a boundary if it is the last of its mapping. */
    method SubmitChunk(page: Page, from: nat, n: nat) returns (err: bool)
      requires (q.Valid() == true) && (q.Led() == true) && 0 < n
      modifies q`bio, q`submitted, q`boundary, q`finalBlockInBio, q`ioError, q`cur, q`log, q`sent, q`files
      ensures (q.Valid() == true) && (q.Led() == true)
      ensures q.log == old(q.log) + Pieces(page, from, n, nextBlockForIo)
      ensures q.files.log == old(q.files.log) + Run(q.blockInFile, n)
      ensures err || old(q.ioError) ==> q.ioError
      ensures q.files.jumped <==> old(q.files.jumped) || old(q.Jumps(page, from, n, nextBlockForIo))
      ensures old(q.cur.None? && !q.boundary && !map_bh.boundary) ==>
                q.cur == Some(Deferred(page, from, n, old(nextBlockForIo), old(q.blockInFile)))
    {
      if n == blocksAvailable {
        q.boundary := map_bh.boundary;
      }
      err := q.SubmitPageSection(page, from, n, nextBlockForIo);
    }

    /** A chunk of a page is handed over for the next disk blocks. */
    method HandOver(page: Page, from: nat, n: nat) returns (err: bool)
      requires Fixed() && (q.Valid() == true) && (LogGood() == true) && (FilesGood() == true)
      requires 0 < n && q.blockInFile == first + |fed|
      requires !q.ioError ==> RunAt(disk, q.blockInFile, n, nextBlockForIo)
      modifies q`bio, q`submitted, q`boundary, q`finalBlockInBio, q`ioError, q`cur, q`log, q`sent, q`files
      ensures (q.Valid() == true) && (q.Led() == true)
      ensures !q.ioError ==> Handed(disk, first, Head(), fed + Slots(page, from, n), q.log, zeroed) == true
      ensures !q.ioError ==> HandedFor(disk, first, HeadSize(), |fed| + n, q.files.log) == true
      ensures err || old(q.ioError) ==> q.ioError
      ensures q.files.jumped <==> old(q.files.jumped) || old(q.Jumps(page, from, n, nextBlockForIo))
      ensures old(q.cur.None? && !q.boundary) && !map_bh.boundary ==>
                q.cur == Some(Deferred(page, from, n, nextBlockForIo, q.blockInFile))
    {
      ghost var log, files := q.log, q.files.log;
      ghost var fine := !q.ioError;
      err := SubmitChunk(page, from, n);
      if fine {
        HandedBoth(disk, first, Head(), HeadSize(), fed, zeroed, log, q.log, files, q.files.log, page, from, n,
                   nextBlockForIo);
      }
    }

    /** A chunk of a page goes to the next disk blocks. */
    method SendChunk(page: Page, from: nat, n: nat) returns (err: bool)
      requires Inv() == true && Pending() == 0 && (factor != 1 ==> startZeroDone)
      requires 0 < n <= blocksAvailable && q.blockInFile + n <= final
      modifies `nextBlockForIo, `blocksAvailable, `result, `fed, q
      ensures Inv() == true
      ensures err ==> q.ioError && fed == old(fed)
      ensures !err ==> fed == old(fed) + Slots(page, from, n)
      ensures q.files.jumped <==> old(q.files.jumped) || old(q.Jumps(page, from, n, nextBlockForIo))
      ensures old(q.cur.None? && !q.boundary && !map_bh.boundary) ==>
                q.cur == Some(Deferred(page, from, n, old(nextBlockForIo), old(q.blockInFile)))
    {
      if !q.ioError {
        RunSplits(q.blockInFile, blocksAvailable, nextBlockForIo, n);
      }
      err := HandOver(page, from, n);
      if !err {
        Advance(page, from, n);
      }
    }

    /** The chunk is what the page, the mapping and the request all allow. */
    function ChunkSize(from: nat, to: nat): (n: nat)
      requires from < to && q.blockInFile < final && blocksAvailable > 0
      reads `blocksAvailable, q`blockInFile
      ensures 0 < n <= blocksAvailable && n <= to - from && n <= final - q.blockInFile
      ensures n in {blocksAvailable, to - from, final - q.blockInFile}
    {
      var n := if blocksAvailable > to - from then to - from else blocksAvailable;
      if n > final - q.blockInFile then final - q.blockInFile else n
    }

    /** The mapped case of the inner loop of `do_direct_IO`. */
    method PassMapped(page: Page, from: nat, to: nat) returns (stop: Option<Outcome>, upto: nat)
      requires Inv() == true && blocksAvailable > 0 && from < to && q.blockInFile < final
      modifies `blocksAvailable, `nextBlockForIo, `startZeroDone, `result, `fed, q
      ensures Inv() == true && Settled()
      ensures stop.None? ==> from < upto <= to && fed == old(fed) + Slots(page, from, upto - from)
      ensures stop.Some? ==> fed == old(fed) && stop.value.Failed?
    {
      StartZero();
      var n := ChunkSize(from, to);
      var err := SendChunk(page, from, n);
      stop := if err then Some(Failed) else None;
      upto := from + n;
    }

    /** One round of the inner loop of `do_direct_IO`. */
    method PassBlocks(page: Page, from: nat, to: nat) returns (stop: Option<Outcome>, upto: nat)
      requires Inv() == true && Settled() && from < to && q.blockInFile < final
      modifies `map_bh, `blocksAvailable, `nextBlockForIo, `startZeroDone, `result, `zeroed, `fed, `headNew, q
      ensures Inv() == true && Settled() && q.blockInFile <= final
      ensures stop.None? ==> from < upto <= to && fed == old(fed) + Slots(page, from, upto - from)
      ensures stop.Some? ==> fed == old(fed) && Reason(stop.value)
    {
      if blocksAvailable == 0 {
        var ok := MapMore();
        if !ok {
          return Some(Failed), from;
        }
      }
      if map_bh.mapped {
        stop, upto := PassMapped(page, from, to);
      } else {
        stop := PassHole(page, from);
        upto := from + 1;
      }
    }

    /** Why the loop may stop short: a write at a hole, or a read at a hole past the end of the file. */
    ghost predicate Reason(o: Outcome)
      reads q`blockInFile
    {
      && (o.NotBlock? ==> isWrite && q.blockInFile !in disk)
      && (o.Done? ==> !isWrite && q.blockInFile !in disk && q.blockInFile >= fileBlocks)
    }

    /** The inner loop of `do_direct_IO`. */
    method PassPage(page: Page, from: nat, to: nat) returns (stop: Option<Outcome>, upto: nat)
      requires Inv() == true && Settled() && from < to && q.blockInFile < final
      modifies `map_bh, `blocksAvailable, `nextBlockForIo, `startZeroDone, `result, `zeroed, `fed, `headNew, q
      ensures Inv() == true && Settled()
      ensures from <= upto <= to && fed == old(fed) + Slots(page, from, upto - from)
      ensures stop.None? ==> from < upto && (upto == to || q.blockInFile == final)
      ensures stop.Some? ==> Reason(stop.value)
    {
      stop, upto := None, from;
      assert fed == fed + Slots(page, from, 0);
      while upto < to
        invariant Inv() == true && Settled()
        invariant from <= upto <= to && fed == old(fed) + Slots(page, from, upto - from)
        invariant stop.None? && q.blockInFile < final
      {
        var next;
        stop, next := PassBlocks(page, upto, to);
        if stop.Some? {
          break;
        }
        FedGrows(old(fed), page, from, upto - from, next - upto);
        upto := next;
        if q.blockInFile == final {
          break;
        }
      }
    }

    /** `dio_get_page`: the next part of the user's buffer, an error, or zeros for blocks already mapped. */
    method GetPage() returns (c: Option<Chunk>)
      requires BufferFits() && head < |chunks|
      modifies `head, `pageErrors
      ensures old(pageErrors) ==> pageErrors
      ensures c.Some? ==> c.value.from < c.value.to
      ensures (head == old(head) + 1 && c == Some(chunks[old(head)])) || (head == old(head) && (c.Some? ==> pageErrors))
    {
      var fault: bool := *;
      if fault {
        if blocksAvailable == 0 || !isWrite {
          return None;
        }
        pageErrors := true;
        return Some(Chunk(ZERO_PAGE, 0, perPage));
      }
      head := head + 1;
      c := Some(chunks[head - 1]);
    }

    /** The memory blocks so far are the user's buffer up to the current chunk, unless a page was missing. */
    ghost predicate Fed()
      requires BufferFits()
      reads `fed, `head, `pageErrors, q`blockInFile
    {
      && head <= |chunks|
      && (!pageErrors ==> fed <= UserSlots(chunks))
      && (q.blockInFile < final ==>
            && |UserSlots(chunks[..head])| <= |fed|
            && (!pageErrors ==> fed == UserSlots(chunks[..head])))
    }

    lemma MoreToCome()
      requires Fixed() && Progress() && BufferFits() && Fed() && q.blockInFile < final
      ensures head < |chunks|
    {
      assert chunks[..|chunks|] == chunks;
    }

    lemma FedNext(was: seq<Slot>, at: nat, c: Chunk, upto: nat, on: bool)
      requires BufferFits() && at < |chunks| && |UserSlots(chunks[..at])| <= |was|
      requires (head == at + 1 && c == chunks[at]) || (head == at && pageErrors)
      requires !pageErrors ==> was == UserSlots(chunks[..at])
      requires c.from <= upto <= c.to && fed == was + Slots(c.page, c.from, upto - c.from)
      requires on ==> upto == c.to || q.blockInFile == final
      ensures !pageErrors ==> fed <= UserSlots(chunks)
      ensures on ==> Fed()
      ensures |fed| == |was| + (upto - c.from)
    {
      SlotsLength(c.page, c.from, upto - c.from);
      if head == at + 1 {
        UserNext(chunks, at, upto, was);
      }
    }

    /** The inner loop for one part of the user's buffer, the `at`th unless a page was missing. */
    method PassChunk(c: Chunk, ghost at: nat) returns (stop: Option<Outcome>)
      requires Inv() == true && Settled() && BufferFits() && q.blockInFile < final && c.from < c.to
      requires at < |chunks| && |UserSlots(chunks[..at])| <= |fed| && (!pageErrors ==> fed == UserSlots(chunks[..at]))
      requires (head == at + 1 && c == chunks[at]) || (head == at && pageErrors)
      modifies `map_bh, `blocksAvailable, `nextBlockForIo, `startZeroDone, `result, `zeroed, `fed, `headNew, q
      ensures Inv() == true && Settled()
      ensures !pageErrors ==> fed <= UserSlots(chunks)
      ensures stop.None? ==> (Fed() == true) && |fed| > |old(fed)|
      ensures stop.Some? ==> Reason(stop.value)
    {
      var upto;
      stop, upto := PassPage(c.page, c.from, c.to);
      FedNext(old(fed), at, c, upto, stop.None?);
    }

    /** One round of the outer loop of `do_direct_IO`. */
    method NextPage() returns (stop: Option<Outcome>)
      requires Inv() == true && Settled() && BufferFits() && Fed() && q.blockInFile < final
      modifies `map_bh, `blocksAvailable, `nextBlockForIo, `startZeroDone, `result, `zeroed, `fed, `headNew, `head,
               `pageErrors, q
      ensures Inv() == true && Settled()
      ensures !pageErrors ==> fed <= UserSlots(chunks)
      ensures stop.None? ==> (Fed() == true) && |fed| > |old(fed)|
      ensures stop.Some? ==> Reason(stop.value)
    {
      MoreToCome();
      var c := GetPage();
      if c.None? {
        return Some(Failed);
      }
      stop := PassChunk(c.value, old(head));
    }

    /** `do_direct_IO`. */
    method DoDirectIO() returns (o: Outcome)
      requires Inv() == true && Settled() && BufferFits() && Fed()
      modifies `map_bh, `blocksAvailable, `nextBlockForIo, `startZeroDone, `result, `zeroed, `fed, `headNew, `head,
               `pageErrors, q
      ensures Inv() == true && Settled()
      ensures !pageErrors ==> fed <= UserSlots(chunks)
      ensures o.Failed? || q.blockInFile == final || Reason(o)
    {
      while q.blockInFile < final
        invariant Inv() == true && Settled() && Fed()
        decreases final - q.blockInFile
      {
        var stop := NextPage();
        if stop.Some? {
          return stop.value;
        }
      }
      o := Done;
    }

    /** Zeros behind the data, to the end of the last filesystem block. */
    ghost function Tail(): seq<Piece>
      requires Fixed()
      reads `map_bh, q`blockInFile
    {
      if q.blockInFile in disk then Pieces(ZERO_PAGE, 0, TailSize(), disk[q.blockInFile]) else []
    }

    ghost function TailSize(): nat
      requires Fixed()
      reads `map_bh, q`blockInFile
    {
      if q.blockInFile in disk then ZeroCount(true) else 0
    }

    /** The file blocks after the zeros in front. */
    ghost function RestFiles(): seq<nat>
      requires Fixed()
      reads `map_bh, `fed, q`blockInFile
    {
      FilesUpTo(disk, first, |fed|) + Run(q.blockInFile, TailSize())
    }

    /** The file blocks that the zeros in front, the data and the zeros behind belong at. */
    ghost function OwnFiles(): seq<nat>
      requires Fixed()
      reads `map_bh, `fed, `headNew, `startZeroDone, q`blockInFile
    {
      Run(first - first % factor, HeadSize()) + RestFiles()
    }

    lemma TailPlace()
      requires Inv() == true && Settled() && !q.ioError && ZeroCount(true) > 0
      ensures q.blockInFile in disk && disk[q.blockInFile] == nextBlockForIo
    {
    }

    /** Zeros behind the last block are the last to be handed over. */
    method ZeroLast()
      requires Fixed() && (q.Valid() == true) && (LogGood() == true) && (FilesGood() == true)
      requires headNew && factor > 1 ==> startZeroDone
      requires ZeroCount(true) > 0 && !q.ioError ==> q.blockInFile in disk && disk[q.blockInFile] == nextBlockForIo
      modifies `startZeroDone, `nextBlockForIo, q`bio, q`submitted, q`boundary, q`finalBlockInBio, q`ioError, q`cur,
               q`log, q`sent, q`files
      ensures (q.Valid() == true) && (q.Led() == true) && startZeroDone
      ensures !q.ioError ==> q.log == old(q.log) + Tail()
      ensures !q.ioError ==> q.files.log == old(q.files.log) + Run(q.blockInFile, TailSize())
      ensures HeadSize() == old(HeadSize()) && (old(q.ioError) ==> q.ioError)
      ensures ZeroCount(true) == 0 ==> q.files == old(q.files)
    {
      ZeroBlock(true);
    }

    /** The zeros after the last block of a write into a new filesystem block. */
    method EndZero()
      requires Inv() == true && Settled()
      modifies `startZeroDone, `nextBlockForIo, q`bio, q`submitted, q`boundary, q`finalBlockInBio, q`ioError, q`cur,
               q`log, q`sent, q`files
      ensures (q.Valid() == true) && Progress() && HolesGood() && startZeroDone
      ensures !q.ioError ==> q.log == Head() + Placed(disk, first, fed) + Tail()
      ensures !q.ioError ==> zeroed == OverHoles(disk, first, fed)
      ensures (q.Led() == true) && (!q.ioError ==> q.files.log == Run(first, HeadSize()) + RestFiles())
      ensures ZeroCount(true) == 0 ==> q.files == old(q.files)
    {
      if ZeroCount(true) > 0 && !q.ioError {
        TailPlace();
      }
      Assoc(Run(first, HeadSize()), FilesUpTo(disk, first, |fed|), Run(q.blockInFile, TailSize()));
      ZeroLast();
    }

    /** What is left in the queue is submitted. */
    method Finish() returns (err: bool)
      requires Fixed() && (q.Valid() == true) && (q.Led() == true)
      requires !q.ioError ==> q.files.log == Run(first, HeadSize()) + RestFiles()
      modifies q`bio, q`submitted, q`boundary, q`finalBlockInBio, q`ioError, q`cur, q`sent, q`files
      ensures q.bio.None? && q.cur.None? && (q.BiosGood() == true)
      ensures err || old(q.ioError) ==> q.ioError
      ensures q.files.log == old(q.files.log) && q.files.jumped == old(q.files.jumped)
      ensures !q.ioError ==> CarriedByAll(q.submitted) == q.log
      ensures !q.ioError ==> (FilesOfAll(q.submitted) == OwnFiles() <==> !q.files.jumped && HeadSize() == 0)
    {
      ghost var own, size, rest := OwnFiles(), HeadSize(), RestFiles();
      assert (size == 0 || size == first % factor) && own == Run(first - first % factor, size) + rest;
      err := q.Flush();
      if !q.ioError {
        OwnIff(FilesOfAll(q.submitted), q.files, own, first, first % factor, size, rest);
      }
    }

    /** The whole request: after it, the submitted bios carry zeros up to the first block, every memory block at the
        disk block that its file block maps to, and zeros from the last block on; nothing is lost, doubled or out of
        order unless an error is recorded. */
    method Transfer() returns (o: Outcome)
      requires Inv() == true && Settled() && BufferFits() && Fed()
      modifies `map_bh, `blocksAvailable, `nextBlockForIo, `startZeroDone, `result, `zeroed, `fed, `headNew, `head,
               `pageErrors, q
      ensures q.bio.None? && q.cur.None? && q.BiosGood() && startZeroDone
      ensures first <= q.blockInFile <= final && result == |fed| == q.blockInFile - first
      ensures !pageErrors ==> fed <= UserSlots(chunks)
      ensures !q.ioError ==> CarriedByAll(q.submitted) == Head() + Placed(disk, first, fed) + Tail()
      ensures !q.ioError ==> q.files.log == Run(first, HeadSize()) + RestFiles()
      ensures !q.ioError ==> (FilesOfAll(q.submitted) == OwnFiles() <==> !q.files.jumped && HeadSize() == 0)
      ensures !q.ioError ==> zeroed == OverHoles(disk, first, fed)
      ensures !q.ioError ==>
                forall x :: first <= x < q.blockInFile && x !in disk ==> !isWrite && x < fileBlocks
      ensures o.Failed? || q.blockInFile == final || q.blockInFile !in disk
    {
      o := DoDirectIO();
      if o.NotBlock? {
        o := Done;
      }
      EndZero();
      var err := Finish();
      if o.Done? && err {
        o := Failed;
      }
    }
  }

  // ---- where the blocks go out for other file blocks -------------------------------------------------------------

  /** A write of file block 1 into a filesystem block of two that is new: the zeros for file block 0 are handed over
      for file block 1. */
  method PaddingExample() returns (r: Request, o: Outcome)
    ensures r.disk == map[0 := 8, 1 := 9] && r.factor == 2 && r.first == 1 && r.final == 2 && r.isWrite
    ensures !r.q.ioError && r.headNew && r.result == 1 ==>
              && r.q.files.log == [1, 1] && r.OwnFiles() == [0, 1]
              && FilesOfAll(r.q.submitted) != r.OwnFiles()
  {
    var chunks := [Chunk(7, 0, 1)];
    OneSlot(chunks);
    r := new Request(map[0 := 8, 1 := 9], 2, true, chunks, 1, 2, 2, 8);
    o := r.Transfer();
    if !r.q.ioError && r.headNew && r.result == 1 {
      assert r.HeadSize() == 1 && r.TailSize() == 0;
      OneFile(r.disk);
    }
  }

  lemma OneFile(disk: map<nat, nat>)
    requires 1 in disk
    ensures Run(1, 1) + (FilesUpTo(disk, 1, 1) + Run(2, 0)) == [1, 1]
    ensures Run(0, 1) + (FilesUpTo(disk, 1, 1) + Run(2, 0)) == [0, 1]
  {
    assert FilesUpTo(disk, 1, 0) == [];
  }

  lemma OneSlot(chunks: seq<Chunk>)
    requires chunks == [Chunk(7, 0, 1)]
    ensures |UserSlots(chunks)| == 1 && UserSlots(chunks[..0]) == []
  {
    assert chunks[..0] == [];
    SlotsLength(7, 0, 1);
  }

  /** The part of the loop for one block of a read that is on disk while the next one is not, with filesystem blocks of
      one block.  `ok` is that there is no error and no boundary. */
  method ReadOne(r: Request, page: Page, from: nat) returns (ok: bool)
    requires r.Inv() == true && r.Settled() && r.factor == 1 && !r.isWrite && r.blocksAvailable == 0
    requires !r.q.ioError && r.q.blockInFile < r.final
    requires r.q.blockInFile in r.disk && r.q.blockInFile + 1 !in r.disk
    modifies r, r.q
    ensures r.Inv() == true && r.Settled()
    ensures ok ==> !r.q.ioError && r.q.blockInFile == old(r.q.blockInFile) + 1 && r.blocksAvailable == 0
    ensures ok ==>
              var b := old(r.q.blockInFile);
              && (r.q.files.jumped <==> old(r.q.files.jumped) || old(r.q.Jumps(page, from, 1, r.disk[b])))
              && (old(r.q.cur.None? && !r.q.boundary) ==>
                    r.q.cur == Some(Deferred(page, from, 1, r.disk[b], b)))
  {
    ok := r.MapMore();
    if !ok || r.map_bh.boundary {
      return false;
    }
    SlotsLength(page, from, 1);
    var err := r.SendChunk(page, from, 1);
    ok := !err && !r.q.ioError;
  }

  /** The part for one block of a read that is a hole. */
  method ReadHole(r: Request, page: Page, from: nat) returns (ok: bool)
    requires r.Inv() == true && r.Settled() && !r.isWrite && r.blocksAvailable == 0 && !r.q.ioError
    requires r.q.blockInFile < r.final && r.q.blockInFile < r.fileBlocks && r.q.blockInFile !in r.disk
    modifies r, r.q`blockInFile
    ensures r.Inv() == true
    ensures ok ==> r.Settled() && r.blocksAvailable == 0 && r.q.blockInFile == old(r.q.blockInFile) + 1
  {
    ok := r.MapMore();
    if ok {
      SlotsLength(page, from, 1);
      var stop := r.PassHole(page, from);
      ok := stop.None?;
    }
  }

  lemma NoPadding(files: seq<nat>, b: nat, b2: nat)
    ensures Run(b, 0) + (files + Run(b2, 0)) == files
  {
  }

  /** The end of a read. */
  method EndRead(r: Request) returns (ok: bool)
    requires r.Inv() == true && r.Settled() && !r.isWrite
    modifies r, r.q
    ensures r.Fixed() && r.q.files.jumped == old(r.q.files.jumped) && ok == !r.q.ioError
    ensures ok ==>
              var files := FilesUpTo(r.disk, r.first, old(r.q.blockInFile) - r.first);
              r.OwnFiles() == files && (FilesOfAll(r.q.submitted) == files <==> !r.q.files.jumped)
  {
    r.EndZero();
    assert r.HeadSize() == r.TailSize() == 0;
    NoPadding(FilesUpTo(r.disk, r.first, |r.fed|), r.first, r.q.blockInFile);
    NoPadding(FilesUpTo(r.disk, r.first, |r.fed|), r.first - r.first % r.factor, r.q.blockInFile);
    var err := r.Finish();
    ok := !r.q.ioError;
  }

  /** The first two of three blocks. */
  method ReadBeforeHole(r: Request) returns (ok: bool)
    requires r.Inv() == true && r.Settled() && r.factor == 1 && !r.isWrite && r.blocksAvailable == 0
    requires !r.q.ioError && r.q.blockInFile == 0 && r.final == r.fileBlocks == 3
    requires 0 in r.disk && r.disk[0] == 10 && 1 !in r.disk
    requires r.q.cur.None? && !r.q.boundary && !r.q.files.jumped
    modifies r, r.q
    ensures ok ==> (r.Inv() == true) && r.Settled() && !r.q.ioError && r.blocksAvailable == 0
    ensures ok ==> r.q.blockInFile == 2 && r.q.cur == Some(Deferred(5, 0, 1, 10, 0))
  {
    ok := ReadOne(r, 5, 0);
    if ok {
      ok := ReadHole(r, 6, 0);
    }
  }

  /** The last one, and the end of the read. */
  method ReadBehindHole(r: Request) returns (ok: bool)
    requires r.Inv() == true && r.Settled() && r.factor == 1 && !r.isWrite && r.blocksAvailable == 0
    requires !r.q.ioError && r.q.blockInFile == 2 && r.first == 0 && r.final == 3
    requires FilesUpTo(r.disk, 0, 3) == [0, 2] && 2 in r.disk && r.disk[2] == 11 && 3 !in r.disk
    requires r.q.cur == Some(Deferred(5, 0, 1, 10, 0))
    modifies r, r.q
    ensures r.Fixed()
    ensures ok ==> r.OwnFiles() == [0, 2] && FilesOfAll(r.q.submitted) != [0, 2]
  {
    assert r.q.Jumps(5, 1, 1, 11);
    ok := ReadOne(r, 5, 1);
    if ok {
      ok := EndRead(r);
    }
  }

  /** A read of three file blocks, the second one a hole, into two pages: the calls that the loop makes for it, with no
      error and no boundary.  The third block grows the section of the first one. */
  method HoleReadExample() returns (r: Request, ok: bool)
    ensures r.disk == map[0 := 10, 2 := 11] && r.factor == 1 && !r.isWrite && r.first == 0 && r.final == 3
    ensures r.chunks == [Chunk(5, 0, 1), Chunk(6, 0, 1), Chunk(5, 1, 2)]
    ensures ok ==> r.OwnFiles() == [0, 2] && FilesOfAll(r.q.submitted) != [0, 2]
  {
    var chunks := [Chunk(5, 0, 1), Chunk(6, 0, 1), Chunk(5, 1, 2)];
    ThreeSlots(chunks);
    r := new Request(map[0 := 10, 2 := 11], 1, false, chunks, 0, 3, 3, 8);
    ok := ReadBeforeHole(r);
    if ok {
      TwoFiles(r.disk);
      ok := ReadBehindHole(r);
    }
  }

  lemma TwoFiles(disk: map<nat, nat>)
    requires disk.Keys == {0, 2}
    ensures FilesUpTo(disk, 0, 3) == [0, 2]
  {
    assert FilesUpTo(disk, 0, 1) == [0];
    assert FilesUpTo(disk, 0, 2) == [0];
  }

  lemma ThreeSlots(chunks: seq<Chunk>)
    requires chunks == [Chunk(5, 0, 1), Chunk(6, 0, 1), Chunk(5, 1, 2)]
    ensures |UserSlots(chunks)| == 3
  {
    var two := chunks[..2];
    var one := two[..1];
    assert one[..0] == [];
    SlotsLength(5, 0, 1);
    SlotsLength(6, 0, 1);
    SlotsLength(5, 1, 1);
    assert |UserSlots(one)| == 1;
    assert |UserSlots(two)| == 2;
  }
}
