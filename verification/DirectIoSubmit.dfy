/** The submission side of direct I/O: sections of user pages are deferred, coalesced into bios and submitted.

    Only offsets and lengths that are multiples of the I/O block get this far, so memory, file and disk are all
    counted in I/O blocks of `1 << blkbits` bytes.  A filesystem block is `1 << blkfactor` of them; the shifts and
    masks by `blkfactor` are written as products, quotients and remainders.  Library calls answer arbitrarily within
    their contracts. */
module DirectIoSubmit {
  import opened Arith
  import opened Wrappers

  type Page = nat
  const ZERO_PAGE: Page := 0

  /** One block of page memory on its way to or from one disk block. */
  datatype Piece = Piece(page: Page, off: nat, block: nat)

  /** A page section in a bio, with the file block it was sent for. */
  datatype Vec = Vec(page: Page, off: nat, len: nat, file: nat)

  /** A bio: its first disk block, the file block of its first byte, and its page sections. */
  datatype Bio = Bio(start: nat, logical: nat, vecs: seq<Vec>)

  /** The deferred section: `cur_page` and the fields beside it. */
  datatype Deferred = Deferred(page: Page, off: nat, len: nat, block: nat, file: nat)

  // ---- what a bio means ----------------------------------------------------------------------------------------

  function Pieces(page: Page, off: nat, n: nat, block: nat): seq<Piece> {
    if n == 0 then [] else Pieces(page, off, n - 1, block) + [Piece(page, off + n - 1, block + n - 1)]
  }

  /** `bi_size`, in blocks. */
  function Size(vecs: seq<Vec>): nat {
    if vecs == [] then 0 else Size(vecs[..|vecs| - 1]) + vecs[|vecs| - 1].len
  }

  /** The device lays the sections of a bio on consecutive blocks from its first sector. */
  function Carried(start: nat, vecs: seq<Vec>): seq<Piece> {
    if vecs == [] then [] else
      var before, last := vecs[..|vecs| - 1], vecs[|vecs| - 1];
      Carried(start, before) + Pieces(last.page, last.off, last.len, start + Size(before))
  }

  function CarriedByAll(bios: seq<Bio>): seq<Piece> {
    if bios == [] then [] else
      CarriedByAll(bios[..|bios| - 1]) + Carried(bios[|bios| - 1].start, bios[|bios| - 1].vecs)
  }

  /** Consecutive file blocks. */
  function Run(file: nat, n: nat): (r: seq<nat>)
    ensures |r| == n
  {
    seq(n, i requires 0 <= i < n => file + i)
  }

  /** The file blocks in a sequence of bios, counted on from the first byte of each. */
  function FilesOfAll(bios: seq<Bio>): seq<nat> {
    if bios == [] then [] else
      FilesOfAll(bios[..|bios| - 1]) + Run(bios[|bios| - 1].logical, Size(bios[|bios| - 1].vecs))
  }

  /** The file blocks that sections were handed over for and those that bios hold, and whether a section has grown by
      a block that does not follow it in the file. */
  datatype Files = Files(log: seq<nat>, sent: seq<nat>, jumped: bool)

  /** The bios and the deferred section hold the blocks at their places in the file exactly if none has jumped. */
  predicate FilesKept(f: Files, cur: seq<nat>) {
    |f.sent + cur| == |f.log| && (f.sent + cur == f.log <==> !f.jumped)
  }

  function CurFiles(cur: Option<Deferred>): seq<nat> {
    if cur.None? then [] else Run(cur.value.file, cur.value.len)
  }

  /** The first block handed over is the first one held, at its place in the file; a section only grows at its end. */
  predicate Leads(f: Files, cur: Option<Deferred>) {
    if f.log == [] then cur.None? else f.sent + CurFiles(cur) != [] && (f.sent + CurFiles(cur))[0] == f.log[0]
  }

  /** All blocks have gone out, at the file blocks `out`. */
  predicate CarriedFor(out: seq<nat>, f: Files) {
    |out| == |f.log| && (out == f.log <==> !f.jumped) && (out != [] ==> out[0] == f.log[0])
  }

  /** Each section of a bio starts at the file block where the one before it ends. */
  predicate FileContiguous(logical: nat, vecs: seq<Vec>) {
    vecs == [] ||
    (FileContiguous(logical, vecs[..|vecs| - 1]) && vecs[|vecs| - 1].file == logical + Size(vecs[..|vecs| - 1]))
  }

  predicate GoodBio(b: Bio) {
    b.vecs != [] && FileContiguous(b.logical, b.vecs)
  }

  /** A deferred section that continues a bio on disk and in the file. */
  predicate Continues(b: Bio, c: Deferred) {
    FileContiguous(b.logical, b.vecs) && c.block == b.start + Size(b.vecs) && c.file == b.logical + Size(b.vecs)
  }

  function Extend(b: Bio, c: Deferred): Bio {
    b.(vecs := b.vecs + [Vec(c.page, c.off, c.len, c.file)])
  }

  /** It extends the bio by exactly its own blocks. */
  lemma Extended(b: Bio, c: Deferred)
    requires Continues(b, c)
    ensures GoodBio(Extend(b, c)) && Size(Extend(b, c).vecs) == Size(b.vecs) + c.len
    ensures Carried(b.start, Extend(b, c).vecs) == Carried(b.start, b.vecs) + Pieces(c.page, c.off, c.len, c.block)
  {
    assert Extend(b, c).vecs[..|b.vecs|] == b.vecs;
  }

  /** The blocks sent are those in the bios submitted and in the one under assembly. */
  predicate Assembled(submitted: seq<Bio>, bio: Option<Bio>, sent: seq<Piece>, files: seq<nat>) {
    && (forall i {:trigger GoodBio(submitted[i])} :: 0 <= i < |submitted| ==> GoodBio(submitted[i]))
    && match bio
       case None => sent == CarriedByAll(submitted) && files == FilesOfAll(submitted)
       case Some(b) =>
         && sent == CarriedByAll(submitted) + Carried(b.start, b.vecs)
         && files == FilesOfAll(submitted) + Run(b.logical, Size(b.vecs))
  }

  lemma AssembledNext(submitted: seq<Bio>, b: Bio, sent: seq<Piece>, files: seq<nat>)
    requires Assembled(submitted, Some(b), sent, files) && GoodBio(b)
    ensures Assembled(submitted + [b], None, sent, files)
  {
    assert (submitted + [b])[..|submitted|] == submitted;
  }

  lemma AssembledExtend(submitted: seq<Bio>, b: Bio, c: Deferred, sent: seq<Piece>, files: seq<nat>)
    requires Assembled(submitted, Some(b), sent, files) && Continues(b, c)
    ensures Assembled(submitted, Some(Extend(b, c)), sent + Pieces(c.page, c.off, c.len, c.block),
                      files + Run(c.file, c.len))
  {
    Extended(b, c);
    RunJoin(b.logical, Size(b.vecs), c.len);
    Assoc(CarriedByAll(submitted), Carried(b.start, b.vecs), Pieces(c.page, c.off, c.len, c.block));
    Assoc(FilesOfAll(submitted), Run(b.logical, Size(b.vecs)), Run(c.file, c.len));
  }

  lemma {:induction false} PiecesJoin(page: Page, off: nat, n: nat, block: nat, m: nat)
    ensures Pieces(page, off, n + m, block) == Pieces(page, off, n, block) + Pieces(page, off + n, m, block + n)
  {
    if m > 0 {
      PiecesJoin(page, off, n, block, m - 1);
    }
  }

  lemma RunJoin(file: nat, n: nat, m: nat)
    ensures Run(file, n + m) == Run(file, n) + Run(file + n, m)
  {
  }

  lemma RunEqual(file: nat, other: nat, n: nat)
    ensures Run(file, n) == Run(other, n) <==> n == 0 || file == other
  {
    if n > 0 {
      assert Run(file, n)[0] == file && Run(other, n)[0] == other;
    }
  }

  lemma JoinedEqual<T>(a: seq<T>, x: seq<T>, b: seq<T>, y: seq<T>)
    requires |a| == |b| && |x| == |y|
    ensures a + x == b + y <==> a == b && x == y
  {
    assert (a + x)[..|a|] == a && (a + x)[|a|..] == x;
    assert (b + y)[..|a|] == b && (b + y)[|a|..] == y;
  }

  /** A section that grows by `m` blocks handed over for file block `at`. */
  lemma FilesGrow(f: Files, file: nat, n: nat, m: nat, at: nat)
    requires FilesKept(f, Run(file, n))
    ensures FilesKept(Files(f.log + Run(at, m), f.sent, f.jumped || (m > 0 && file + n != at)), Run(file, n + m))
  {
    RunJoin(file, n, m);
    RunEqual(file + n, at, m);
    Assoc(f.sent, Run(file, n), Run(file + n, m));
    JoinedEqual(f.sent + Run(file, n), Run(file + n, m), f.log, Run(at, m));
  }

  /** A section handed over for file block `at` when none is deferred. */
  lemma FilesDefer(f: Files, at: nat, m: nat)
    requires FilesKept(f, [])
    ensures FilesKept(f.(log := f.log + Run(at, m)), Run(at, m))
  {
    assert f.sent + [] == f.sent;
    JoinedEqual(f.sent, Run(at, m), f.log, Run(at, m));
  }

  lemma Assoc<T>(a: seq<T>, b: seq<T>, c: seq<T>)
    ensures (a + b) + c == a + (b + c)
  {
  }

  // ---- the queue -------------------------------------------------------------------------------------------------

  class Submitter {
    var bio: Option<Bio>
    var submitted: seq<Bio>
    var cur: Option<Deferred>
    var boundary: bool
    var finalBlockInBio: nat
    var blockInFile: nat
    var ioError: bool
    /** Every section handed over, and the part of it that has gone into bios. */
    ghost var log: seq<Piece>
    ghost var sent: seq<Piece>
    ghost var files: Files

    constructor (blockInFile: nat)
      ensures Valid() && Led() && log == [] && !ioError && files == Files([], [], false)
      ensures this.blockInFile == blockInFile
      ensures submitted == [] && bio.None? && cur.None? && !boundary
    {
      bio, submitted, cur, boundary, finalBlockInBio := None, [], None, false, 0;
      this.blockInFile := blockInFile;
      ioError, log, sent, files := false, [], [], Files([], [], false);
    }

    ghost function InCur(): seq<Piece>
      reads `cur
    {
      if cur.None? then [] else Pieces(cur.value.page, cur.value.off, cur.value.len, cur.value.block)
    }

    ghost function FilesInCur(): seq<nat>
      reads `cur
    {
      CurFiles(cur)
    }

    ghost predicate Led()
      reads `cur, `files, `ioError
    {
      !ioError ==> Leads(files, cur)
    }

    ghost predicate SubmittedGood()
      reads `bio, `submitted, `sent, `files
    {
      Assembled(submitted, bio, sent, files.sent)
    }

    ghost predicate BiosGood()
      reads `bio, `submitted, `sent, `finalBlockInBio, `files
    {
      && SubmittedGood()
      && (bio.Some? ==> GoodBio(bio.value) && finalBlockInBio == bio.value.start + Size(bio.value.vecs))
    }

    /** Passed on whole, as `Valid() == true`, wherever its parts do not matter.

        Unless an error has been recorded, every section handed over so far is in a submitted bio, in the bio under
        assembly or in the deferred section, in this order and once.  They are at their places in the file exactly if
        none has jumped. */
    ghost predicate Valid()
      reads `bio, `submitted, `sent, `finalBlockInBio, `cur, `ioError, `log, `files
    {
      BiosGood() && (!ioError ==> sent + InCur() == log && FilesKept(files, FilesInCur()))
    }

    /** `dio_bio_submit` as seen by the submitter. */
    method BioSubmit()
      requires BiosGood() && bio.Some?
      modifies `bio, `submitted, `boundary
      ensures BiosGood() && bio.None? && !boundary
      ensures submitted == old(submitted) + [old(bio.value)]
    {
      AssembledNext(submitted, bio.value, sent, files.sent);
      submitted := submitted + [bio.value];
      bio := None;
      boundary := false;
    }

    /** `dio_bio_reap`: a completion collected now may have failed; this is recorded in the dio. */
    method BioReap() returns (err: bool)
      modifies `ioError
      ensures err ==> ioError
      ensures old(ioError) ==> ioError
    {
      err := *;
      if err {
        ioError := true;
      }
    }

    /** `dio_new_bio`; the bio it makes is still empty. */
    method NewBio(start: nat) returns (err: bool)
      requires SubmittedGood() && bio.None? && cur.Some?
      modifies `bio, `boundary, `ioError
      ensures SubmittedGood()
      ensures err ==> ioError && bio.None?
      ensures !err ==> bio == Some(Bio(start, cur.value.file, [])) && !boundary
      ensures old(ioError) ==> ioError
    {
      err := BioReap();
      if !err {
        bio := Some(Bio(start, cur.value.file, []));
        assert Run(cur.value.file, 0) == [];
        boundary := false;
      }
    }

    /** `bio_add_page`: may refuse a section, but not the first one. */
    method Refuses() returns (refused: bool)
      requires bio.Some?
      ensures bio.value.vecs == [] ==> !refused
    {
      refused := *;
      if bio.value.vecs == [] {
        refused := false;
      }
    }

    /** `dio_bio_add_page`. */
    method BioAddPage() returns (refused: bool)
      requires SubmittedGood() && bio.Some? && cur.Some? && Continues(bio.value, cur.value)
      modifies `bio, `finalBlockInBio, `sent, `files
      ensures old(bio.value.vecs) == [] ==> !refused
      ensures refused ==>
                bio == old(bio) && finalBlockInBio == old(finalBlockInBio) && sent == old(sent) && files == old(files)
      ensures !refused ==> BiosGood() && bio.Some? && sent == old(sent) + InCur()
      ensures !refused ==> files == old(files).(sent := old(files).sent + FilesInCur())
    {
      refused := Refuses();
      if !refused {
        Extended(bio.value, cur.value);
        AssembledExtend(submitted, bio.value, cur.value, sent, files.sent);
        bio := Some(Extend(bio.value, cur.value));
        finalBlockInBio := cur.value.block + cur.value.len;
        sent := sent + InCur();
        files := files.(sent := files.sent + FilesInCur());
      }
    }

    /** `dio_send_cur_page`: the deferred section is put into a bio. */
    method SendCurPage() returns (err: bool)
      requires BiosGood() && cur.Some?
      modifies `bio, `submitted, `boundary, `finalBlockInBio, `ioError, `sent, `files
      ensures BiosGood()
      ensures err ==> ioError
      ensures old(ioError) ==> ioError
      ensures !err ==> bio.Some? && sent == old(sent) + InCur()
      ensures files.log == old(files.log) && files.jumped == old(files.jumped)
      ensures !err ==> files.sent == old(files.sent) + FilesInCur()
    {
      err := false;
      if bio.Some? {
        var next := bio.value.logical + Size(bio.value.vecs);
        if finalBlockInBio != cur.value.block || cur.value.file != next {
          BioSubmit();
        }
      }
      if bio.None? {
        err := NewBio(cur.value.block);
        if err {
          return;
        }
      }
      var refused := BioAddPage();
      if refused {
        BioSubmit();
        err := NewBio(cur.value.block);
        if !err {
          refused := BioAddPage();
          assert !refused;
        }
      }
    }

    /** The deferred section leaves the queue, whether or not it could be sent. */
    method PutCurPage() returns (err: bool)
      requires (Valid() == true) && cur.Some?
      modifies `bio, `submitted, `boundary, `finalBlockInBio, `ioError, `cur, `sent, `files
      ensures Valid() && cur.None?
      ensures old(Led()) ==> Led()
      ensures files.log == old(files.log) && files.jumped == old(files.jumped)
      ensures err ==> ioError
      ensures old(ioError) ==> ioError
    {
      err := SendCurPage();
      cur := None;
    }

    /** The deferred section grows by the blocks that follow it in its page and on disk; whether they follow it in the
        file is not looked at. */
    method Grow(len: nat)
      requires Valid() && cur.Some?
      modifies `cur, `log, `files
      ensures Valid() && cur.Some?
      ensures old(Led()) ==> Led()
      ensures files.log == old(files.log) + Run(blockInFile, len)
      ensures files.jumped <==> old(files.jumped) || (len > 0 && old(cur.value.file + cur.value.len) != blockInFile)
      ensures log == old(log) + Pieces(old(cur.value.page), old(cur.value.off + cur.value.len), len,
                                       old(cur.value.block + cur.value.len))
    {
      var c := cur.value;
      ghost var more := Pieces(c.page, c.off + c.len, len, c.block + c.len);
      PiecesJoin(c.page, c.off, c.len, c.block, len);
      Assoc(sent, InCur(), more);
      if !ioError {
        FilesGrow(files, c.file, c.len, len, blockInFile);
      }
      cur := Some(c.(len := c.len + len));
      log := log + more;
      files := Files(files.log + Run(blockInFile, len), files.sent,
                     files.jumped || (len > 0 && c.file + c.len != blockInFile));
    }

    /** A section takes the empty place of the deferred one. */
    method Take(page: Page, off: nat, len: nat, block: nat)
      requires Valid() && cur.None?
      modifies `cur, `log, `files
      ensures Valid() && cur == Some(Deferred(page, off, len, block, blockInFile))
      ensures old(Led()) && len > 0 ==> Led()
      ensures log == old(log) + Pieces(page, off, len, block)
      ensures files == old(files).(log := old(files.log) + Run(blockInFile, len))
    {
      if !ioError {
        assert sent == log;
        FilesDefer(files, blockInFile, len);
      }
      cur := Some(Deferred(page, off, len, block, blockInFile));
      log := log + Pieces(page, off, len, block);
      files := files.(log := files.log + Run(blockInFile, len));
    }

    /** The section would grow the deferred one. */
    predicate Grows(page: Page, off: nat, block: nat)
      reads `cur
    {
      && cur.Some? && cur.value.page == page && cur.value.off + cur.value.len == off
      && cur.value.block + cur.value.len == block
    }

    /** The section would grow the deferred one across a gap in the file. */
    predicate Jumps(page: Page, off: nat, len: nat, block: nat)
      reads `cur, `blockInFile
    {
      len > 0 && Grows(page, off, block) && cur.value.file + cur.value.len != blockInFile
    }

    /** The first half of `submit_page_section`: the section grows the deferred one or takes its place. */
    method Defer(page: Page, off: nat, len: nat, block: nat) returns (err: bool)
      requires Valid() == true
      modifies `bio, `submitted, `boundary, `finalBlockInBio, `ioError, `cur, `log, `sent, `files
      ensures Valid()
      ensures old(Led()) && len > 0 ==> Led()
      ensures err ==> ioError
      ensures !err ==> cur.Some?
      ensures old(cur.None?) ==>
                !err && cur == Some(Deferred(page, off, len, block, blockInFile)) && boundary == old(boundary)
      ensures old(Grows(page, off, block)) ==> !err && boundary == old(boundary)
      ensures old(ioError) ==> ioError
      ensures log == old(log) + Pieces(page, off, len, block)
      ensures files.log == old(files.log) + Run(blockInFile, len)
      ensures files.jumped <==> old(files.jumped) || old(Jumps(page, off, len, block))
    {
      err := false;
      if Grows(page, off, block) {
        Grow(len);
        return;
      }
      if cur.Some? {
        err := PutCurPage();
      }
      if err {
        log := log + Pieces(page, off, len, block);
        files := files.(log := files.log + Run(blockInFile, len));
      } else {
        Take(page, off, len, block);
      }
    }

    /** The second half, at a boundary: the section is sent and its bio submitted. */
    method SendNow() returns (err: bool)
      requires (Valid() == true) && cur.Some?
      modifies `bio, `submitted, `boundary, `finalBlockInBio, `ioError, `cur, `sent, `files
      ensures Valid() && cur.None? && bio.None?
      ensures old(Led()) ==> Led()
      ensures files.log == old(files.log) && files.jumped == old(files.jumped)
      ensures err ==> ioError
      ensures old(ioError) ==> ioError
    {
      err := PutCurPage();
      if bio.Some? {
        BioSubmit();
      }
    }

    /** `submit_page_section`. */
    method SubmitPageSection(page: Page, off: nat, len: nat, block: nat) returns (err: bool)
      requires Valid() == true
      modifies `bio, `submitted, `boundary, `finalBlockInBio, `ioError, `cur, `log, `sent, `files
      ensures Valid()
      ensures old(Led()) && len > 0 ==> Led()
      ensures err ==> ioError
      ensures old(cur.None? && !boundary) ==> cur == Some(Deferred(page, off, len, block, blockInFile))
      ensures old(boundary && (cur.None? || Grows(page, off, block))) ==> cur.None? && bio.None?
      ensures old(ioError) ==> ioError
      ensures log == old(log) + Pieces(page, off, len, block)
      ensures files.log == old(files.log) + Run(blockInFile, len)
      ensures files.jumped <==> old(files.jumped) || old(Jumps(page, off, len, block))
    {
      err := Defer(page, off, len, block);
      if err {
        return;
      }
      if boundary {
        err := SendNow();
      }
    }

    /** The end of `do_blockdev_direct_IO`: whatever is still deferred or under assembly is submitted. */
    method Flush() returns (err: bool)
      requires Valid() == true
      modifies `bio, `submitted, `boundary, `finalBlockInBio, `ioError, `cur, `sent, `files
      ensures BiosGood() && bio.None? && cur.None?
      ensures err ==> ioError
      ensures old(ioError) ==> ioError
      ensures !ioError ==> CarriedByAll(submitted) == log
      ensures !ioError ==> (FilesOfAll(submitted) == files.log <==> !files.jumped)
      ensures !ioError && old(Led()) ==> CarriedFor(FilesOfAll(submitted), files)
      ensures files.log == old(files.log) && files.jumped == old(files.jumped)
    {
      err := false;
      if cur.Some? {
        err := PutCurPage();
      }
      if bio.Some? {
        BioSubmit();
      }
    }
  }

  /** File blocks 0 and 2 lie on adjacent disk blocks and go to adjacent blocks of a page, with a hole between them.
      They end up in one section, which puts the second one at file block 1. */
  method HoleGrowExample() returns (q: Submitter, err: bool)
    ensures q.files.log == [0, 2]
    ensures !q.ioError ==> FilesOfAll(q.submitted) != [0, 2]
  {
    q := new Submitter(0);
    err := q.SubmitPageSection(5, 0, 1, 10);
    assert q.files.log == [0];
    q.blockInFile := 2;
    assert q.Jumps(5, 1, 1, 11);
    err := q.SubmitPageSection(5, 1, 1, 11);
    assert q.files.log == [0, 2];
    err := q.Flush();
  }
}
