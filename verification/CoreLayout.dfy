/** The two passes of `elf_core_dump`: the first plans file offsets and puts them into headers, the second writes the
    file.  Sizes are those of 64-bit ELF (chapter 5, "Program Header", of the System V generic ABI). */
module CoreLayout {
  import opened Wrappers
  import opened CoreNotes

  const EHDR: nat := 64
  const PHDR: nat := 56
  const SHDR: nat := 64
  const PN_XNUM: nat := 0xffff

  /** How much of a memory area is dumped: nothing, its first page, all of it. */
  datatype Part = Nothing | FirstPage | Whole

  /** A memory area, from page number `start` to page number `end`. */
  datatype Vma = Vma(id: nat, start: nat, end: nat, part: Part)

  predicate IsArea(v: Vma) { v.start < v.end }

  /** `vma_dump_size`, in bytes. */
  function DumpSize(v: Vma): nat
    requires IsArea(v)
  {
    match v.part
    case Nothing => 0
    case FirstPage => PAGE_SIZE
    case Whole => (v.end - v.start) * PAGE_SIZE
  }

  // ---- the areas ---------------------------------------------------------------------------------------------------

  /** A position in the list of areas, at the gate area, or NULL. */
  datatype Cursor = InList(k: nat) | AtGate | End

  function FirstVma(vmas: seq<Vma>, gate: Option<Vma>): Cursor {
    if vmas != [] then InList(0) else if gate.Some? then AtGate else End
  }

  function NextVma(vmas: seq<Vma>, gate: Option<Vma>, c: Cursor): Cursor
    requires c.InList? ==> c.k < |vmas|
  {
    if c.InList? && c.k + 1 < |vmas| then InList(c.k + 1)
    else if c.AtGate? then End
    else if gate.Some? && !(c.InList? && vmas[c.k] == gate.value) then AtGate
    else End
  }

  function Areas(vmas: seq<Vma>, gate: Option<Vma>): seq<Vma> {
    if gate.Some? then vmas + [gate.value] else vmas
  }

  /** The iteration of every pass visits the areas of the list in order, and then the gate area. */
  method WalkAreas(vmas: seq<Vma>, gate: Option<Vma>) returns (visited: seq<Vma>)
    requires gate.Some? ==> gate.value !in vmas
    ensures visited == Areas(vmas, gate)
  {
    visited := [];
    var c := FirstVma(vmas, gate);
    while c != End
      invariant c.InList? ==> c.k < |vmas| && visited == vmas[..c.k]
      invariant c.AtGate? ==> gate.Some? && visited == vmas
      invariant c.End? ==> visited == Areas(vmas, gate)
      decreases match c case InList(k) => |vmas| - k + 1 case AtGate => 1 case End => 0
    {
      visited := visited + [if c.InList? then vmas[c.k] else gate.value];
      c := NextVma(vmas, gate, c);
    }
  }

  predicate AreAreas(vs: seq<Vma>) { forall i :: 0 <= i < |vs| ==> IsArea(vs[i]) }

  /** The bytes dumped of the first `k` areas. */
  function SumDump(vs: seq<Vma>, k: nat): nat
    requires AreAreas(vs) && k <= |vs|
  {
    if k == 0 then 0 else SumDump(vs, k - 1) + DumpSize(vs[k - 1])
  }

  // ---- the plan ----------------------------------------------------------------------------------------------------

  /** What the architecture adds: program headers, bytes of notes, bytes of data. */
  datatype Extra = Extra(phdrs: nat, notes: nat, data: nat)

  /** A program header: file offset and size of a segment. */
  datatype Segment = Segment(off: nat, filesz: nat)

  /** What the headers say. */
  datatype Headers = Headers(phnum: nat, shoff: nat, shInfo: Option<nat>, note: Segment, loads: seq<Segment>)

  function Segs(areas: nat, extra: Extra): nat { areas + extra.phdrs + 1 }

  function NotesOff(segs: nat): nat { EHDR + segs * PHDR }

  lemma NotesOffWhole(segs: nat)
    ensures NotesOff(segs) % 4 == 0
  {
    assert NotesOff(segs) == 4 * (16 + 14 * segs);
  }

  function DataOff(segs: nat, notes: nat): nat { UpPage(NotesOff(segs) + notes) }

  /** The number of segments, as a reader of the file gets it: from `e_phnum`, or from `sh_info` of the first section
      header if that is the escape value. */
  function ReadSegs(h: Headers): Option<nat> {
    if h.phnum != PN_XNUM then Some(h.phnum) else h.shInfo
  }

  function PhNum(segs: nat): (n: nat)
    ensures n <= PN_XNUM
  {
    if segs > PN_XNUM then PN_XNUM else segs
  }

  /** The number of segments can be read back whatever it is, also if it is the escape value itself. */
  lemma SegsReadBack(h: Headers, segs: nat)
    requires h.phnum == PhNum(segs)
    requires h.shInfo == if PhNum(segs) == PN_XNUM then Some(segs) else None
    ensures ReadSegs(h) == Some(segs)
  {
  }

  /** The sizes of the dumped parts and their sum. */
  method PlanSizes(areas: seq<Vma>) returns (filesz: seq<nat>, total: nat)
    requires AreAreas(areas)
    ensures |filesz| == |areas| && (forall i :: 0 <= i < |areas| ==> filesz[i] == DumpSize(areas[i]))
    ensures total == SumDump(areas, |areas|)
  {
    filesz, total := [], 0;
    for i := 0 to |areas|
      invariant |filesz| == i && total == SumDump(areas, i)
      invariant forall j :: 0 <= j < i ==> filesz[j] == DumpSize(areas[j])
    {
      filesz := filesz + [DumpSize(areas[i])];
      total := total + DumpSize(areas[i]);
    }
  }

  /** Where the headers put the dumped parts: one after the other from `dataoff`. */
  ghost predicate LoadsFollow(areas: seq<Vma>, loads: seq<Segment>, dataoff: nat)
    requires AreAreas(areas)
  {
    && |loads| == |areas|
    && forall i {:trigger loads[i]} :: 0 <= i < |areas| ==>
         loads[i] == Segment(dataoff + SumDump(areas, i), DumpSize(areas[i]))
  }

  method PlanLoads(areas: seq<Vma>, filesz: seq<nat>, dataoff: nat) returns (loads: seq<Segment>)
    requires AreAreas(areas) && |filesz| == |areas|
    requires forall i :: 0 <= i < |areas| ==> filesz[i] == DumpSize(areas[i])
    ensures LoadsFollow(areas, loads, dataoff)
  {
    loads := [];
    var offset := dataoff;
    for i := 0 to |areas|
      invariant |loads| == i && offset == dataoff + SumDump(areas, i)
      invariant forall j {:trigger loads[j]} :: 0 <= j < i ==>
                  loads[j] == Segment(dataoff + SumDump(areas, j), DumpSize(areas[j]))
    {
      loads := loads + [Segment(offset, filesz[i])];
      offset := offset + filesz[i];
    }
  }

  /** What the headers promise. */
  ghost predicate Planned(h: Headers, areas: seq<Vma>, notes: nat, extra: Extra)
    requires AreAreas(areas)
  {
    var segs := Segs(|areas|, extra);
    var dataoff := DataOff(segs, notes + extra.notes);
    && ReadSegs(h) == Some(segs) && h.phnum <= PN_XNUM && (h.shInfo.Some? <==> h.phnum == PN_XNUM)
    && h.note == Segment(NotesOff(segs), notes + extra.notes)
    && LoadsFollow(areas, h.loads, dataoff)
    && h.shoff == dataoff + SumDump(areas, |areas|) + extra.data
  }

  /** The first pass. */
  method PlanCore(areas: seq<Vma>, notes: nat, extra: Extra) returns (h: Headers, filesz: seq<nat>)
    requires AreAreas(areas)
    ensures Planned(h, areas, notes, extra)
    ensures |filesz| == |areas| && forall i :: 0 <= i < |areas| ==> filesz[i] == DumpSize(areas[i])
  {
    var segs := |areas|;
    segs := segs + extra.phdrs;
    segs := segs + 1;
    var phnum := if segs > PN_XNUM then PN_XNUM else segs;
    var offset := EHDR + segs * PHDR;
    var note := Segment(offset, notes + extra.notes);
    offset := offset + (notes + extra.notes);
    var dataoff := UpPage(offset);
    var total;
    filesz, total := PlanSizes(areas);
    var loads := PlanLoads(areas, filesz, dataoff);
    var shInfo := if phnum == PN_XNUM then Some(segs) else None;
    h := Headers(phnum, dataoff + total + extra.data, shInfo, note, loads);
    SegsReadBack(h, segs);
  }

  // ---- the file --------------------------------------------------------------------------------------------------

  lemma DumpWhole(v: Vma)
    requires IsArea(v)
    ensures UpPage(DumpSize(v)) == DumpSize(v)
  {
  }

  /** The pages of one area, each written or skipped: what is dumped is rounded up to pages. */
  method DumpArea(file: CoreFile, filesz: nat) returns (ok: bool)
    modifies file
    ensures ok ==> file.pos == old(file.pos) + UpPage(filesz)
    ensures file.fpos - file.pos == old(file.fpos) - old(file.pos)
  {
    var addr := 0;
    while addr < filesz
      invariant addr % PAGE_SIZE == 0 && addr <= UpPage(filesz) && file.pos == old(file.pos) + addr
      invariant file.fpos - file.pos == old(file.fpos) - old(file.pos)
    {
      var present: bool := *;
      if present {
        ok := file.Emit(PAGE_SIZE);
      } else {
        ok := file.Skip(PAGE_SIZE);
      }
      if !ok {
        return;
      }
      addr := addr + PAGE_SIZE;
    }
    ok := true;
  }

  /** The dumped parts; `at` are the positions where they start. */
  method DumpAreas(file: CoreFile, areas: seq<Vma>, filesz: seq<nat>) returns (ok: bool, at: seq<nat>)
    requires AreAreas(areas) && |filesz| == |areas|
    requires forall i :: 0 <= i < |areas| ==> filesz[i] == DumpSize(areas[i])
    modifies file
    ensures ok ==> |at| == |areas|
    ensures ok ==> forall i {:trigger at[i]} :: 0 <= i < |areas| ==> at[i] == old(file.pos) + SumDump(areas, i)
    ensures ok ==> file.pos == old(file.pos) + SumDump(areas, |areas|)
    ensures file.fpos - file.pos == old(file.fpos) - old(file.pos)
  {
    at := [];
    for i := 0 to |areas|
      invariant |at| == i && file.pos == old(file.pos) + SumDump(areas, i)
      invariant file.fpos - file.pos == old(file.fpos) - old(file.pos)
      invariant forall j {:trigger at[j]} :: 0 <= j < i ==> at[j] == old(file.pos) + SumDump(areas, j)
    {
      at := at + [file.pos];
      DumpWhole(areas[i]);
      ok := DumpArea(file, filesz[i]);
      if !ok {
        return;
      }
    }
    ok := true;
  }

  /** `n` headers of `size` bytes each. */
  method EmitEach(file: CoreFile, n: nat, size: nat) returns (ok: bool)
    modifies file
    ensures ok ==> file.pos == old(file.pos) + n * size
    ensures file.fpos - file.pos == old(file.fpos) - old(file.pos)
  {
    for i := 0 to n
      invariant file.pos == old(file.pos) + i * size
      invariant file.fpos - file.pos == old(file.fpos) - old(file.pos)
    {
      ok := file.Emit(size);
      if !ok {
        return;
      }
    }
    ok := true;
  }

  /** Where the pieces of the file start. */
  datatype Places = Places(notesAt: nat, notesEnd: nat, loadsAt: seq<nat>, shdrAt: nat, end: nat)

  /** The headers and the notes. */
  method WriteHead(file: CoreFile, areas: nat, info: Info, extra: Extra) returns (ok: bool, notesAt: nat)
    requires Collected(info) && file.pos == file.fpos == 0
    modifies file
    ensures ok ==> notesAt == NotesOff(Segs(areas, extra))
    ensures ok ==> file.pos == notesAt + WrittenSize(info) + extra.notes
    ensures file.fpos == file.pos
  {
    notesAt := 0;
    ok := file.Emit(EHDR);
    if !ok { return; }
    ok := file.Emit(PHDR);
    if !ok { return; }
    ok := EmitEach(file, areas, PHDR);
    if !ok { return; }
    ok := EmitEach(file, extra.phdrs, PHDR);
    if !ok { return; }
    notesAt := file.pos;
    NotesOffWhole(Segs(areas, extra));
    ok := WriteNotes(file, info);
    if !ok { return; }
    ok := file.Emit(extra.notes);
  }

  /** `elf_core_dump`, for the list of areas and the gate area of a process. */
  method ElfCoreDump(file: CoreFile, vmas: seq<Vma>, gate: Option<Vma>, info: Info, extra: Extra)
    returns (ok: bool, h: Headers, p: Places)
    requires Collected(info) && AreAreas(Areas(vmas, gate)) && file.pos == file.fpos == 0
    requires gate.Some? ==> gate.value !in vmas
    modifies file
    ensures ok ==> Planned(h, Areas(vmas, gate), PlannedSize(info), extra)
    ensures ok ==> Agree(h, p) && p.end == file.fpos
    ensures ok ==> p.notesEnd - p.notesAt == WrittenSize(info) + extra.notes
  {
    var areas := WalkAreas(vmas, gate);
    var notes := PlanNotes(info);
    var filesz;
    h, filesz := PlanCore(areas, notes, extra);
    p := Places(0, 0, [], 0, 0);
    ok := |areas| + extra.phdrs != 0;
    if !ok { return; }
    var notesAt, loadsAt;
    ok, notesAt := WriteHead(file, |areas|, info, extra);
    if !ok { return; }
    var notesEnd := file.pos;
    NotesAgreeIff(info);
    var dataoff := DataOff(Segs(|areas|, extra), notes + extra.notes);
    ok := file.Skip(dataoff - file.pos);
    if !ok { return; }
    ok, loadsAt := DumpAreas(file, areas, filesz);
    if !ok { return; }
    ok := file.Emit(extra.data);
    if !ok { return; }
    var shdrAt := file.pos;
    if h.phnum == PN_XNUM {
      ok := file.Emit(SHDR);
      if !ok { return; }
    }
    p := Places(notesAt, notesEnd, loadsAt, shdrAt, file.pos);
  }

  /** Both passes agree: the note segment, every dumped part and the section header are where the headers say. */
  predicate Agree(h: Headers, p: Places) {
    && p.notesAt == h.note.off && |p.loadsAt| == |h.loads| && p.shdrAt == h.shoff
    && (forall i :: 0 <= i < |h.loads| ==> p.loadsAt[i] == h.loads[i].off)
    && p.notesEnd <= h.note.off + h.note.filesz
    && p.end == h.shoff + if h.phnum == PN_XNUM then SHDR else 0
  }

  /** With the register sets that have a note type first, the note segment is also as long as its header says. */
  lemma NoteSegmentFilled(h: Headers, p: Places, info: Info, areas: seq<Vma>, extra: Extra)
    requires Collected(info) && TypesArePrefix(info.types) && AreAreas(areas)
    requires Planned(h, areas, PlannedSize(info), extra) && Agree(h, p)
    requires p.notesEnd - p.notesAt == WrittenSize(info) + extra.notes
    ensures p.notesEnd == h.note.off + h.note.filesz
    ensures h.loads != [] ==> p.loadsAt[0] == UpPage(p.notesEnd)
  {
    PrefixSuffices(info);
  }
}
