/** Positions in a core file: the emit, skip and align helpers of the core dumper, and the ELF notes planned and
    written with them.  What is written is counted; the bytes themselves are not modelled. */
module CoreNotes {
  import opened Wrappers

  const PAGE_SIZE: nat := 4096
  /** `sizeof(struct elf_note)`. */
  const NOTE_HDR: nat := 12

  /** `x` rounded up to a multiple of 4. */
  function Up4(x: nat): (r: nat)
    ensures x <= r < x + 4
  {
    4 * ((x + 3) / 4)
  }

  /** `x` rounded up to whole pages. */
  function UpPage(x: nat): (r: nat)
    ensures x <= r < x + PAGE_SIZE && r % PAGE_SIZE == 0
  {
    (x + (PAGE_SIZE - 1)) / PAGE_SIZE * PAGE_SIZE
  }

  lemma Up4Add(p: nat, x: nat)
    requires p % 4 == 0
    ensures Up4(p + x) == p + Up4(x)
  {
  }

  // ---- coredump.c ------------------------------------------------------------------------------------------------

  /** `struct coredump_params`, with the position of its file.  Writes may be short, fail or be interrupted. */
  class CoreFile {
    var pos: nat
    var written: nat
    var fpos: nat
    const limit: nat
    const seekable: bool

    constructor (limit: nat, seekable: bool)
      ensures pos == written == fpos == 0 && this.limit == limit && this.seekable == seekable
    {
      pos, written, fpos := 0, 0, 0;
      this.limit, this.seekable := limit, seekable;
    }

    /** `dump_emit`. */
    method Emit(nr: nat) returns (ok: bool)
      modifies this
      ensures ok ==> pos == old(pos) + nr && written == old(written) + nr && written <= limit
      ensures old(pos) <= pos <= old(pos) + nr
      ensures fpos - pos == old(fpos) - old(pos)
      ensures old(written) + nr > limit ==> !ok && pos == old(pos)
    {
      if written + nr > limit {
        return false;
      }
      var left: nat := nr;
      while left > 0
        invariant left <= nr && pos == old(pos) + (nr - left) && written == old(written) + (nr - left)
        invariant fpos - pos == old(fpos) - old(pos)
      {
        var interrupted: bool := *;
        var n: int := *;
        if interrupted || n <= 0 || n > left {
          return false;
        }
        fpos := fpos + n;
        written := written + n;
        pos := pos + n;
        left := left - n;
      }
      ok := true;
    }

    /** `dump_skip`: seeks where the file can, and writes zeros where it cannot. */
    method Skip(nr: nat) returns (ok: bool)
      modifies this
      ensures ok ==> pos == old(pos) + nr
      ensures ok && seekable ==> written == old(written)
      ensures old(pos) <= pos <= old(pos) + nr
      ensures fpos - pos == old(fpos) - old(pos)
    {
      if seekable {
        ok := *;
        if ok {
          fpos := fpos + nr;
          pos := pos + nr;
        }
        return;
      }
      var left: nat := nr;
      while left > PAGE_SIZE
        invariant left <= nr && pos == old(pos) + (nr - left)
        invariant fpos - pos == old(fpos) - old(pos)
      {
        ok := Emit(PAGE_SIZE);
        if !ok {
          return;
        }
        left := left - PAGE_SIZE;
      }
      ok := Emit(left);
    }

    /** `dump_align` to 4. */
    method Align4() returns (ok: bool)
      modifies this
      ensures ok ==> pos == Up4(old(pos))
      ensures old(pos) <= pos <= Up4(old(pos))
      ensures fpos - pos == old(fpos) - old(pos)
    {
      var mod := pos % 4;
      if mod != 0 {
        ok := Skip(4 - mod);
      } else {
        ok := true;
      }
    }

    /** `writenote`: from a position that is a multiple of 4, exactly the size that `notesize` gives. */
    method WriteNote(n: Note) returns (ok: bool)
      requires pos % 4 == 0
      modifies this
      ensures ok ==> pos == old(pos) + NoteSize(n) && pos % 4 == 0
      ensures pos >= old(pos) && fpos - pos == old(fpos) - old(pos)
    {
      ghost var start := pos + NOTE_HDR;
      ghost var quads := pos / 4;
      assert pos == 4 * quads;
      Up4Add(start, n.nameLen + 1);
      Up4Add(start + Up4(n.nameLen + 1), n.dataSz);
      ok := Emit(NOTE_HDR);
      if ok {
        ok := Emit(n.nameLen + 1);
      }
      if ok {
        ok := Align4();
        assert ok ==> pos == start + Up4(n.nameLen + 1);
      }
      if ok {
        ok := Emit(n.dataSz);
      }
      if ok {
        ok := Align4();
      }
    }
  }

  // ---- notes -------------------------------------------------------------------------------------------------------

  /** A note: the length of its name, without the NUL, and of its data. */
  datatype Note = Note(nameLen: nat, dataSz: nat)

  /** `notesize`. */
  function NoteSize(n: Note): (sz: nat)
    ensures sz >= NOTE_HDR
  {
    NOTE_HDR + Up4(n.nameLen + 1) + Up4(n.dataSz)
  }

  /** The notes that the register sets of a thread make, one entry per register set; there is none if the set has no
      note type, is inactive or cannot be read. */
  type Thread = seq<Option<Note>>

  /** What `fill_note_info` collects: the note type of each register set (0 for none), the threads, the process-wide
      notes, and the note of mapped files if there is one. */
  datatype Info = Info(types: seq<nat>, threads: seq<Thread>, psinfo: Note, signote: Note, auxv: Note,
                       files: Option<Note>)

  const NT_PRSTATUS: nat := 1

  /** Every thread has an entry per register set, the first is the status note, and no type means no note. */
  predicate Collected(info: Info) {
    && info.types != [] && info.types[0] == NT_PRSTATUS && info.threads != []
    && forall t :: 0 <= t < |info.threads| ==> ThreadFits(info.types, info.threads[t])
  }

  predicate ThreadFits(types: seq<nat>, t: Thread) {
    |t| == |types| > 0 && t[0].Some? && forall i :: 0 <= i < |t| && types[i] == 0 ==> t[i].None?
  }

  /** How many register sets have a note type.  This many places are allocated for the notes of a thread. */
  function Typed(types: seq<nat>): (n: nat)
    ensures n <= |types|
  {
    if types == [] then 0 else Typed(types[..|types| - 1]) + if types[|types| - 1] != 0 then 1 else 0
  }

  function PlaceSize(n: Option<Note>): nat { if n.Some? then NoteSize(n.value) else 0 }

  /** The size of the notes in the first `k` places. */
  function SizeUpTo(t: Thread, k: nat): nat
    requires k <= |t|
  {
    if k == 0 then 0 else SizeUpTo(t, k - 1) + PlaceSize(t[k - 1])
  }

  /** The size of the notes of the first `m` threads, in all places or only in the first `k`. */
  function ThreadsSize(ts: seq<Thread>, m: nat, k: nat): nat
    requires m <= |ts| && forall t :: 0 <= t < m ==> k <= |ts[t]|
  {
    if m == 0 then 0 else ThreadsSize(ts, m - 1, k) + SizeUpTo(ts[m - 1], k)
  }

  function CommonSize(info: Info): nat {
    NoteSize(info.psinfo) + NoteSize(info.signote) + NoteSize(info.auxv) + PlaceSize(info.files)
  }

  function PlannedSize(info: Info): nat
    requires Collected(info)
  {
    ThreadsSize(info.threads, |info.threads|, |info.types|) + CommonSize(info)
  }

  function WrittenSize(info: Info): nat
    requires Collected(info)
  {
    ThreadsSize(info.threads, |info.threads|, Typed(info.types)) + CommonSize(info)
  }

  lemma {:induction false} SizeGrows(t: Thread, k: nat, n: nat)
    requires k <= n <= |t|
    ensures SizeUpTo(t, k) <= SizeUpTo(t, n)
    ensures SizeUpTo(t, k) == SizeUpTo(t, n) <==> forall i :: k <= i < n ==> t[i].None?
    decreases n
  {
    if k < n {
      SizeGrows(t, k, n - 1);
    }
  }

  lemma {:induction false} ThreadsGrow(ts: seq<Thread>, m: nat, k: nat, n: nat)
    requires m <= |ts| && k <= n && forall t :: 0 <= t < m ==> n == |ts[t]|
    ensures ThreadsSize(ts, m, k) <= ThreadsSize(ts, m, n)
    ensures ThreadsSize(ts, m, k) == ThreadsSize(ts, m, n) <==>
              forall t, i :: 0 <= t < m && k <= i < n ==> ts[t][i].None?
  {
    if m > 0 {
      ThreadsGrow(ts, m - 1, k, n);
      SizeGrows(ts[m - 1], k, n);
    }
  }

  /** Every note that is made has a place: register set `i` puts its note into place `i`. */
  predicate HasPlaces(types: seq<nat>, t: Thread) {
    forall i :: 0 <= i < |t| && t[i].Some? ==> i < Typed(types)
  }

  /** The notes written are as long as planned exactly if every note is put into a place that was allocated: places are
      counted by note types and used by register sets. */
  lemma NotesAgreeIff(info: Info)
    requires Collected(info)
    ensures WrittenSize(info) <= PlannedSize(info)
    ensures WrittenSize(info) == PlannedSize(info) <==>
              forall t :: 0 <= t < |info.threads| ==> HasPlaces(info.types, info.threads[t])
  {
    var k, n := Typed(info.types), |info.types|;
    ThreadsGrow(info.threads, |info.threads|, k, n);
    forall t | 0 <= t < |info.threads|
      ensures HasPlaces(info.types, info.threads[t]) <==> forall i :: k <= i < n ==> info.threads[t][i].None?
    {
      assert ThreadFits(info.types, info.threads[t]);
    }
  }

  predicate TypesArePrefix(types: seq<nat>) {
    forall i, j :: 0 <= i < j < |types| && types[j] != 0 ==> types[i] != 0
  }

  lemma {:induction false} TypedPrefix(types: seq<nat>)
    requires TypesArePrefix(types)
    ensures forall i :: 0 <= i < |types| ==> (types[i] != 0 <==> i < Typed(types))
  {
    if types != [] {
      var before := types[..|types| - 1];
      TypedPrefix(before);
      forall i | 0 <= i < |before| ensures types[i] == before[i] {}
    }
  }

  /** It is enough that the register sets with a note type come first, which the caller can see. */
  lemma PrefixSuffices(info: Info)
    requires Collected(info) && TypesArePrefix(info.types)
    ensures forall t :: 0 <= t < |info.threads| ==> HasPlaces(info.types, info.threads[t])
    ensures WrittenSize(info) == PlannedSize(info)
  {
    TypedPrefix(info.types);
    NotesAgreeIff(info);
  }

  lemma {:induction false} TypedWithGap(types: seq<nat>, i: nat)
    requires i < |types| && types[i] == 0
    ensures Typed(types) < |types|
  {
    if i < |types| - 1 {
      TypedWithGap(types[..|types| - 1], i);
    }
  }

  /** The last register set with a note type. */
  lemma {:induction false} LastTyped(types: seq<nat>) returns (j: nat)
    requires types != [] && types[0] != 0
    ensures j < |types| && types[j] != 0 && forall k :: j < k < |types| ==> types[k] == 0
    ensures Typed(types) == Typed(types[..j + 1])
  {
    var before := types[..|types| - 1];
    if types[|types| - 1] != 0 {
      j := |types| - 1;
      assert types[..j + 1] == types;
    } else {
      j := LastTyped(before);
      assert before[..j + 1] == types[..j + 1];
    }
  }

  /** No dump with these note types loses a note. */
  ghost predicate NoneLost(types: seq<nat>) {
    forall info :: Collected(info) && info.types == types ==> WrittenSize(info) == PlannedSize(info)
  }

  /** A thread that makes a note for every register set with a note type. */
  function AllNotes(types: seq<nat>): Thread {
    seq(|types|, i requires 0 <= i < |types| => if types[i] != 0 then Some(Note(4, 8)) else None)
  }

  /** What can be seen before a dump: no note is ever lost exactly if the register sets with a note type come first. */
  lemma NoneLostIff(types: seq<nat>)
    requires types != [] && types[0] == NT_PRSTATUS
    ensures NoneLost(types) <==> TypesArePrefix(types)
  {
    if TypesArePrefix(types) {
      forall info | Collected(info) && info.types == types
        ensures WrittenSize(info) == PlannedSize(info)
      {
        PrefixSuffices(info);
      }
    } else {
      var made, n := AllNotes(types), Note(4, 8);
      var info := Info(types, [made], n, n, n, None);
      var j := LastTyped(types);
      var i, k :| 0 <= i < k < |types| && types[k] != 0 && types[i] == 0;
      assert i < j;
      TypedWithGap(types[..j + 1], i);
      assert made[j].Some? && !HasPlaces(types, info.threads[0]);
      NotesAgreeIff(info);
    }
  }

  /** A register set without a note type before one with a note: the last note is put behind the places allocated,
      and is planned and not written. */
  lemma GapLosesNote()
    ensures var made := [Some(Note(4, 8)), None, Some(Note(5, 8))];
            var info := Info([NT_PRSTATUS, 0, 2], [made], Note(4, 8), Note(4, 8), Note(4, 8), None);
            && Collected(info) && Typed(info.types) == 2
            && !HasPlaces(info.types, made) && WrittenSize(info) < PlannedSize(info)
  {
    var made := [Some(Note(4, 8)), None, Some(Note(5, 8))];
    var info := Info([NT_PRSTATUS, 0, 2], [made], Note(4, 8), Note(4, 8), Note(4, 8), None);
    var types := info.types;
    assert types[..2] == [NT_PRSTATUS, 0] && types[..2][..1] == [NT_PRSTATUS] && types[..2][..1][..0] == [];
    assert Typed(types[..2][..1]) == 1;
    assert Typed(types) == 2;
    assert made[2].Some? && info.threads[0] == made;
    NotesAgreeIff(info);
  }

  // ---- binfmt_elf.c ----------------------------------------------------------------------------------------------

  /** The count that `fill_note_info` allocates places by. */
  method CountTypes(types: seq<nat>) returns (threadNotes: nat)
    ensures threadNotes == Typed(types)
  {
    threadNotes := 0;
    for i := 0 to |types|
      invariant threadNotes == Typed(types[..i])
    {
      assert types[..i + 1][..i] == types[..i];
      if types[i] != 0 {
        threadNotes := threadNotes + 1;
      }
    }
    assert types[..|types|] == types;
  }

  /** `fill_thread_core_info`, into the places allocated for the thread; `outside` are the register sets whose note is
      put behind them.  All writes are inside exactly if every note made has a place. */
  method FillThread(types: seq<nat>, made: Thread) returns (notes: array<Option<Note>>, outside: seq<nat>, size: nat)
    requires ThreadFits(types, made) && types[0] != 0
    ensures notes.Length == Typed(types) && forall i :: 0 <= i < notes.Length ==> notes[i] == made[i]
    ensures forall i :: i in outside <==> notes.Length <= i < |made| && made[i].Some?
    ensures outside == [] <==> HasPlaces(types, made)
    ensures size == SizeUpTo(made, |made|)
  {
    TypedPositive(types);
    var threadNotes := CountTypes(types);
    notes := new Option<Note>[threadNotes](_ => None);
    outside := [];
    notes[0] := made[0];
    size := NoteSize(made[0].value);
    for i := 1 to |made|
      invariant forall j :: 0 <= j < notes.Length ==> notes[j] == if j < i then made[j] else None
      invariant forall j :: j in outside <==> notes.Length <= j < i && made[j].Some?
      invariant size == SizeUpTo(made, i)
    {
      if made[i].Some? {
        if i < notes.Length {
          notes[i] := made[i];
        } else {
          outside := outside + [i];
        }
        size := size + NoteSize(made[i].value);
      }
    }
    assert outside != [] ==> outside[0] in outside;
  }

  /** The sum that `fill_note_info` builds up. */
  method PlanNotes(info: Info) returns (size: nat)
    requires Collected(info)
    ensures size == PlannedSize(info)
  {
    size := 0;
    for m := 0 to |info.threads|
      invariant size == ThreadsSize(info.threads, m, |info.types|)
    {
      assert ThreadFits(info.types, info.threads[m]);
      var _, _, sz := FillThread(info.types, info.threads[m]);
      size := size + sz;
    }
    size := size + NoteSize(info.psinfo);
    size := size + NoteSize(info.signote);
    size := size + NoteSize(info.auxv);
    if info.files.Some? {
      size := size + NoteSize(info.files.value);
    }
  }

  /** The process-wide notes, written after the first note of the first thread. */
  method WriteCommon(file: CoreFile, info: Info) returns (ok: bool)
    requires file.pos % 4 == 0
    modifies file
    ensures ok ==> file.pos == old(file.pos) + CommonSize(info) && file.pos % 4 == 0
    ensures file.pos >= old(file.pos) && file.fpos - file.pos == old(file.fpos) - old(file.pos)
  {
    ok := file.WriteNote(info.psinfo);
    if ok {
      ok := file.WriteNote(info.signote);
    }
    if ok {
      ok := file.WriteNote(info.auxv);
    }
    if ok && info.files.Some? {
      ok := file.WriteNote(info.files.value);
    }
  }

  /** `write_note_info`. */
  method WriteNotes(file: CoreFile, info: Info) returns (ok: bool)
    requires Collected(info) && file.pos % 4 == 0
    modifies file
    ensures ok ==> file.pos == old(file.pos) + WrittenSize(info) && file.pos % 4 == 0
    ensures file.pos >= old(file.pos) && file.fpos - file.pos == old(file.fpos) - old(file.pos)
  {
    var threadNotes := Typed(info.types);
    TypedPositive(info.types);
    for m := 0 to |info.threads|
      invariant file.pos % 4 == 0 && file.pos >= old(file.pos)
      invariant file.fpos - file.pos == old(file.fpos) - old(file.pos)
      invariant file.pos == old(file.pos) + ThreadsSize(info.threads, m, threadNotes) +
                  if m > 0 then CommonSize(info) else 0
    {
      var t := info.threads[m];
      assert ThreadFits(info.types, t);
      ok := file.WriteNote(t[0].value);
      if !ok {
        return;
      }
      if m == 0 {
        ok := WriteCommon(file, info);
        if !ok {
          return;
        }
      }
      for i := 1 to threadNotes
        invariant file.pos % 4 == 0 && file.pos >= old(file.pos)
        invariant file.fpos - file.pos == old(file.fpos) - old(file.pos)
        invariant file.pos == old(file.pos) + ThreadsSize(info.threads, m, threadNotes) + SizeUpTo(t, i) +
                    CommonSize(info)
      {
        if t[i].Some? {
          ok := file.WriteNote(t[i].value);
          if !ok {
            return;
          }
        }
      }
    }
    ok := true;
  }

  lemma {:induction false} TypedPositive(types: seq<nat>)
    requires types != [] && types[0] != 0
    ensures Typed(types) >= 1
  {
    if |types| > 1 {
      TypedPositive(types[..|types| - 1]);
    }
  }
}
