/** The note of mapped files in a core dump: `fill_files_note` guesses a buffer size, writes the entries and the names
    of the files in two growing areas, starts again with a larger buffer if a name does not fit, and finally moves
    the names down over the entries that were not needed. */
module FilesNote {
  import opened CoreNotes
  import opened Wrappers

  type Byte = x: int | 0 <= x < 256 witness 0

  const MAX_FILE_NOTE_SIZE: nat := 4 * 1024 * 1024
  const UINT_MAX: nat := 0xffff_ffff

  /** What `file_path` would answer with room enough: a name without NUL, or an error other than "too long". */
  datatype Path = Name(text: seq<Byte>) | Unknown

  /** A memory area and the file it maps, if any. */
  datatype Vma = Vma(start: nat, end: nat, pgoff: nat, file: Option<Path>)

  datatype Result = Filled(bytes: seq<Byte>) | Einval | Enomem

  // ---- the format ------------------------------------------------------------------------------------------------

  function Pow256(n: nat): (p: nat)
    ensures p > 0
  {
    if n == 0 then 1 else 256 * Pow256(n - 1)
  }

  /** A machine word in memory, lowest byte first. */
  function Long(v: nat): (b: seq<Byte>)
    ensures |b| == 8
  {
    seq(8, i requires 0 <= i => v / Pow256(i) % 256)
  }

  /** The areas that get an entry: those that map a file whose name can be found. */
  predicate Listed(v: Vma) { v.file.Some? && v.file.value.Name? }

  /** How many of the first `n` areas get an entry. */
  function Count(vmas: seq<Vma>, n: nat): (c: nat)
    requires n <= |vmas|
    ensures c <= n
  {
    if n == 0 then 0 else Count(vmas, n - 1) + if Listed(vmas[n - 1]) then 1 else 0
  }

  function TripleOf(v: Vma): (b: seq<Byte>)
    ensures |b| == if Listed(v) then 24 else 0
  {
    if Listed(v) then Long(v.start) + Long(v.end) + Long(v.pgoff) else []
  }

  function NameOf(v: Vma): seq<Byte> { if Listed(v) then v.file.value.text + [0] else [] }

  function Triples(vmas: seq<Vma>, n: nat): (b: seq<Byte>)
    requires n <= |vmas|
    ensures |b| == 24 * Count(vmas, n)
  {
    if n == 0 then [] else Triples(vmas, n - 1) + TripleOf(vmas[n - 1])
  }

  function Names(vmas: seq<Vma>, n: nat): seq<Byte>
    requires n <= |vmas|
  {
    if n == 0 then [] else Names(vmas, n - 1) + NameOf(vmas[n - 1])
  }

  /** Number of entries, page size, one triple per entry, and the names, each with its NUL, right after them. */
  function NoteBytes(vmas: seq<Vma>): seq<Byte> {
    Long(Count(vmas, |vmas|)) + Long(PAGE_SIZE) + Triples(vmas, |vmas|) + Names(vmas, |vmas|)
  }

  lemma {:induction false} NamesGrow(vmas: seq<Vma>, n: nat, m: nat)
    requires n <= m <= |vmas|
    ensures |Names(vmas, n)| <= |Names(vmas, m)|
    decreases m
  {
    if n < m {
      NamesGrow(vmas, n, m - 1);
    }
  }

  // ---- memory ------------------------------------------------------------------------------------------------------

  /** `s` with the bytes from `at` on replaced by `t`. */
  function Splice(s: seq<Byte>, at: nat, t: seq<Byte>): (r: seq<Byte>)
    requires at + |t| <= |s|
    ensures |r| == |s|
  {
    s[..at] + t + s[at + |t|..]
  }

  lemma SamePrefix(s: seq<Byte>, s': seq<Byte>, n: nat, lo: nat, hi: nat)
    requires n <= |s| && n <= |s'| && s[..n] == s'[..n] && lo <= hi <= n
    ensures s[lo..hi] == s'[lo..hi]
  {
    assert s[lo..hi] == s[..n][lo..hi] && s'[lo..hi] == s'[..n][lo..hi];
  }

  lemma SpliceIn(s: seq<Byte>, at: nat, t: seq<Byte>)
    requires at + |t| <= |s|
    ensures Splice(s, at, t)[at..at + |t|] == t
  {
  }

  /** What lies before or behind the replaced bytes stays. */
  lemma SpliceOut(s: seq<Byte>, at: nat, t: seq<Byte>, lo: nat, hi: nat)
    requires at + |t| <= |s| && lo <= hi <= |s| && (hi <= at || lo >= at + |t|)
    ensures Splice(s, at, t)[lo..hi] == s[lo..hi]
  {
  }

  /** Bytes put right behind a known part extend it. */
  lemma SpliceExtends(s: seq<Byte>, lo: nat, at: nat, t: seq<Byte>)
    requires lo <= at && at + |t| <= |s|
    ensures Splice(s, at, t)[lo..at + |t|] == s[lo..at] + t
  {
  }

  lemma SpliceTwice(s: seq<Byte>, at: nat, t: seq<Byte>, u: seq<Byte>)
    requires at + |t| + |u| <= |s|
    ensures Splice(Splice(s, at, t), at + |t|, u) == Splice(s, at, t + u)
  {
  }

  lemma SpliceThrice(s0: seq<Byte>, s1: seq<Byte>, s2: seq<Byte>, s3: seq<Byte>, at: nat, t: seq<Byte>, u: seq<Byte>,
                     v: seq<Byte>)
    requires |t| == |u| == |v| == 8 && at + 24 <= |s0|
    requires s1 == Splice(s0, at, t) && s2 == Splice(s1, at + 8, u) && s3 == Splice(s2, at + 16, v)
    ensures s3 == Splice(s0, at, t + u + v)
  {
    SpliceTwice(s0, at, t, u);
    SpliceTwice(s0, at, t + u, v);
  }

  /** Bytes put behind one area leave another one, and extend their own. */
  lemma TwoAreas(s: seq<Byte>, a: nat, b: nat, t: seq<Byte>, lo: nat, mid: nat, hi: nat)
    requires a <= b && b + |t| <= lo <= mid <= hi <= |s|
    ensures var now := Splice(s, b, t);
            now[a..b + |t|] == s[a..b] + t && now[lo..hi] == s[lo..mid] + s[mid..hi]
  {
    SpliceExtends(s, a, b, t);
    SpliceOut(s, b, t, lo, hi);
  }

  /** A name behind the names and a triple behind the triples make one more entry. */
  lemma EntryPlaced(s: seq<Byte>, vmas: seq<Vma>, n: nat, namesOfs: nat, cur: nat, end: nat)
    requires n < |vmas| && Listed(vmas[n]) && 16 + 24 * Count(vmas, n) + 24 <= namesOfs <= cur <= end <= |s|
    requires s[16..16 + 24 * Count(vmas, n)] == Triples(vmas, n) && s[namesOfs..cur] == Names(vmas, n)
    requires s[cur..end] == NameOf(vmas[n])
    ensures var now := Splice(s, 16 + 24 * Count(vmas, n), TripleOf(vmas[n]));
            && now[16..16 + 24 * Count(vmas, n + 1)] == Triples(vmas, n + 1)
            && now[namesOfs..end] == Names(vmas, n + 1)
  {
    TwoAreas(s, 16, 16 + 24 * Count(vmas, n), TripleOf(vmas[n]), namesOfs, cur, end);
  }

  lemma Assembled(s: seq<Byte>, vmas: seq<Vma>, low: nat, size: nat)
    requires low == 16 + 24 * Count(vmas, |vmas|) && size == low + |Names(vmas, |vmas|)| <= |s|
    requires s[0..16] == Long(Count(vmas, |vmas|)) + Long(PAGE_SIZE) && s[16..low] == Triples(vmas, |vmas|)
    requires s[low..size] == Names(vmas, |vmas|)
    ensures s[..size] == NoteBytes(vmas)
  {
    assert s[..size] == s[0..16] + s[16..low] + s[low..size];
  }

  /** A buffer that is written in place. */
  class Buffer {
    const data: array<Byte>

    constructor (size: nat)
      ensures data.Length == size && fresh(data)
    {
      data := new Byte[size];
    }

    ghost function Contents(): seq<Byte> reads data { data[..] }

    /** `memmove`, towards lower addresses. */
    method MoveDown(dst: nat, src: nat, n: nat)
      requires dst <= src && src + n <= data.Length
      modifies data
      ensures Contents() == Splice(old(Contents()), dst, old(Contents())[src..src + n])
    {
      ghost var was := data[..];
      for i := 0 to n
        invariant data[..dst] == was[..dst] && data[dst..dst + i] == was[src..src + i]
        invariant data[dst + i..] == was[dst + i..]
      {
        assert data[src + i] == data[dst + i..][src - dst];
        data[dst + i] := data[src + i];
      }
      assert data[..] == data[..dst] + data[dst..dst + n] + data[dst + n..];
    }

    /** A word written at a byte offset. */
    method PutLong(at: nat, v: nat)
      requires at + 8 <= data.Length
      modifies data
      ensures Contents() == Splice(old(Contents()), at, Long(v))
    {
      var bytes := Long(v);
      for i := 0 to 8
        invariant forall j :: 0 <= j < data.Length ==>
                    data[j] == if at <= j < at + i then bytes[j - at] else old(data[j])
      {
        data[at + i] := bytes[i];
      }
    }

    /** `file_path` into the `room` bytes from `at`: the name and its NUL at the end of the room, or nothing but
        scribbles inside it. */
    method FilePath(path: Path, at: nat, room: nat) returns (r: Found)
      requires at + room <= data.Length
      modifies data
      ensures r.TooLong? <==> path.Name? && |path.text| + 1 > room
      ensures r.Error? <==> path.Unknown?
      ensures r.At? ==> path.Name? && r.offset == at + room - (|path.text| + 1) &&
                        Contents() == Splice(old(Contents()), r.offset, path.text + [0])
      ensures Contents()[..at] == old(Contents())[..at] && Contents()[at + room..] == old(Contents())[at + room..]
    {
      if path.Unknown? || |path.text| + 1 > room {
        var scribbles: nat := *;
        var i := at + room;
        while i > at && i + scribbles > at + room
          invariant at <= i <= at + room
          invariant data[..at] == old(data[..at]) && data[at + room..] == old(data[at + room..])
        {
          i := i - 1;
          data[i] := *;
        }
        return if path.Unknown? then Error else TooLong;
      }
      var text := path.text + [0];
      var offset := at + room - |text|;
      ghost var was := data[..];
      for i := 0 to |text|
        invariant data[..offset] == was[..offset] && data[offset..offset + i] == text[..i]
        invariant data[offset + i..] == was[offset + i..]
      {
        data[offset + i] := text[i];
      }
      assert data[..] == data[..offset] + data[offset..offset + |text|] + data[offset + |text|..];
      r := At(offset);
    }

    /** The entries of the first `n` areas, and their names from `namesOfs` on up to `cur`. */
    ghost predicate Holds(vmas: seq<Vma>, n: nat, namesOfs: nat, cur: nat)
      reads data
    {
      && n <= |vmas| && 16 + 24 * Count(vmas, n) <= namesOfs && cur == namesOfs + |Names(vmas, n)| <= data.Length
      && Contents()[16..16 + 24 * Count(vmas, n)] == Triples(vmas, n)
      && Contents()[namesOfs..cur] == Names(vmas, n)
    }

    /** Three words from `at` on. */
    method PutTriple(at: nat, a: nat, b: nat, c: nat)
      requires at + 24 <= data.Length
      modifies data
      ensures Contents() == Splice(old(Contents()), at, Long(a) + Long(b) + Long(c))
    {
      ghost var s0 := Contents();
      PutLong(at, a);
      ghost var s1 := Contents();
      PutLong(at + 8, b);
      ghost var s2 := Contents();
      PutLong(at + 16, c);
      SpliceThrice(s0, s1, s2, Contents(), at, Long(a), Long(b), Long(c));
    }

    /** The name of an area's file goes behind the names so far: found at the end of the room, it is moved down. */
    method PutName(path: Path, cur: nat) returns (r: Found)
      requires cur <= data.Length
      modifies data
      ensures r.TooLong? <==> path.Name? && |path.text| + 1 > data.Length - cur
      ensures r.Error? <==> path.Unknown?
      ensures Contents()[..cur] == old(Contents())[..cur]
      ensures r.At? ==> path.Name? && cur + |path.text| + 1 <= data.Length &&
                        Contents()[cur..cur + |path.text| + 1] == path.text + [0]
    {
      r := FilePath(path, cur, data.Length - cur);
      if r.At? {
        ghost var text := path.text + [0];
        ghost var found := Contents();
        assert found[r.offset..r.offset + |text|] == text;
        MoveDown(cur, r.offset, |path.text| + 1);
        SpliceIn(found, cur, text);
      }
    }

    /** One area, whether it maps a file or not. */
    method PutVma(vmas: seq<Vma>, n: nat, count: nat, namesOfs: nat, cur: nat)
      returns (tooLong: bool, count': nat, cur': nat)
      requires Holds(vmas, n, namesOfs, cur) && n < |vmas| && namesOfs >= 16 + 24 * |vmas| && count == Count(vmas, n)
      modifies data
      ensures tooLong ==> namesOfs + |Names(vmas, n + 1)| > data.Length
      ensures !tooLong ==> count' == Count(vmas, n + 1) && Holds(vmas, n + 1, namesOfs, cur')
    {
      tooLong, count', cur' := false, count, cur;
      var v := vmas[n];
      if v.file.None? {
        return;
      }
      ghost var was := Contents();
      var r := PutName(v.file.value, cur);
      ghost var named := Contents();
      SamePrefix(was, named, cur, 16, 16 + 24 * count);
      SamePrefix(was, named, cur, namesOfs, cur);
      if r.TooLong? {
        tooLong := true;
      } else if r.At? {
        PutTriple(16 + 24 * count, v.start, v.end, v.pgoff);
        cur' := cur + |v.file.value.text| + 1;
        count' := count + 1;
        EntryPlaced(named, vmas, n, namesOfs, cur, cur');
      }
    }

    /** The loop over the areas. */
    method PutEntries(vmas: seq<Vma>, namesOfs: nat) returns (tooLong: bool, count: nat, cur: nat)
      requires namesOfs == 16 + 24 * |vmas| <= data.Length
      modifies data
      ensures tooLong ==> namesOfs + |Names(vmas, |vmas|)| > data.Length
      ensures !tooLong ==> count == Count(vmas, |vmas|) && Holds(vmas, |vmas|, namesOfs, cur)
    {
      tooLong, count, cur := false, 0, namesOfs;
      for i := 0 to |vmas|
        invariant !tooLong && count == Count(vmas, i)
        invariant Holds(vmas, i, namesOfs, cur)
      {
        tooLong, count, cur := PutVma(vmas, i, count, namesOfs, cur);
        if tooLong {
          NamesGrow(vmas, i + 1, |vmas|);
          return;
        }
      }
    }

    /** The number of entries and the page size, in front of the entries. */
    method PutCounts(ghost vmas: seq<Vma>, count: nat, ghost namesOfs: nat, ghost cur: nat)
      requires Holds(vmas, |vmas|, namesOfs, cur) && count == Count(vmas, |vmas|)
      modifies data
      ensures Holds(vmas, |vmas|, namesOfs, cur)
      ensures Contents()[0..16] == Long(count) + Long(PAGE_SIZE)
    {
      ghost var was := Contents();
      ghost var counts := Long(count) + Long(PAGE_SIZE);
      SpliceTwice(was, 0, Long(count), Long(PAGE_SIZE));
      PutLong(0, count);
      PutLong(8, PAGE_SIZE);
      SpliceIn(was, 0, counts);
      SpliceOut(was, 0, counts, 16, 16 + 24 * count);
      SpliceOut(was, 0, counts, namesOfs, cur);
    }

    /** The names move down by the room of the entries that are not used. */
    method Compact(vmas: seq<Vma>, count: nat, namesOfs: nat, cur: nat) returns (size: nat)
      requires Holds(vmas, |vmas|, namesOfs, cur) && count == Count(vmas, |vmas|) && namesOfs == 16 + 24 * |vmas|
      requires Contents()[0..16] == Long(count) + Long(PAGE_SIZE)
      modifies data
      ensures size <= data.Length && Contents()[..size] == NoteBytes(vmas)
    {
      size := cur;
      ghost var was, names := Contents(), Names(vmas, |vmas|);
      ghost var low := 16 + 24 * count;
      var unused := |vmas| - count;
      if unused != 0 {
        var shift := unused * 3 * 8;
        MoveDown(namesOfs - shift, namesOfs, cur - namesOfs);
        size := size - shift;
        SpliceOut(was, low, names, 0, 16);
        SpliceOut(was, low, names, 16, low);
        SpliceIn(was, low, names);
      }
      Assembled(Contents(), vmas, low, size);
    }
  }

  /** Where `file_path` put the name, or its error. */
  datatype Found = At(offset: nat) | TooLong | Error

  /** How long the note would be at most, before the names are moved down. */
  function Needed(vmas: seq<Vma>): nat { 16 + 24 * |vmas| + |Names(vmas, |vmas|)| }

  /** `fill_files_note`.  It ends, and gives exactly the note of the areas, or an error: for want of memory, and there
      is none to ask for without areas, or because the note comes near the largest size allowed. */
  method FillFilesNote(vmas: seq<Vma>) returns (r: Result)
    ensures r.Filled? ==> r.bytes == NoteBytes(vmas) && vmas != []
    ensures r.Einval? ==> 64 * |vmas| >= MAX_FILE_NOTE_SIZE || Needed(vmas) * 5 / 4 >= MAX_FILE_NOTE_SIZE
  {
    var count := |vmas|;
    if count > UINT_MAX / 64 {
      return Einval;
    }
    var size := count * 64;
    var namesOfs := (2 + 3 * count) * 8;
    while true
      invariant size == 64 * |vmas| || (size <= Needed(vmas) * 5 / 4 && size >= namesOfs && vmas != [])
      decreases MAX_FILE_NOTE_SIZE - size
    {
      if size >= MAX_FILE_NOTE_SIZE {
        return Einval;
      }
      size := UpPage(size);
      var failed: bool := *;
      if failed || size == 0 {
        return Enomem;
      }
      var b := new Buffer(size);
      var tooLong, cur;
      tooLong, count, cur := b.PutEntries(vmas, namesOfs);
      if !tooLong {
        b.PutCounts(vmas, count, namesOfs, cur);
        size := b.Compact(vmas, count, namesOfs, cur);
        return Filled(b.data[..size]);
      }
      size := size * 5 / 4;
    }
  }
}
