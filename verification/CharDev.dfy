/** The table of registered character device numbers: per hash bucket a list of minor ranges sorted by major and first
    minor; registration of a range that spans majors, with its rollback.  The limits are those of the kernel's
    `include/linux/fs.h` and `include/linux/kdev_t.h`. */
module CharDev {
  import opened Wrappers

  const HASH_SIZE: nat := 255
  const MAJOR_MAX: nat := 512
  const MAJOR_DYN_END: nat := 234
  const MAJOR_DYN_EXT_START: nat := 511
  const MAJOR_DYN_EXT_END: nat := 384
  /** Minors per major: `1 << MINORBITS`. */
  const MINORS: nat := 0x10_0000
  const U32: nat := 0x1_0000_0000

  datatype Region = Region(major: nat, base: nat, ct: nat, name: string)

  type Table = seq<seq<Region>>

  /** A 32-bit value taken as signed. */
  function ToInt(x: int): int { var y := x % U32; if y >= 0x8000_0000 then y - U32 else y }

  // ---- the operations ----------------------------------------------------------------------------------------------

  /** Where the scan for a place stops. */
  predicate Stops(r: Region, major: nat, base: nat) {
    r.major > major || (r.major == major && (r.base >= base || (r.base + r.ct) % U32 > base))
  }

  function StopAt(l: seq<Region>, major: nat, base: nat, k: nat): (i: nat)
    requires k <= |l|
    ensures k <= i <= |l| && (i < |l| ==> Stops(l[i], major, base))
    ensures forall j :: k <= j < i ==> !Stops(l[j], major, base)
    decreases |l| - k
  {
    if k < |l| && !Stops(l[k], major, base) then StopAt(l, major, base, k + 1) else k
  }

  /** The two tests for overlap: the last minor of the new range is in the old one, or its first is. */
  predicate Clash(o: Region, n: Region) {
    var oldMin, oldMax := ToInt(o.base), ToInt(o.base + o.ct - 1);
    var newMin, newMax := ToInt(n.base), ToInt(n.base + n.ct - 1);
    oldMin <= newMax <= oldMax || oldMin <= newMin <= oldMax
  }

  predicate HasMajor(l: seq<Region>, major: nat) { exists i :: 0 <= i < |l| && l[i].major == major }

  /** The highest major from `i` down to the end of the first dynamic range with an empty bucket, or else the highest
      unused one of the second. */
  function FreeBucket(t: Table, i: nat): Option<nat>
    requires |t| == HASH_SIZE && i < HASH_SIZE
  {
    if i < MAJOR_DYN_END then None else if t[i] == [] then Some(i) else FreeBucket(t, i - 1)
  }

  function FreeMajor(t: Table, i: nat): Option<nat>
    requires |t| == HASH_SIZE
  {
    if i < MAJOR_DYN_EXT_END then None else if !HasMajor(t[i % HASH_SIZE], i) then Some(i) else FreeMajor(t, i - 1)
  }

  function FindDynamicMajor(t: Table): Option<nat>
    requires |t| == HASH_SIZE
  {
    var b := FreeBucket(t, HASH_SIZE - 1);
    if b.Some? then b else FreeMajor(t, MAJOR_DYN_EXT_START)
  }

  datatype Outcome = Added(cd: Region, table: Table) | Busy | Invalid | NoMemory

  function Insert(l: seq<Region>, k: nat, cd: Region): seq<Region>
    requires k <= |l|
  {
    l[..k] + [cd] + l[k..]
  }

  /** `__register_chrdev_region`; `mem` is whether memory can be had. */
  function Register(t: Table, mem: bool, major: nat, base: nat, ct: nat, name: string): Outcome
    requires |t| == HASH_SIZE
  {
    if !mem then NoMemory else
      var m := if major == 0 then FindDynamicMajor(t) else Some(major);
      if m.None? then Busy
      else if m.value >= MAJOR_MAX then Invalid
      else
        var cd, i := Region(m.value, base, ct, name), m.value % HASH_SIZE;
        var k := StopAt(t[i], m.value, base, 0);
        if k < |t[i]| && t[i][k].major == m.value && Clash(t[i][k], cd) then Busy
        else Added(cd, t[i := Insert(t[i], k, cd)])
  }

  predicate Is(r: Region, major: nat, base: nat, ct: nat) { r.major == major && r.base == base && r.ct == ct }

  /** A list without its first entry for a range. */
  function Removed(l: seq<Region>, major: nat, base: nat, ct: nat): seq<Region> {
    if l == [] then [] else if Is(l[0], major, base, ct) then l[1..] else [l[0]] + Removed(l[1..], major, base, ct)
  }

  /** `__unregister_chrdev_region`. */
  function Unregister(t: Table, major: nat, base: nat, ct: nat): (t': Table)
    requires |t| == HASH_SIZE
    ensures |t'| == HASH_SIZE
  {
    var i := major % HASH_SIZE;
    t[i := Removed(t[i], major, base, ct)]
  }

  // ---- order -------------------------------------------------------------------------------------------------------

  predicate Less(a: Region, b: Region) { a.major < b.major || (a.major == b.major && a.base < b.base) }

  predicate Sorted(l: seq<Region>) { forall i, j :: 0 <= i < j < |l| ==> Less(l[i], l[j]) }

  /** The scan finds a place and the two overlap tests pass. */
  predicate Accepted(l: seq<Region>, cd: Region) {
    var k := StopAt(l, cd.major, cd.base, 0);
    !(k < |l| && l[k].major == cd.major && Clash(l[k], cd))
  }

  /** The entry where the scan stopped should come before the new range, or is at the same number. */
  predicate Misplaced(l: seq<Region>, cd: Region) {
    var k := StopAt(l, cd.major, cd.base, 0);
    k < |l| && l[k].major == cd.major && l[k].base <= cd.base
  }

  /** A list stays strictly sorted exactly if the entry where the scan stopped comes behind the new range, for all
      lists and all ranges. */
  lemma SortedIff(l: seq<Region>, cd: Region)
    requires Sorted(l)
    ensures Sorted(Insert(l, StopAt(l, cd.major, cd.base, 0), cd)) <==> !Misplaced(l, cd)
  {
    var k := StopAt(l, cd.major, cd.base, 0);
    var m := Insert(l, k, cd);
    assert forall i :: 0 <= i < |m| ==> m[i] == if i < k then l[i] else if i == k then cd else l[i - 1];
    if Misplaced(l, cd) {
      assert !Less(m[k], m[k + 1]);
    } else {
      forall i | 0 <= i < |l| ensures if i < k then Less(l[i], cd) else Less(cd, l[i]) {
        assert i > k ==> Less(l[k], l[i]);
      }
    }
  }

  /** Neither the first nor the last minor is negative as a signed 32-bit value. */
  predicate Unwrapped(r: Region) { r.base < 0x8000_0000 && r.base + r.ct <= 0x8000_0000 }

  lemma Arithmetic(r: Region)
    requires Unwrapped(r)
    ensures (r.base + r.ct) % U32 == r.base + r.ct
    ensures ToInt(r.base) == r.base && ToInt(r.base + r.ct - 1) == r.base + r.ct - 1
  {
  }

  /** An empty range is registered at the number where `cd` starts. */
  predicate EmptyAt(l: seq<Region>, cd: Region) {
    exists i :: 0 <= i < |l| && l[i].major == cd.major && l[i].base == cd.base && l[i].ct == 0
  }

  /** The entry where the scan stopped, if it is of the same major, does not reach the negative signed values. */
  predicate StopUnwrapped(l: seq<Region>, cd: Region) {
    var k := StopAt(l, cd.major, cd.base, 0);
    k < |l| && l[k].major == cd.major ==> Unwrapped(l[k])
  }

  /** Of the same major, the entry where the scan stopped for an accepted range is behind the number where that
      starts, or is empty and at this number; and the range does not end in it. */
  lemma StopBehind(l: seq<Region>, cd: Region)
    requires Accepted(l, cd) && Unwrapped(cd) && StopUnwrapped(l, cd)
    ensures var k := StopAt(l, cd.major, cd.base, 0);
            k < |l| && l[k].major == cd.major ==>
              && (cd.base < l[k].base || (cd.base == l[k].base && l[k].ct == 0))
              && (l[k].base < cd.base + cd.ct ==> l[k].base + l[k].ct < cd.base + cd.ct)
  {
    var k := StopAt(l, cd.major, cd.base, 0);
    Arithmetic(cd);
    if k < |l| && l[k].major == cd.major {
      Arithmetic(l[k]);
    }
  }

  /** An empty range at the number where an accepted one starts is where the scan stops. */
  lemma EmptyStops(l: seq<Region>, cd: Region)
    requires Sorted(l) && Accepted(l, cd) && Unwrapped(cd) && StopUnwrapped(l, cd)
    ensures var k := StopAt(l, cd.major, cd.base, 0);
            EmptyAt(l, cd) <==> k < |l| && l[k].major == cd.major && l[k].base == cd.base
  {
    var k := StopAt(l, cd.major, cd.base, 0);
    StopBehind(l, cd);
    forall i | 0 <= i < |l| && l[i].major == cd.major && l[i].base == cd.base && l[i].ct == 0
      ensures k == i
    {
      assert k <= i && (k < i ==> Less(l[k], l[i]));
    }
  }

  /** Where no signed value wraps at the stop, an accepted range breaks the order exactly if an empty range is
      registered at its number.  The new range may itself be empty. */
  lemma MisplacedIff(l: seq<Region>, cd: Region)
    requires Sorted(l) && Accepted(l, cd) && Unwrapped(cd) && StopUnwrapped(l, cd)
    ensures Misplaced(l, cd) <==> EmptyAt(l, cd)
  {
    StopBehind(l, cd);
    EmptyStops(l, cd);
  }

  // ---- overlap -----------------------------------------------------------------------------------------------------

  /** Two ranges with a minor in common. */
  predicate Overlap(a: Region, b: Region) {
    a.major == b.major && a.ct > 0 && b.ct > 0 && a.base < b.base + b.ct && b.base < a.base + a.ct
  }

  /** The new range starts before the old one and ends behind it. */
  predicate Encloses(n: Region, o: Region) { n.major == o.major && n.base < o.base && o.base + o.ct < n.base + n.ct }

  /** The old range is not empty and starts inside the new one, but not at its start. */
  predicate Inside(n: Region, o: Region) {
    n.major == o.major && o.ct > 0 && n.base < o.base < n.base + n.ct
  }

  predicate AnyInside(l: seq<Region>, cd: Region) { exists i :: 0 <= i < |l| && Inside(cd, l[i]) }

  predicate Word(r: Region) { r.base < U32 && r.ct < U32 }

  /** The scan passes over an entry that the new range overlaps exactly if the end of that entry wraps in 32 bits. */
  lemma PassedOverIff(l: seq<Region>, cd: Region, i: nat)
    requires i < StopAt(l, cd.major, cd.base, 0) && l[i].major == cd.major && Word(l[i]) && Word(cd)
    ensures Overlap(cd, l[i]) <==> cd.ct > 0 && l[i].base + l[i].ct >= U32
  {
    assert !Stops(l[i], cd.major, cd.base);
  }

  lemma InsideBehind(l: seq<Region>, cd: Region, i: nat)
    requires i < |l| && Inside(cd, l[i])
    ensures StopAt(l, cd.major, cd.base, 0) <= i
  {
  }

  /** From the stop on, an accepted range overlaps exactly the entries that start inside it: the two tests look at the
      entry where the scan stopped only, and only for a range that begins or ends in it. */
  lemma OverlapsInside(l: seq<Region>, cd: Region, i: nat)
    requires Sorted(l) && Accepted(l, cd) && Unwrapped(cd) && StopUnwrapped(l, cd)
    requires StopAt(l, cd.major, cd.base, 0) <= i < |l|
    ensures Overlap(cd, l[i]) <==> Inside(cd, l[i])
  {
    var k := StopAt(l, cd.major, cd.base, 0);
    StopBehind(l, cd);
    assert k < i ==> Less(l[k], l[i]);
  }

  predicate AnyPassedOver(l: seq<Region>, cd: Region) {
    exists i :: 0 <= i < StopAt(l, cd.major, cd.base, 0) && l[i].major == cd.major && l[i].base + l[i].ct >= U32
  }

  /** An accepted range overlaps a registered one exactly if a non-empty one starts inside it, or it is not empty and
      the end of one before it wraps. */
  lemma OverlapIff(l: seq<Region>, cd: Region)
    requires Sorted(l) && Accepted(l, cd) && Unwrapped(cd) && StopUnwrapped(l, cd)
    requires forall i :: 0 <= i < |l| && l[i].major == cd.major ==> Word(l[i])
    ensures (exists i :: 0 <= i < |l| && Overlap(cd, l[i])) <==>
            AnyInside(l, cd) || (cd.ct > 0 && AnyPassedOver(l, cd))
  {
    var k := StopAt(l, cd.major, cd.base, 0);
    forall i | 0 <= i < |l| && l[i].major == cd.major
      ensures if i < k then !Inside(cd, l[i]) && (Overlap(cd, l[i]) <==> cd.ct > 0 && l[i].base + l[i].ct >= U32)
              else Overlap(cd, l[i]) <==> Inside(cd, l[i])
    {
      if i < k {
        assert !Stops(l[i], cd.major, cd.base);
        PassedOverIff(l, cd, i);
      } else {
        OverlapsInside(l, cd, i);
      }
    }
  }

  /** "What is overlapped from the stop on begins with an entry strictly enclosed there" holds exactly if it is not an
      empty range at the same number that the scan stopped at, with another one behind it. */
  lemma EnclosedIff(l: seq<Region>, cd: Region)
    requires Sorted(l) && Accepted(l, cd) && Unwrapped(cd) && StopUnwrapped(l, cd)
    ensures var k := StopAt(l, cd.major, cd.base, 0);
            ((exists i :: k <= i < |l| && Overlap(cd, l[i])) ==> k < |l| && Encloses(cd, l[k])) <==>
            !(EmptyAt(l, cd) && AnyInside(l, cd))
  {
    var k := StopAt(l, cd.major, cd.base, 0);
    StopBehind(l, cd);
    EmptyStops(l, cd);
    forall i | 0 <= i < |l|
      ensures Inside(cd, l[i]) ==> k <= i
      ensures k <= i ==> (Overlap(cd, l[i]) <==> Inside(cd, l[i]))
      ensures Inside(cd, l[i]) ==> l[k].major == cd.major && l[k].base <= l[i].base
    {
      assert i < k ==> !Stops(l[i], cd.major, cd.base);
      if k <= i {
        OverlapsInside(l, cd, i);
        assert k < i ==> Less(l[k], l[i]);
      }
    }
    if AnyInside(l, cd) {
      var i :| 0 <= i < |l| && Inside(cd, l[i]);
      assert Overlap(cd, l[i]);
    }
  }

  /** Where the scan stopped at a range that is not empty, and ends do not wrap, overlap is enclosure. */
  lemma OverlapIsEnclosure(l: seq<Region>, cd: Region)
    requires Sorted(l) && Accepted(l, cd) && Unwrapped(cd) && StopUnwrapped(l, cd)
    requires forall i :: 0 <= i < |l| && l[i].major == cd.major ==> l[i].base + l[i].ct < U32
    requires var k := StopAt(l, cd.major, cd.base, 0); k < |l| && l[k].major == cd.major ==> l[k].ct > 0
    ensures var k := StopAt(l, cd.major, cd.base, 0);
            (exists i :: 0 <= i < |l| && Overlap(cd, l[i])) <==> k < |l| && Encloses(cd, l[k])
  {
    var k := StopAt(l, cd.major, cd.base, 0);
    OverlapIff(l, cd);
    EnclosedIff(l, cd);
    EmptyStops(l, cd);
    if AnyInside(l, cd) {
      var i :| 0 <= i < |l| && Inside(cd, l[i]);
      InsideBehind(l, cd, i);
      OverlapsInside(l, cd, i);
    }
    if k < |l| && Encloses(cd, l[k]) {
      assert Inside(cd, l[k]);
    }
  }

  /** Where no signed value wraps, a range is refused exactly if its first or its last minor is in the entry where the
      scan stopped; the last minor of an empty range is the one before its first. */
  lemma AcceptedIff(l: seq<Region>, cd: Region)
    requires Unwrapped(cd) && StopUnwrapped(l, cd)
    ensures var k := StopAt(l, cd.major, cd.base, 0);
            Accepted(l, cd) <==>
              !(k < |l| && l[k].major == cd.major && (Contains(l[k], cd.base) || Contains(l[k], cd.base + cd.ct - 1)))
  {
    var k := StopAt(l, cd.major, cd.base, 0);
    Arithmetic(cd);
    if k < |l| && l[k].major == cd.major {
      Arithmetic(l[k]);
    }
  }

  predicate Contains(r: Region, minor: int) { r.base <= minor < r.base + r.ct }

  /** A non-empty range that overlaps nothing is accepted. */
  lemma ApartIsAccepted(l: seq<Region>, cd: Region)
    requires Unwrapped(cd) && StopUnwrapped(l, cd) && cd.ct > 0
    requires forall i :: 0 <= i < |l| ==> !Overlap(cd, l[i])
    ensures Accepted(l, cd)
  {
    AcceptedIff(l, cd);
  }

  // ---- tables ------------------------------------------------------------------------------------------------------

  /** Registered: on the list that its major hashes to. */
  predicate In(t: Table, r: Region)
    requires |t| == HASH_SIZE
  {
    r in t[r.major % HASH_SIZE]
  }

  predicate GoodTable(t: Table) {
    && |t| == HASH_SIZE
    && (forall i :: 0 <= i < HASH_SIZE ==> Sorted(t[i]))
    && (forall i, j :: 0 <= i < HASH_SIZE && 0 <= j < |t[i]| ==>
          t[i][j].major % HASH_SIZE == i && 0 < t[i][j].major < MAJOR_MAX)
  }

  lemma {:induction false} FreeBucketFree(t: Table, i: nat)
    requires |t| == HASH_SIZE && i < HASH_SIZE
    ensures var f := FreeBucket(t, i);
            && (f.Some? ==> MAJOR_DYN_END <= f.value <= i && t[f.value] == [])
            && (f.Some? ==> forall j :: f.value < j <= i ==> t[j] != [])
            && (f.None? ==> forall j :: MAJOR_DYN_END <= j <= i ==> t[j] != [])
  {
    if i >= MAJOR_DYN_END && t[i] != [] {
      FreeBucketFree(t, i - 1);
    }
  }

  lemma {:induction false} FreeMajorFree(t: Table, i: nat)
    requires |t| == HASH_SIZE
    ensures var f := FreeMajor(t, i);
            && (f.Some? ==> MAJOR_DYN_EXT_END <= f.value <= i && !HasMajor(t[f.value % HASH_SIZE], f.value))
            && (f.Some? ==> forall j :: f.value < j <= i ==> HasMajor(t[j % HASH_SIZE], j))
            && (f.None? ==> forall j :: MAJOR_DYN_EXT_END <= j <= i ==> HasMajor(t[j % HASH_SIZE], j))
  {
    if i >= MAJOR_DYN_EXT_END && HasMajor(t[i % HASH_SIZE], i) {
      FreeMajorFree(t, i - 1);
    }
  }

  /** A major that is allocated dynamically has no registered range, and none is refused while one is left.  It is the
      highest of the first dynamic range with an empty bucket, or else the highest of the second without a range. */
  lemma DynamicMajorIsFree(t: Table)
    requires |t| == HASH_SIZE
    ensures var f := FindDynamicMajor(t);
            && (f.Some? ==> 0 < f.value < MAJOR_MAX && !HasMajor(t[f.value % HASH_SIZE], f.value))
            && (f.Some? && f.value < HASH_SIZE ==>
                  MAJOR_DYN_END <= f.value && t[f.value] == [] && forall j :: f.value < j < HASH_SIZE ==> t[j] != [])
            && (f.Some? && f.value >= HASH_SIZE ==>
                  && MAJOR_DYN_EXT_END <= f.value <= MAJOR_DYN_EXT_START
                  && (forall j :: MAJOR_DYN_END <= j < HASH_SIZE ==> t[j] != [])
                  && forall j :: f.value < j <= MAJOR_DYN_EXT_START ==> HasMajor(t[j % HASH_SIZE], j))
            && (f.None? ==>
                  (forall j :: MAJOR_DYN_END <= j < HASH_SIZE ==> t[j] != []) &&
                  (forall j :: MAJOR_DYN_EXT_END <= j <= MAJOR_DYN_EXT_START ==> HasMajor(t[j % HASH_SIZE], j)))
  {
    FreeBucketFree(t, HASH_SIZE - 1);
    FreeMajorFree(t, MAJOR_DYN_EXT_START);
  }

  lemma InsertHolds(l: seq<Region>, k: nat, cd: Region)
    requires k <= |l|
    ensures forall r :: r in Insert(l, k, cd) <==> r in l || r == cd
  {
    assert l == l[..k] + l[k..];
  }

  lemma PutList(t: Table, i: nat, l: seq<Region>, cd: Region)
    requires GoodTable(t) && i == cd.major % HASH_SIZE && 0 < cd.major < MAJOR_MAX
    requires forall r :: r in l <==> r in t[i] || r == cd
    ensures GoodTable(t[i := l]) <==> Sorted(l)
    ensures forall r :: In(t[i := l], r) <==> In(t, r) || r == cd
  {
    var u: Table := t[i := l];
    forall b, j | 0 <= b < HASH_SIZE && 0 <= j < |u[b]|
      ensures u[b][j].major % HASH_SIZE == b && 0 < u[b][j].major < MAJOR_MAX
    {
      if b == i && l[j] != cd {
        assert l[j] in l;
        var k :| 0 <= k < |t[i]| && t[i][k] == l[j];
      }
    }
    assert u[i] == l;
    forall r ensures In(u, r) <==> In(t, r) || r == cd {
      assert r.major % HASH_SIZE != i ==> u[r.major % HASH_SIZE] == t[r.major % HASH_SIZE];
    }
  }

  /** The major of a registration: the one asked for, or a dynamic one. */
  function MajorFor(t: Table, major: nat): Option<nat>
    requires |t| == HASH_SIZE
  {
    if major == 0 then FindDynamicMajor(t) else Some(major)
  }

  /** What a registration answers: without memory, without a major, with one that is too large, and otherwise whether
      the list of the major accepts the range. */
  lemma RegisterIff(t: Table, mem: bool, major: nat, base: nat, ct: nat, name: string)
    requires |t| == HASH_SIZE
    ensures var o, m := Register(t, mem, major, base, ct, name), MajorFor(t, major);
            && (o.NoMemory? <==> !mem)
            && (o.Invalid? <==> mem && m.Some? && m.value >= MAJOR_MAX)
            && (o.Added? <==>
                mem && m.Some? && m.value < MAJOR_MAX &&
                Accepted(t[m.value % HASH_SIZE], Region(m.value, base, ct, name)))
            && (o.Added? ==> o.cd == Region(m.value, base, ct, name))
  {
  }

  /** Of the ranges registered before, one that is added overlaps only those that start inside it or whose end wraps,
      where no signed value wraps at the stop. */
  lemma AddedOverlaps(t: Table, mem: bool, major: nat, base: nat, ct: nat, name: string, i: nat)
    requires |t| == HASH_SIZE && Register(t, mem, major, base, ct, name).Added?
    requires var cd := Register(t, mem, major, base, ct, name).cd; var l := t[cd.major % HASH_SIZE];
             Sorted(l) && Unwrapped(cd) && StopUnwrapped(l, cd) && i < |l| && Word(l[i])
    ensures var cd := Register(t, mem, major, base, ct, name).cd; var l := t[cd.major % HASH_SIZE];
            Overlap(cd, l[i]) ==> Inside(cd, l[i]) || (l[i].base < cd.base && l[i].base + l[i].ct >= U32)
  {
    RegisterIff(t, mem, major, base, ct, name);
    var cd := Register(t, mem, major, base, ct, name).cd;
    var l := t[cd.major % HASH_SIZE];
    if i < StopAt(l, cd.major, cd.base, 0) {
      if l[i].major == cd.major {
        PassedOverIff(l, cd, i);
      }
    } else {
      OverlapsInside(l, cd, i);
    }
  }

  /** And a non-empty range that overlaps none of a valid major is added. */
  lemma ApartIsAdded(t: Table, major: nat, base: nat, ct: nat, name: string)
    requires |t| == HASH_SIZE && 0 < major < MAJOR_MAX && ct > 0
    requires var l, cd := t[major % HASH_SIZE], Region(major, base, ct, name);
             Unwrapped(cd) && StopUnwrapped(l, cd) && forall i :: 0 <= i < |l| ==> !Overlap(cd, l[i])
    ensures Register(t, true, major, base, ct, name).Added?
  {
    RegisterIff(t, true, major, base, ct, name);
    ApartIsAccepted(t[major % HASH_SIZE], Region(major, base, ct, name));
  }

  /** A range that runs into a registered one from the left is refused, as is one that starts in it. */
  lemma OverlapExample()
    ensures var t := Only(Region(10, 5, 10, "in"));
            Register(t, true, 10, 0, 10, "left").Busy? && Register(t, true, 10, 14, 10, "right").Busy?
  {
    var t := Only(Region(10, 5, 10, "in"));
    assert t[10] == [Region(10, 5, 10, "in")];
  }

  /** A registration adds its range and nothing else, and keeps every list strictly sorted exactly if the entry where
      its scan stopped comes behind it. */
  lemma RegisterAdds(t: Table, mem: bool, major: nat, base: nat, ct: nat, name: string)
    requires GoodTable(t)
    ensures var o := Register(t, mem, major, base, ct, name);
            o.Added? ==>
              && Is(o.cd, o.cd.major, base, ct) && o.cd.name == name && 0 < o.cd.major < MAJOR_MAX
              && (major != 0 ==> o.cd.major == major)
              && (GoodTable(o.table) <==> !Misplaced(t[o.cd.major % HASH_SIZE], o.cd))
              && forall r :: In(o.table, r) <==> In(t, r) || r == o.cd
  {
    var o := Register(t, mem, major, base, ct, name);
    if o.Added? {
      DynamicMajorIsFree(t);
      var i := o.cd.major % HASH_SIZE;
      var k := StopAt(t[i], o.cd.major, base, 0);
      SortedIff(t[i], o.cd);
      InsertHolds(t[i], k, o.cd);
      PutList(t, i, Insert(t[i], k, o.cd), o.cd);
    }
  }

  /** A dynamic major is given out exactly if there is memory and one is free: nothing can clash there. */
  lemma DynamicIsAdded(t: Table, mem: bool, base: nat, ct: nat, name: string)
    requires |t| == HASH_SIZE
    ensures Register(t, mem, 0, base, ct, name).Added? <==> mem && FindDynamicMajor(t).Some?
  {
    DynamicMajorIsFree(t);
  }

  /** What is skipped is kept. */
  lemma {:induction false} RemovedSkips(a: seq<Region>, b: seq<Region>, major: nat, base: nat, ct: nat)
    requires forall i :: 0 <= i < |a| ==> !Is(a[i], major, base, ct)
    ensures Removed(a + b, major, base, ct) == a + Removed(b, major, base, ct)
  {
    if a == [] {
      assert a + b == b;
    } else {
      assert (a + b)[1..] == a[1..] + b;
      RemovedSkips(a[1..], b, major, base, ct);
    }
  }

  lemma RemovedAt(l: seq<Region>, i: nat)
    requires i < |l| && forall j :: 0 <= j < i ==> !Is(l[j], l[i].major, l[i].base, l[i].ct)
    ensures Removed(l, l[i].major, l[i].base, l[i].ct) == l[..i] + l[i + 1..]
  {
    RemovedSkips(l[..i], l[i..], l[i].major, l[i].base, l[i].ct);
    assert l == l[..i] + l[i..] && l[i..][1..] == l[i + 1..];
  }

  lemma DropAt(l: seq<Region>, i: nat)
    requires Sorted(l) && i < |l|
    ensures Sorted(l[..i] + l[i + 1..])
    ensures forall r :: r in l[..i] + l[i + 1..] <==> r in l && r != l[i]
  {
    var m := l[..i] + l[i + 1..];
    assert forall j :: 0 <= j < |m| ==> m[j] == l[if j < i then j else j + 1];
    forall r | r in l && r != l[i] ensures r in m {
      var j :| 0 <= j < |l| && l[j] == r;
      assert m[if j < i then j else j - 1] == r;
    }
  }

  /** In a strictly sorted list exactly the range asked for goes. */
  lemma RemovedSorted(l: seq<Region>, r: Region)
    requires Sorted(l) && r in l
    ensures Sorted(Removed(l, r.major, r.base, r.ct))
    ensures forall x :: x in Removed(l, r.major, r.base, r.ct) <==> x in l && x != r
  {
    var i :| 0 <= i < |l| && l[i] == r;
    forall j | 0 <= j < i ensures !Is(l[j], r.major, r.base, r.ct) {
      assert Less(l[j], l[i]);
    }
    RemovedAt(l, i);
    DropAt(l, i);
  }

  /** Unregistering takes out exactly the range asked for. */
  lemma UnregisterRemoves(t: Table, r: Region)
    requires GoodTable(t) && In(t, r)
    ensures var u := Unregister(t, r.major, r.base, r.ct);
            GoodTable(u) && forall x :: In(u, x) <==> In(t, x) && x != r
  {
    var i := r.major % HASH_SIZE;
    var u: Table := Unregister(t, r.major, r.base, r.ct);
    RemovedSorted(t[i], r);
    forall b, j | 0 <= b < HASH_SIZE && 0 <= j < |u[b]|
      ensures u[b][j].major % HASH_SIZE == b && 0 < u[b][j].major < MAJOR_MAX
    {
      assert u[b][j] in u[b];
      var k :| 0 <= k < |t[b]| && t[b][k] == u[b][j];
    }
  }

  /** What is registered and unregistered again leaves no trace, whatever the table and the range. */
  lemma RegisterUnregister(t: Table, mem: bool, major: nat, base: nat, ct: nat, name: string)
    requires |t| == HASH_SIZE && Register(t, mem, major, base, ct, name).Added?
    ensures var o := Register(t, mem, major, base, ct, name);
            Unregister(o.table, o.cd.major, base, ct) == t
  {
    var o := Register(t, mem, major, base, ct, name);
    var l := t[o.cd.major % HASH_SIZE];
    var k := StopAt(l, o.cd.major, base, 0);
    assert Insert(l, k, o.cd) == l[..k] + ([o.cd] + l[k..]);
    RemovedSkips(l[..k], [o.cd] + l[k..], o.cd.major, base, ct);
    assert l == l[..k] + l[k..];
  }

  /** Ranges of different majors can be unregistered in either order. */
  lemma {:induction false} RemovedCommutes(l: seq<Region>, a: Region, b: Region)
    requires a.major != b.major
    ensures Removed(Removed(l, a.major, a.base, a.ct), b.major, b.base, b.ct) ==
            Removed(Removed(l, b.major, b.base, b.ct), a.major, a.base, a.ct)
  {
    if l != [] {
      RemovedCommutes(l[1..], a, b);
    }
  }

  lemma UnregisterCommutes(t: Table, a: Region, b: Region)
    requires |t| == HASH_SIZE && a.major != b.major
    ensures Unregister(Unregister(t, a.major, a.base, a.ct), b.major, b.base, b.ct) ==
            Unregister(Unregister(t, b.major, b.base, b.ct), a.major, a.base, a.ct)
  {
    RemovedCommutes(t[a.major % HASH_SIZE], a, b);
  }

  // ---- ranges over several majors ---------------------------------------------------------------------------------

  /** `MKDEV(MAJOR(n) + 1, 0)`, in 32 bits. */
  function NextMajor(n: nat): nat { (n / MINORS + 1) * MINORS % U32 }

  /** The part of a range from `n` that lies in one major. */
  function ChunkEnd(n: nat, to: nat): nat { if NextMajor(n) > to then to else NextMajor(n) }

  lemma ChunkBounds(n: nat, to: nat)
    requires n < to && n / MINORS < MAJOR_MAX
    ensures NextMajor(n) == (n / MINORS + 1) * MINORS
    ensures n < ChunkEnd(n, to) <= to && ChunkEnd(n, to) <= NextMajor(n) <= MAJOR_MAX * MINORS
    ensures n % MINORS + (ChunkEnd(n, to) - n) <= MINORS && (ChunkEnd(n, to) - n) % U32 == ChunkEnd(n, to) - n
    ensures ChunkEnd(n, to) < to ==> ChunkEnd(n, to) / MINORS == n / MINORS + 1 && ChunkEnd(n, to) % MINORS == 0
  {
  }

  /** The forward loop of `register_chrdev_region`: the table it leaves, and the number at which it failed, if any.
      `mem` is whether memory can be had for the chunk that starts at a number. */
  function RegisterFrom(t: Table, mem: nat -> bool, n: nat, to: nat, name: string): (r: (Table, Option<nat>))
    requires |t| == HASH_SIZE
    ensures |r.0| == HASH_SIZE
    ensures r.1.Some? ==> n <= r.1.value < to && (n < r.1.value ==> r.1.value <= MAJOR_MAX * MINORS)
    decreases if n < to then to - n else 0
  {
    if n >= to then (t, None) else
      var next := ChunkEnd(n, to);
      var o := Register(t, mem(n), n / MINORS, n % MINORS, (next - n) % U32, name);
      if !o.Added? then (t, Some(n))
      else
        assert n / MINORS < MAJOR_MAX;
        ChunkBounds(n, to);
        RegisterFrom(o.table, mem, next, to, name)
  }

  /** The backward loop: every chunk up to the failed one is unregistered. */
  function Rollback(t: Table, n: nat, to: nat): (u: Table)
    requires |t| == HASH_SIZE && (n < to ==> to <= MAJOR_MAX * MINORS)
    ensures |u| == HASH_SIZE
    decreases if n < to then to - n else 0
  {
    if n >= to then t else
      ChunkBounds(n, to);
      Rollback(Unregister(t, n / MINORS, n % MINORS, NextMajor(n) - n), NextMajor(n), to)
  }

  /** `register_chrdev_region`: the table it leaves, and whether it succeeded. */
  function RegisterRegion(t: Table, mem: nat -> bool, from: nat, count: nat, name: string): (r: (Table, bool))
    requires |t| == HASH_SIZE
  {
    var (u, f) := RegisterFrom(t, mem, from, (from + count) % U32, name);
    if f.None? then (u, true) else (Rollback(u, from, f.value), false)
  }

  /** The rollback of later majors does not mind whether an earlier one is still registered. */
  lemma {:induction false} RollbackCommutes(t: Table, n: nat, to: nat, c: Region)
    requires |t| == HASH_SIZE && (n < to ==> to <= MAJOR_MAX * MINORS) && c.major < n / MINORS
    ensures Rollback(Unregister(t, c.major, c.base, c.ct), n, to) ==
            Unregister(Rollback(t, n, to), c.major, c.base, c.ct)
    decreases if n < to then to - n else 0
  {
    if n < to {
      ChunkBounds(n, to);
      var d := Region(n / MINORS, n % MINORS, NextMajor(n) - n, c.name);
      UnregisterCommutes(t, c, d);
      RollbackCommutes(Unregister(t, d.major, d.base, d.ct), NextMajor(n), to, c);
    }
  }

  /** Chunk by chunk: what the forward loop has added up to a failure the backward loop takes away again. */
  lemma {:induction false} RollbackRestores(t: Table, mem: nat -> bool, n: nat, to: nat, name: string)
    requires |t| == HASH_SIZE && n >= MINORS && RegisterFrom(t, mem, n, to, name).1.Some?
    ensures var r := RegisterFrom(t, mem, n, to, name);
            Rollback(r.0, n, r.1.value) == t
    decreases if n < to then to - n else 0
  {
    var next := ChunkEnd(n, to);
    var o := Register(t, mem(n), n / MINORS, n % MINORS, (next - n) % U32, name);
    if o.Added? {
      ChunkBounds(n, to);
      RollbackRestores(o.table, mem, next, to, name);
      var r := RegisterFrom(o.table, mem, next, to, name);
      assert next == NextMajor(n);
      RollbackCommutes(r.0, next, r.1.value, o.cd);
      RegisterUnregister(t, mem(n), n / MINORS, n % MINORS, next - n, name);
    }
  }

  /** A registration of numbers with a major that fails leaves the table exactly as it was, whatever the table. */
  lemma FailureRestores(t: Table, mem: nat -> bool, from: nat, count: nat, name: string)
    requires |t| == HASH_SIZE && from >= MINORS && !RegisterRegion(t, mem, from, count, name).1
    ensures RegisterRegion(t, mem, from, count, name).0 == t
  {
    RollbackRestores(t, mem, from, (from + count) % U32, name);
  }

  /** No range is registered under major 0. */
  predicate NoneAtZero(t: Table)
    requires |t| == HASH_SIZE
  {
    forall i :: 0 <= i < |t[0]| ==> t[0][i].major != 0
  }

  /** The first chunk of a range without a major. */
  lemma ZeroChunk(from: nat, to: nat)
    requires from < MINORS && from < to
    ensures from / MINORS == 0 && from % MINORS == from
    ensures from < ChunkEnd(from, to) <= to && (ChunkEnd(from, to) - from) % U32 == ChunkEnd(from, to) - from
    ensures ChunkEnd(from, to) < to ==> ChunkEnd(from, to) == NextMajor(from)
    ensures MINORS <= NextMajor(from) <= MAJOR_MAX * MINORS && NextMajor(from) % MINORS == 0
  {
  }

  /** A chunk that is added leaves the rest to do. */
  lemma StepsOn(t: Table, mem: nat -> bool, from: nat, to: nat, name: string)
    requires |t| == HASH_SIZE && from < MINORS && from < to
    requires Register(t, mem(from), 0, from, ChunkEnd(from, to) - from, name).Added?
    ensures var o := Register(t, mem(from), 0, from, ChunkEnd(from, to) - from, name);
            RegisterFrom(t, mem, from, to, name) == RegisterFrom(o.table, mem, ChunkEnd(from, to), to, name)
  {
    ZeroChunk(from, to);
  }

  lemma NothingAtZero(t: Table, base: nat, ct: nat)
    requires |t| == HASH_SIZE && NoneAtZero(t)
    ensures Unregister(t, 0, base, ct) == t
  {
    RemovedSkips(t[0], [], 0, base, ct);
    assert t[0] + [] == t[0];
  }

  /** Without a major the first chunk gets a dynamic one, and the rollback looks for it under major 0: everything goes
      but that chunk. */
  lemma ZeroMajorKeeps(t: Table, mem: nat -> bool, from: nat, to: nat, name: string)
    requires |t| == HASH_SIZE && NoneAtZero(t) && from < MINORS && from < to
    requires RegisterFrom(t, mem, from, to, name).1.Some?
    requires Register(t, mem(from), 0, from, ChunkEnd(from, to) - from, name).Added?
    ensures var r := RegisterFrom(t, mem, from, to, name);
            var u := Rollback(r.0, from, r.1.value);
            u == Register(t, mem(from), 0, from, ChunkEnd(from, to) - from, name).table && u != t
  {
    ZeroChunk(from, to);
    StepsOn(t, mem, from, to, name);
    var next := NextMajor(from);
    var o := Register(t, mem(from), 0, from, ChunkEnd(from, to) - from, name);
    var r := RegisterFrom(o.table, mem, ChunkEnd(from, to), to, name);
    assert ChunkEnd(from, to) == next;
    RollbackRestores(o.table, mem, next, to, name);
    RollbackCommutes(r.0, next, r.1.value, Region(0, from, next - from, name));
    AddedAtDynamic(t, mem(from), from, next - from, name);
    NothingAtZero(o.table, from, next - from);
  }

  lemma AddedAtDynamic(t: Table, mem: bool, base: nat, ct: nat, name: string)
    requires |t| == HASH_SIZE && NoneAtZero(t) && Register(t, mem, 0, base, ct, name).Added?
    ensures var u := Register(t, mem, 0, base, ct, name).table; |u| == HASH_SIZE && NoneAtZero(u) && u != t
  {
    DynamicMajorIsFree(t);
    var o := Register(t, mem, 0, base, ct, name);
    var i := o.cd.major % HASH_SIZE;
    InsertHolds(t[i], StopAt(t[i], o.cd.major, base, 0), o.cd);
    forall j | 0 <= j < |o.table[0]| ensures o.table[0][j].major != 0 {
      assert o.table[0][j] in o.table[0];
    }
    assert |o.table[i]| == |t[i]| + 1;
  }

  /** A failed registration restores the table exactly if its numbers have a major, or if its first chunk was already
      refused, for want of memory or of a dynamic major. */
  lemma RestoredIff(t: Table, mem: nat -> bool, from: nat, count: nat, name: string)
    requires |t| == HASH_SIZE && NoneAtZero(t) && !RegisterRegion(t, mem, from, count, name).1
    ensures RegisterRegion(t, mem, from, count, name).0 == t <==>
              from >= MINORS || !mem(from) || FindDynamicMajor(t).None?
  {
    var to := (from + count) % U32;
    if from >= MINORS {
      FailureRestores(t, mem, from, count, name);
    } else {
      ZeroChunk(from, to);
      DynamicIsAdded(t, mem(from), from, ChunkEnd(from, to) - from, name);
      if mem(from) && FindDynamicMajor(t).Some? {
        ZeroMajorKeeps(t, mem, from, to, name);
      }
    }
  }

  lemma TakenClashes(l: seq<Region>, cd: Region, j: nat)
    requires Sorted(l) && j < |l| && l[j].major == cd.major && l[j].base == cd.base && l[j].ct > 0 && Unwrapped(cd)
    requires forall i :: 0 <= i < |l| && l[i].major == cd.major ==> Unwrapped(l[i])
    ensures !Accepted(l, cd)
  {
    var k := StopAt(l, cd.major, cd.base, 0);
    assert k <= j && (k < j ==> Less(l[k], l[j]));
    Arithmetic(l[k]);
    Arithmetic(cd);
  }

  /** A number that is registered, in a range that is not empty, is refused. */
  lemma TakenIsRefused(t: Table, mem: bool, taken: Region, ct: nat, name: string)
    requires GoodTable(t) && In(t, taken) && taken.ct > 0 && Unwrapped(Region(taken.major, taken.base, ct, name))
    requires forall r :: In(t, r) && r.major == taken.major ==> Unwrapped(r)
    ensures !Register(t, mem, taken.major, taken.base, ct, name).Added?
  {
    var l := t[taken.major % HASH_SIZE];
    var j :| 0 <= j < |l| && l[j] == taken;
    forall i | 0 <= i < |l| && l[i].major == taken.major ensures Unwrapped(l[i]) {
      assert In(t, l[i]);
    }
    TakenClashes(l, Region(taken.major, taken.base, ct, name), j);
  }

  lemma DynamicKeepsGood(t: Table, base: nat, ct: nat, name: string)
    requires GoodTable(t) && FindDynamicMajor(t).Some?
    ensures var o := Register(t, true, 0, base, ct, name);
            && o.Added? && GoodTable(o.table)
            && (forall r :: In(o.table, r) <==> In(t, r) || r == o.cd)
            && (forall r :: In(t, r) ==> r.major != o.cd.major)
  {
    DynamicIsAdded(t, true, base, ct, name);
    DynamicMajorIsFree(t);
    RegisterAdds(t, true, 0, base, ct, name);
  }

  lemma FirstRefused(t: Table, mem: nat -> bool, n: nat, to: nat, name: string)
    requires |t| == HASH_SIZE && n < to
    requires !Register(t, mem(n), n / MINORS, n % MINORS, (ChunkEnd(n, to) - n) % U32, name).Added?
    ensures RegisterFrom(t, mem, n, to, name).0 == t && RegisterFrom(t, mem, n, to, name).1 == Some(n)
  {
  }

  /** The second chunk of a range into a major whose first number is taken. */
  lemma SecondRefused(t: Table, mem: nat -> bool, from: nat, to: nat, name: string, taken: Region)
    requires GoodTable(t) && from < MINORS && NextMajor(from) < to && FindDynamicMajor(t).Some?
    requires In(t, taken) && taken.major == NextMajor(from) / MINORS && taken.base == 0 && taken.ct > 0
    requires forall r :: In(t, r) && r.major == taken.major ==> Unwrapped(r)
    ensures var o := Register(t, true, 0, from, NextMajor(from) - from, name);
            o.Added? && RegisterFrom(o.table, mem, NextMajor(from), to, name).1 == Some(NextMajor(from))
  {
    ZeroChunk(from, to);
    var next := NextMajor(from);
    DynamicKeepsGood(t, from, next - from, name);
    var o := Register(t, true, 0, from, next - from, name);
    ChunkBounds(next, to);
    TakenIsRefused(o.table, mem(next), taken, ChunkEnd(next, to) - next, name);
    FirstRefused(o.table, mem, next, to, name);
  }

  /** This does happen: a range from below the first major into a major whose first number is taken is refused as soon
      as a dynamic major has been given out, and that one stays registered. */
  lemma ZeroMajorLeaks(t: Table, mem: nat -> bool, from: nat, to: nat, name: string, taken: Region)
    requires GoodTable(t) && from < MINORS && NextMajor(from) < to && mem(from) && FindDynamicMajor(t).Some?
    requires In(t, taken) && taken.major == NextMajor(from) / MINORS && taken.base == 0 && taken.ct > 0
    requires forall r :: In(t, r) && r.major == taken.major ==> Unwrapped(r)
    ensures RegisterFrom(t, mem, from, to, name).1 == Some(NextMajor(from))
    ensures Rollback(RegisterFrom(t, mem, from, to, name).0, from, NextMajor(from)) != t
  {
    ZeroChunk(from, to);
    SecondRefused(t, mem, from, to, name, taken);
    StepsOn(t, mem, from, to, name);
    ZeroMajorKeeps(t, mem, from, to, name);
  }

  // ---- where the order and the tests fail -------------------------------------------------------------------------

  /** A table with one range. */
  function Only(r: Region): Table { seq(HASH_SIZE, i => if i == r.major % HASH_SIZE then [r] else []) }

  /** A range around a registered one is accepted, so lists of disjoint ranges do not stay so. */
  lemma EnclosingExample()
    ensures var t := Only(Region(10, 5, 1, "in"));
            var o := Register(t, true, 10, 0, 10, "out");
            o.Added? && In(o.table, Region(10, 5, 1, "in")) && Overlap(o.cd, Region(10, 5, 1, "in"))
  {
    var t := Only(Region(10, 5, 1, "in"));
    var o := Register(t, true, 10, 0, 10, "out");
    assert t[10] == [Region(10, 5, 1, "in")];
    assert o.table[10] == [o.cd, Region(10, 5, 1, "in")];
  }

  /** An empty range and another one from the same minor: both accepted, and the list is not strictly sorted. */
  lemma EmptyRangeExample()
    ensures var t := Only(Region(10, 5, 0, "empty"));
            var o := Register(t, true, 10, 5, 1, "next");
            o.Added? && !Sorted(o.table[10])
  {
    var t := Only(Region(10, 5, 0, "empty"));
    var o := Register(t, true, 10, 5, 1, "next");
    assert t[10] == [Region(10, 5, 0, "empty")];
    assert o.table[10] == [o.cd, Region(10, 5, 0, "empty")];
    assert !Less(o.table[10][0], o.table[10][1]);
  }

  /** A range whose last minor is negative as a signed value: another one from the same minor is accepted, overlaps it
      and breaks the order. */
  lemma SignedWrapExample()
    ensures var wide := Region(10, 0x7fff_ffff, 2, "wide");
            var o := Register(Only(wide), true, 10, 0x7fff_ffff, 1, "next");
            o.Added? && !Sorted(o.table[10]) && Overlap(o.cd, wide) && !Encloses(o.cd, wide)
  {
    var wide := Region(10, 0x7fff_ffff, 2, "wide");
    var t := Only(wide);
    var o := Register(t, true, 10, 0x7fff_ffff, 1, "next");
    assert t[10] == [wide];
    assert o.table[10] == [o.cd, wide];
    assert !Less(o.table[10][0], o.table[10][1]);
  }

  /** An empty range where the scan stops hides the overlap with the one behind it. */
  lemma EmptyStopExample()
    ensures var l, cd := [Region(10, 5, 0, "empty"), Region(10, 6, 1, "in")], Region(10, 5, 3, "next");
            Sorted(l) && Accepted(l, cd) && Overlap(cd, l[1]) && !Encloses(cd, l[0]) && StopAt(l, 10, 5, 0) == 0
  {
  }

  /** A range whose end wraps round to a small number is passed over by the scan. */
  lemma WrappedEndExample()
    ensures var l, cd := [Region(10, 0xffff_fff0, 0x20, "wide")], Region(10, 0xffff_fff5, 1, "next");
            Sorted(l) && Accepted(l, cd) && Overlap(cd, l[0]) && StopAt(l, 10, 0xffff_fff5, 0) == 1
  {
  }

  // ---- the code ----------------------------------------------------------------------------------------------------

  class CharDevs {
    var chrdevs: Table

    constructor ()
      ensures GoodTable(chrdevs) && forall r :: !In(chrdevs, r)
    {
      chrdevs := seq(HASH_SIZE, _ => []);
    }

    /** `find_dynamic_major`. */
    method FindDynamic() returns (r: Option<nat>)
      requires |chrdevs| == HASH_SIZE
      ensures r == FindDynamicMajor(chrdevs)
    {
      var i: int := HASH_SIZE - 1;
      while i >= MAJOR_DYN_END
        invariant MAJOR_DYN_END - 1 <= i < HASH_SIZE
        invariant FreeBucket(chrdevs, HASH_SIZE - 1) == FreeBucket(chrdevs, i)
      {
        if chrdevs[i] == [] {
          return Some(i);
        }
        i := i - 1;
      }
      i := MAJOR_DYN_EXT_START;
      while i >= MAJOR_DYN_EXT_END
        invariant MAJOR_DYN_EXT_END - 1 <= i <= MAJOR_DYN_EXT_START
        invariant FreeMajor(chrdevs, MAJOR_DYN_EXT_START) == FreeMajor(chrdevs, i)
      {
        var l := chrdevs[i % HASH_SIZE];
        var k := 0;
        while k < |l| && l[k].major != i
          invariant 0 <= k <= |l|
          invariant forall j :: 0 <= j < k ==> l[j].major != i
        {
          k := k + 1;
        }
        if k == |l| {
          return Some(i);
        }
        i := i - 1;
      }
      r := None;
    }

    /** `__register_chrdev_region`. */
    method RegisterOne(mem: bool, major: nat, base: nat, ct: nat, name: string) returns (o: Outcome)
      requires |chrdevs| == HASH_SIZE
      modifies this
      ensures o == Register(old(chrdevs), mem, major, base, ct, name)
      ensures chrdevs == if o.Added? then o.table else old(chrdevs)
    {
      if !mem {
        return NoMemory;
      }
      var m := major;
      if m == 0 {
        var r := FindDynamic();
        if r.None? {
          return Busy;
        }
        m := r.value;
      }
      if m >= MAJOR_MAX {
        return Invalid;
      }
      var cd, i := Region(m, base, ct, name), m % HASH_SIZE;
      var l := chrdevs[i];
      var k := 0;
      while k < |l| && !Stops(l[k], m, base)
        invariant 0 <= k <= |l| && StopAt(l, m, base, 0) == StopAt(l, m, base, k)
      {
        k := k + 1;
      }
      if k < |l| && l[k].major == m {
        if Clash(l[k], cd) {
          return Busy;
        }
      }
      chrdevs := chrdevs[i := Insert(l, k, cd)];
      o := Added(cd, chrdevs);
    }

    /** `__unregister_chrdev_region`. */
    method UnregisterOne(major: nat, base: nat, ct: nat)
      requires |chrdevs| == HASH_SIZE
      modifies this
      ensures chrdevs == Unregister(old(chrdevs), major, base, ct)
    {
      var i := major % HASH_SIZE;
      var l := chrdevs[i];
      var k := 0;
      while k < |l| && !Is(l[k], major, base, ct)
        invariant 0 <= k <= |l| && forall j :: 0 <= j < k ==> !Is(l[j], major, base, ct)
      {
        k := k + 1;
      }
      RemovedSkips(l[..k], l[k..], major, base, ct);
      assert l == l[..k] + l[k..];
      if k < |l| {
        chrdevs := chrdevs[i := l[..k] + l[k + 1..]];
      }
    }

    /** The forward loop of `register_chrdev_region`: where it fails, if it does. */
    method RegisterChunks(mem: nat -> bool, from: nat, to: nat, name: string) returns (f: Option<nat>)
      requires |chrdevs| == HASH_SIZE
      modifies this
      ensures (chrdevs, f) == RegisterFrom(old(chrdevs), mem, from, to, name)
    {
      var n := from;
      while n < to
        invariant from <= n && |chrdevs| == HASH_SIZE
        invariant RegisterFrom(old(chrdevs), mem, from, to, name) == RegisterFrom(chrdevs, mem, n, to, name)
        decreases if n < to then to - n else 0
      {
        var next := ChunkEnd(n, to);
        var o := RegisterOne(mem(n), n / MINORS, n % MINORS, (next - n) % U32, name);
        if !o.Added? {
          return Some(n);
        }
        ChunkBounds(n, to);
        n := next;
      }
      f := None;
    }

    /** `register_chrdev_region`. */
    method RegisterRange(mem: nat -> bool, from: nat, count: nat, name: string) returns (ok: bool)
      requires |chrdevs| == HASH_SIZE
      modifies this
      ensures (chrdevs, ok) == RegisterRegion(old(chrdevs), mem, from, count, name)
      ensures from >= MINORS && !ok ==> chrdevs == old(chrdevs)
    {
      var f := RegisterChunks(mem, from, (from + count) % U32, name);
      if f.Some? {
        Undo(from, f.value);
      }
      ok := f.None?;
      if from >= MINORS && !ok {
        FailureRestores(old(chrdevs), mem, from, count, name);
      }
    }

    /** The rollback of `register_chrdev_region`. */
    method Undo(from: nat, to: nat)
      requires |chrdevs| == HASH_SIZE && (from < to ==> to <= MAJOR_MAX * MINORS)
      modifies this
      ensures chrdevs == Rollback(old(chrdevs), from, to)
    {
      var n := from;
      while n < to
        invariant |chrdevs| == HASH_SIZE && Rollback(old(chrdevs), from, to) == Rollback(chrdevs, n, to)
        decreases if n < to then to - n else 0
      {
        ChunkBounds(n, to);
        var next := NextMajor(n);
        UnregisterOne(n / MINORS, n % MINORS, next - n);
        n := next;
      }
    }
  }
}
