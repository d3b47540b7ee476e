/** The per-CPU array of recently used buffers in front of the block-device page cache. */
module BufferLru {
  import opened Wrappers

  const BH_LRU_SIZE: nat := 16

  /** What a buffer is looked up by, and a buffer. */
  datatype Key = Key(bdev: nat, block: nat, size: nat)
  datatype Bh = Bh(id: nat, key: Key)

  // ---- recent use ------------------------------------------------------------------------------------------------

  function Without(l: seq<Bh>, x: Bh): seq<Bh> {
    if l == [] then [] else if l[0] == x then Without(l[1..], x) else [l[0]] + Without(l[1..], x)
  }

  /** The distinct buffers of a history of uses, most recent first. */
  function Recent(uses: seq<Bh>): seq<Bh> {
    if uses == [] then [] else
      var x := uses[|uses| - 1];
      [x] + Without(Recent(uses[..|uses| - 1]), x)
  }

  function Front(l: seq<Bh>): seq<Bh> { if |l| <= BH_LRU_SIZE then l else l[..BH_LRU_SIZE] }

  predicate Distinct(l: seq<Bh>) { forall i, j :: 0 <= i < j < |l| ==> l[i] != l[j] }

  /** A list after a use of `x`: it moves to the front, or comes in there and the last of a full list goes out. */
  function Used(l: seq<Bh>, x: Bh): seq<Bh>
    requires |l| <= BH_LRU_SIZE
  {
    if x in l then [x] + Without(l, x) else [x] + if |l| == BH_LRU_SIZE then l[..BH_LRU_SIZE - 1] else l
  }

  lemma {:induction false} WithoutAbsent(l: seq<Bh>, x: Bh)
    requires x !in l
    ensures Without(l, x) == l
  {
    if l != [] {
      WithoutAbsent(l[1..], x);
    }
  }

  /** In a list of distinct buffers, one is taken out at its index. */
  lemma {:induction false} WithoutAt(l: seq<Bh>, i: nat)
    requires Distinct(l) && i < |l|
    ensures Without(l, l[i]) == l[..i] + l[i + 1..]
  {
    if i == 0 {
      WithoutAbsent(l[1..], l[0]);
    } else {
      WithoutAt(l[1..], i - 1);
      assert l[1..][..i - 1] == l[1..i] && l[1..][i..] == l[i + 1..];
      assert [l[0]] + l[1..i] == l[..i];
    }
  }

  lemma {:induction false} WithoutDistinct(l: seq<Bh>, x: Bh)
    requires Distinct(l)
    ensures Distinct(Without(l, x)) && x !in Without(l, x)
    ensures forall y :: y in Without(l, x) <==> y in l && y != x
  {
    if x in l {
      var i :| 0 <= i < |l| && l[i] == x;
      WithoutAt(l, i);
    } else {
      WithoutAbsent(l, x);
    }
  }

  /** Each buffer used appears once, and no other. */
  lemma {:induction false} RecentDistinct(uses: seq<Bh>)
    ensures Distinct(Recent(uses))
    ensures forall y :: y in Recent(uses) <==> y in uses
  {
    if uses != [] {
      var x, before := uses[|uses| - 1], uses[..|uses| - 1];
      assert uses == before + [x];
      RecentDistinct(before);
      WithoutDistinct(Recent(before), x);
    }
  }

  lemma FrontCons(x: Bh, l: seq<Bh>)
    ensures Front([x] + l) == [x] + if |l| >= BH_LRU_SIZE then l[..BH_LRU_SIZE - 1] else l
  {
  }

  lemma FrontMoved(r: seq<Bh>, i: nat)
    requires Distinct(r) && i < |r|
    ensures Front([r[i]] + (r[..i] + r[i + 1..])) == Used(Front(r), r[i])
  {
    var rest := r[..i] + r[i + 1..];
    FrontCons(r[i], rest);
    if i < BH_LRU_SIZE {
      assert Front(r)[i] == r[i];
      WithoutAt(Front(r), i);
      assert Front(r)[..i] == r[..i];
      assert |rest| >= BH_LRU_SIZE ==> rest[..BH_LRU_SIZE - 1] == r[..i] + r[i + 1..BH_LRU_SIZE];
    } else {
      assert rest[..BH_LRU_SIZE - 1] == r[..BH_LRU_SIZE - 1];
    }
  }

  /** The front of the recent buffers follows from the front alone: the array forgets nothing that matters. */
  lemma FrontFollows(uses: seq<Bh>, x: Bh)
    ensures Front(Recent(uses + [x])) == Used(Front(Recent(uses)), x)
  {
    var r := Recent(uses);
    RecentDistinct(uses);
    assert (uses + [x])[..|uses|] == uses;
    assert Recent(uses + [x]) == [x] + Without(r, x);
    if x !in r {
      WithoutAbsent(r, x);
      FrontCons(x, r);
    } else {
      var i :| 0 <= i < |r| && r[i] == x;
      WithoutAt(r, i);
      FrontMoved(r, i);
    }
  }

  /** The array is a list followed by NULLs. */
  predicate Padded(a: seq<Option<Bh>>, l: seq<Bh>) {
    && |a| == BH_LRU_SIZE && |l| <= BH_LRU_SIZE
    && forall i :: 0 <= i < BH_LRU_SIZE ==> a[i] == if i < |l| then Some(l[i]) else None
  }

  /** An array with an entry moved to its front. */
  lemma PaddedMoved(a: seq<Option<Bh>>, l: seq<Bh>, k: nat, x: Bh)
    requires Padded(a, l) && Distinct(l) && k < |a| && a[k] == Some(x)
    ensures x in l && Padded([Some(x)] + a[..k] + a[k + 1..], Used(l, x))
    ensures forall b :: b in Used(l, x) <==> b in l
  {
    assert l[k] == x;
    WithoutDistinct(l, x);
    WithoutAt(l, k);
    var a', l' := [Some(x)] + a[..k] + a[k + 1..], [x] + (l[..k] + l[k + 1..]);
    assert Used(l, x) == l';
    forall i | 0 <= i < BH_LRU_SIZE ensures a'[i] == if i < |l'| then Some(l'[i]) else None {
      var j := if i == 0 then k else if i <= k then i - 1 else i;
      assert a'[i] == a[j] && (i < |l'| ==> l'[i] == l[j]);
    }
  }

  /** An array with a new entry at its front. */
  lemma PaddedNew(a: seq<Option<Bh>>, l: seq<Bh>, x: Bh)
    requires Padded(a, l) && Distinct(l) && Some(x) !in a
    ensures x !in l && Padded([Some(x)] + a[..BH_LRU_SIZE - 1], Used(l, x))
    ensures forall b :: b in Used(l, x) <==> b == x || (b in l && Some(b) != a[BH_LRU_SIZE - 1])
    ensures a[BH_LRU_SIZE - 1].Some? ==> a[BH_LRU_SIZE - 1].value in l
  {
    forall i | 0 <= i < |l| ensures l[i] != x {
      assert a[i] == Some(l[i]);
    }
    var kept := if |l| == BH_LRU_SIZE then l[..BH_LRU_SIZE - 1] else l;
    forall b ensures b in kept <==> b in l && Some(b) != a[BH_LRU_SIZE - 1] {
      if |l| == BH_LRU_SIZE {
        assert l == kept + [l[BH_LRU_SIZE - 1]];
      }
    }
  }

  // ---- the array -------------------------------------------------------------------------------------------------

  class Lru {
    const bhs: array<Option<Bh>>
    /** `b_count`. */
    var count: map<Bh, int>
    /** The uses since the array was last emptied. */
    ghost var uses: seq<Bh>

    constructor ()
      ensures Valid() && uses == [] && count == map[] && fresh(bhs)
    {
      bhs := new Option<Bh>[BH_LRU_SIZE](_ => None);
      count, uses := map[], [];
    }

    function Count(b: Bh): int
      reads `count
    {
      if b in count then count[b] else 0
    }

    ghost function Resident(): seq<Bh>
      reads `uses
    {
      Front(Recent(uses))
    }

    /** References that the array does not answer for. */
    ghost function Others(b: Bh): int
      reads `count, `uses
    {
      Count(b) - if b in Resident() then 1 else 0
    }

    /** The array is the most recently used buffers, at most sixteen, and has a reference to each. */
    ghost predicate Valid()
      reads this, bhs
    {
      Padded(bhs[..], Resident()) && forall b :: Others(b) >= 0
    }

    method GetBh(b: Bh)
      modifies `count
      ensures count == old(count)[b := old(Count(b)) + 1]
    {
      count := count[b := Count(b) + 1];
    }

    /** `brelse`: nothing for NULL; the count must not already be zero. */
    method Brelse(b: Option<Bh>)
      requires b.Some? ==> Count(b.value) > 0
      modifies `count
      ensures count == if b.None? then old(count) else old(count)[b.value := old(Count(b.value)) - 1]
    {
      if b.Some? {
        count := count[b.value := Count(b.value) - 1];
      }
    }

    /** The loop of `bh_lru_install`. */
    method Push(bh: Bh) returns (evictee: Option<Bh>)
      requires bhs.Length == BH_LRU_SIZE
      modifies bhs
      ensures evictee == Some(bh) ==>
                (exists k :: 0 <= k < BH_LRU_SIZE && old(bhs[k]) == Some(bh) &&
                             bhs[..] == [Some(bh)] + old(bhs[..k]) + old(bhs[k + 1..]))
      ensures evictee != Some(bh) ==>
                (Some(bh) !in old(bhs[..]) && evictee == old(bhs[BH_LRU_SIZE - 1]) &&
                 bhs[..] == [Some(bh)] + old(bhs[..BH_LRU_SIZE - 1]))
    {
      evictee := Some(bh);
      var i := 0;
      while i < BH_LRU_SIZE
        invariant 0 <= i <= BH_LRU_SIZE
        invariant Some(bh) !in old(bhs[..i])
        invariant evictee == if i == 0 then Some(bh) else old(bhs[i - 1])
        invariant bhs[i..] == old(bhs[i..])
        invariant i > 0 ==> bhs[..i] == [Some(bh)] + old(bhs[..i - 1])
      {
        evictee, bhs[i] := bhs[i], evictee;
        assert bhs[..i + 1] == [Some(bh)] + old(bhs[..i]);
        if evictee == Some(bh) {
          assert bhs[..] == bhs[..i + 1] + bhs[i + 1..];
          return;
        }
        i := i + 1;
      }
      assert bhs[..] == bhs[..BH_LRU_SIZE] && old(bhs[..]) == old(bhs[..BH_LRU_SIZE]);
    }

    /** `bh_lru_install`. */
    method Install(bh: Bh)
      requires Valid()
      modifies this, bhs
      ensures Valid() && uses == old(uses) + [bh]
      ensures forall b :: Others(b) == old(Others(b))
    {
      FrontFollows(uses, bh);
      RecentDistinct(uses);
      ghost var l, a := Resident(), bhs[..];
      var evictee := Push(bh);
      uses := uses + [bh];
      if evictee == Some(bh) {
        ghost var k :| 0 <= k < BH_LRU_SIZE && a[k] == Some(bh) && bhs[..] == [Some(bh)] + a[..k] + a[k + 1..];
        PaddedMoved(a, l, k, bh);
        assert forall b :: Others(b) == old(Others(b));
        return;
      }
      PaddedNew(a, l, bh);
      GetBh(bh);
      assert evictee.Some? ==> old(Others(evictee.value)) >= 0;
      Brelse(evictee);
      forall b ensures Others(b) == old(Others(b)) {}
    }

    /** The shift of `lookup_bh_lru`: entry `i` goes to the front and those before it move up. */
    method MoveToFront(i: nat)
      requires bhs.Length == BH_LRU_SIZE && i < BH_LRU_SIZE
      modifies bhs
      ensures bhs[..] == [old(bhs[i])] + old(bhs[..i]) + old(bhs[i + 1..])
    {
      var bh := bhs[i];
      var j := i;
      while j > 0
        invariant 0 <= j <= i
        invariant bhs[..j] == old(bhs[..j]) && bhs[i + 1..] == old(bhs[i + 1..])
        invariant j < i ==> bhs[j + 1..i + 1] == old(bhs[j..i])
      {
        bhs[j] := bhs[j - 1];
        j := j - 1;
      }
      bhs[0] := bh;
      assert bhs[1..i + 1] == old(bhs[..i]);
    }

    /** A hit in `lookup_bh_lru`. */
    method Touch(i: nat)
      requires Valid() && i < BH_LRU_SIZE && bhs[i].Some?
      modifies this, bhs
      ensures Valid() && uses == old(uses) + [old(bhs[i].value)]
      ensures forall b :: Others(b) == old(Others(b)) + if old(bhs[i]) == Some(b) then 1 else 0
    {
      var bh := bhs[i].value;
      FrontFollows(uses, bh);
      RecentDistinct(uses);
      ghost var a := bhs[..];
      PaddedMoved(a, Resident(), i, bh);
      if i != 0 {
        MoveToFront(i);
      }
      assert bhs[..] == [Some(bh)] + a[..i] + a[i + 1..];
      GetBh(bh);
      uses := uses + [bh];
      assert forall b :: b in Resident() <==> b in old(Resident());
      assert forall b :: Others(b) >= old(Others(b));
    }

    /** `lookup_bh_lru`: finds the most recently used buffer with the key, and takes a reference for the caller. */
    method Lookup(key: Key) returns (r: Option<Bh>)
      requires Valid()
      modifies this, bhs
      ensures Valid()
      ensures r.None? <==> forall b :: b in old(Resident()) ==> b.key != key
      ensures r.Some? ==> exists i :: 0 <= i < |old(Resident())| && old(Resident())[i] == r.value &&
                                     FirstWith(old(Resident()), i, key)
      ensures uses == if r.None? then old(uses) else old(uses) + [r.value]
      ensures forall b :: Others(b) == old(Others(b)) + if r == Some(b) then 1 else 0
    {
      ghost var l, a := Resident(), bhs[..];
      var i := 0;
      while i < BH_LRU_SIZE
        invariant 0 <= i <= BH_LRU_SIZE && Valid()
        invariant bhs[..] == a && count == old(count) && uses == old(uses)
        invariant forall j :: 0 <= j < i && j < |l| ==> l[j].key != key
      {
        if bhs[i].Some? && bhs[i].value.key == key {
          r := bhs[i];
          Touch(i);
          return;
        }
        i := i + 1;
      }
      r := None;
    }

    /** `__find_get_block`, where `cached` is what the page cache has for the block.  As long as the resident buffers
        are in the page cache the array does not show: the answer is that of the page cache, with one more reference
        for the caller and none for anybody else. */
    method FindGetBlock(key: Key, cached: Option<Bh>) returns (r: Option<Bh>)
      requires Valid() && forall b :: b in Resident() && b.key == key ==> cached == Some(b)
      modifies this, bhs
      ensures Valid() && r == cached
      ensures uses == if r.None? then old(uses) else old(uses) + [r.value]
      ensures forall b :: Others(b) == old(Others(b)) + if r == Some(b) then 1 else 0
    {
      ghost var l := Resident();
      r := Lookup(key);
      assert r.Some? ==> r.value in l && r.value.key == key;
      if r.None? {
        r := cached;
        if r.Some? {
          label missed:
          GetBh(r.value);
          assert forall b :: Others(b) >= old@missed(Others(b)) >= 0;
          Install(r.value);
        }
      }
    }

    /** `invalidate_bh_lru`. */
    method Invalidate()
      requires Valid()
      modifies this, bhs
      ensures Valid() && uses == []
      ensures forall b :: Others(b) == old(Others(b))
    {
      ghost var l := Resident();
      RecentDistinct(uses);
      var i := 0;
      while i < BH_LRU_SIZE
        invariant 0 <= i <= BH_LRU_SIZE
        invariant forall k :: 0 <= k < i ==> bhs[k].None?
        invariant bhs[i..] == old(bhs[i..])
        invariant forall b :: Count(b) - (if i < |l| && b in l[i..] then 1 else 0) == old(Others(b))
      {
        Brelse(bhs[i]);
        bhs[i] := None;
        i := i + 1;
      }
      uses := [];
    }
  }

  predicate FirstWith(l: seq<Bh>, i: nat, key: Key)
    requires i < |l|
  {
    l[i].key == key && forall j :: 0 <= j < i ==> l[j].key != key
  }
}
