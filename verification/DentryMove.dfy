/** Renaming in the dentry cache: `__d_move`, plain or exchange, on a forest of dentries that also carries
    reference counts, child lists, hash chains, and names stored inline or in shared counted blocks. */
module DentryMove {
  import opened Wrappers

  type Id = nat
  type Ext = nat

  /** `d_name` and `d_iname`: `ext` is the shared block the name is in, or None for the inline buffer. */
  datatype Name = Name(iname: seq<char>, ext: Option<Ext>, len: nat, hash: nat)

  /** A shared name: its reference count, and its text with the terminating NUL. */
  datatype External = External(count: int, text: seq<char>)

  /** The list a hashed dentry is on: the superblock's roots, or the chain of its name hash. */
  datatype Chain = Roots | Bucket(hash: nat)

  /** The dentries' fields, one map per field; `hashed` is the complement of `d_unhashed`. */
  datatype State = State(
    parent: map<Id, Id>, subdirs: map<Id, seq<Id>>, count: map<Id, int>,
    names: map<Id, Name>, exts: map<Ext, External>,
    hashed: set<Id>, chains: map<Chain, seq<Id>>)

  const INLINE_LEN: nat := 32
  const WORD: nat := 8

  // ---- the tree ------------------------------------------------------------------------------------------

  /** Every parent exists and has a smaller rank: no cycle but the loop of a root onto itself. */
  ghost predicate IsRank(parent: map<Id, Id>, rank: Id -> nat) {
    forall x {:trigger parent[x]} :: x in parent ==>
      parent[x] in parent && (parent[x] != x ==> rank(parent[x]) < rank(x))
  }

  ghost predicate Forest(parent: map<Id, Id>) { exists rank: Id -> nat :: IsRank(parent, rank) }

  /** `a` is `x` or an ancestor of it. */
  ghost predicate Under(parent: map<Id, Id>, rank: Id -> nat, x: Id, a: Id)
    requires IsRank(parent, rank) && x in parent
    decreases rank(x)
  {
    x == a || (parent[x] != x && Under(parent, rank, parent[x], a))
  }

  lemma {:induction false} UnderRank(parent: map<Id, Id>, rank: Id -> nat, x: Id, a: Id)
    requires IsRank(parent, rank) && x in parent && Under(parent, rank, x, a)
    ensures a in parent && rank(a) <= rank(x) && (rank(a) == rank(x) ==> a == x)
    decreases rank(x)
  {
    if x != a { UnderRank(parent, rank, parent[x], a); }
  }

  lemma {:induction false} UnderTransitive(parent: map<Id, Id>, rank: Id -> nat, x: Id, b: Id, a: Id)
    requires IsRank(parent, rank) && x in parent && b in parent
    requires Under(parent, rank, x, b) && Under(parent, rank, b, a)
    ensures Under(parent, rank, x, a)
    decreases rank(x)
  {
    if x != b { UnderTransitive(parent, rank, parent[x], b, a); }
  }

  /** What d_ancestor looks for: a dentry on the way up from p2 whose parent is p1. */
  ghost predicate ChildOnPath(parent: map<Id, Id>, rank: Id -> nat, p1: Id, p2: Id, p: Id)
    requires IsRank(parent, rank) && p2 in parent
  {
    p in parent && parent[p] != p && parent[p] == p1 && Under(parent, rank, p2, p)
  }

  /** There is one exactly if p1 is a proper ancestor of p2. */
  lemma {:induction false} ChildOnPathIff(parent: map<Id, Id>, rank: Id -> nat, p1: Id, p2: Id)
    requires IsRank(parent, rank) && p2 in parent
    ensures (exists p :: ChildOnPath(parent, rank, p1, p2, p)) <==> p1 != p2 && Under(parent, rank, p2, p1)
    decreases rank(p2)
  {
    if parent[p2] == p2 {
    } else {
      var up := parent[p2];
      ChildOnPathIff(parent, rank, p1, up);
      if p1 == up {
        assert ChildOnPath(parent, rank, p1, p2, p2);
        UnderRank(parent, rank, p2, p1);
      } else if exists p :: ChildOnPath(parent, rank, p1, up, p) {
        var p :| ChildOnPath(parent, rank, p1, up, p);
        assert ChildOnPath(parent, rank, p1, p2, p);
        UnderRank(parent, rank, up, p1);
      } else if exists p :: ChildOnPath(parent, rank, p1, p2, p) {
        var p :| ChildOnPath(parent, rank, p1, p2, p);
        assert p != p2 && ChildOnPath(parent, rank, p1, up, p);
      }
    }
  }

  /** The child on the path, if any, is unique. */
  lemma {:induction false} ChildOnPathUnique(parent: map<Id, Id>, rank: Id -> nat, p1: Id, p2: Id, p: Id, q: Id)
    requires IsRank(parent, rank) && p2 in parent
    requires ChildOnPath(parent, rank, p1, p2, p) && ChildOnPath(parent, rank, p1, p2, q)
    ensures p == q
    decreases rank(p2)
  {
    if p2 == p && p2 != q {
      UnderRank(parent, rank, parent[p2], q);
    } else if p2 == q && p2 != p {
      UnderRank(parent, rank, parent[p2], p);
    } else if p2 != p {
      ChildOnPathUnique(parent, rank, p1, parent[p2], p, q);
    }
  }

  /** Moving `d` with everything under it below `to`, which is not itself under `d`, keeps a forest. */
  lemma GraftKeepsForest(parent: map<Id, Id>, rank: Id -> nat, d: Id, to: Id)
    requires IsRank(parent, rank) && d in parent && to in parent && !Under(parent, rank, to, d)
    ensures Forest(parent[d := to])
  {
    var lift := rank(to) + 1;
    var rank' := (x: Id) => if x in parent && Under(parent, rank, x, d) then rank(x) + lift else rank(x);
    var parent' := parent[d := to];
    forall x | x in parent'
      ensures parent'[x] in parent' && (parent'[x] != x ==> rank'(parent'[x]) < rank'(x))
    {
      if x != d && parent[x] != x {
        assert Under(parent, rank, x, d) == Under(parent, rank, parent[x], d);
      }
    }
    assert IsRank(parent', rank');
  }

  /** A graft at `d` changes the ancestors of nothing outside its subtree. */
  lemma {:induction false} GraftElsewhere(
    parent: map<Id, Id>, rank: Id -> nat, parent': map<Id, Id>, rank': Id -> nat, d: Id, x: Id, a: Id)
    requires IsRank(parent, rank) && d in parent && x in parent && !Under(parent, rank, x, d)
    requires IsRank(parent', rank') && d in parent' && parent' == parent[d := parent'[d]]
    ensures Under(parent', rank', x, a) == Under(parent, rank, x, a)
    decreases rank(x)
  {
    if parent[x] != x { GraftElsewhere(parent, rank, parent', rank', d, parent[x], a); }
  }

  lemma SwapKeepsForest(parent: map<Id, Id>, rank: Id -> nat, d: Id, t: Id)
    requires IsRank(parent, rank) && d in parent && t in parent
    requires !Under(parent, rank, t, d) && !Under(parent, rank, d, t)
    requires parent[t] != t
    ensures Forest(parent[d := parent[t]][t := parent[d]])
  {
    var pd, pt := parent[d], parent[t];
    GraftKeepsForest(parent, rank, d, pt);
    var parent1 := parent[d := pt];
    var rank1: Id -> nat :| IsRank(parent1, rank1);
    GraftElsewhere(parent, rank, parent1, rank1, d, pt, t);
    if Under(parent, rank, pt, t) { UnderRank(parent, rank, pt, t); }
    if pd != d {
      if Under(parent, rank, pd, d) { UnderRank(parent, rank, pd, d); }
      GraftElsewhere(parent, rank, parent1, rank1, d, pd, t);
    }
    GraftKeepsForest(parent1, rank1, t, pd);
  }

  /** Two roots exchanged are each other's parent. */
  lemma SwappedRootsLoop(parent: map<Id, Id>, d: Id, t: Id)
    requires d in parent && t in parent && d != t && parent[d] == d && parent[t] == t
    ensures !Forest(parent[d := parent[t]][t := parent[d]])
  {
    var parent' := parent[d := t][t := d];
    forall rank: Id -> nat
      ensures !IsRank(parent', rank)
    {
      assert parent'[d] == t && parent'[t] == d;
    }
  }

  // ---- child lists and reference counts --------------------------------------------------------------------

  function Without(l: seq<Id>, x: Id): (r: seq<Id>)
    ensures multiset(r) == multiset(l)[x := 0]
    ensures |r| == |l| - multiset(l)[x]
  {
    if l == [] then []
    else
      assert l == [l[0]] + l[1..];
      if l[0] == x then Without(l[1..], x) else [l[0]] + Without(l[1..], x)
  }

  /** list_move of x's `d_child` from the children of `from` to the head of those of `to`. */
  function ChildMoved(subdirs: map<Id, seq<Id>>, x: Id, from: Id, to: Id): map<Id, seq<Id>>
    requires from in subdirs && to in subdirs
  {
    var off := subdirs[from := Without(subdirs[from], x)];
    off[to := [x] + off[to]]
  }

  /** Every dentry but a root or one in `skip` is once in its parent's child list, and in no other. */
  ghost predicate ListsFit(parent: map<Id, Id>, subdirs: map<Id, seq<Id>>, skip: set<Id>) {
    && subdirs.Keys == parent.Keys
    && forall p, x {:trigger multiset(subdirs[p])[x]} :: p in subdirs ==>
         multiset(subdirs[p])[x] == if x in parent && x !in skip && parent[x] == p && x != p then 1 else 0
  }

  ghost predicate ChildrenInv(parent: map<Id, Id>, subdirs: map<Id, seq<Id>>) { ListsFit(parent, subdirs, {}) }

  lemma UnlistKeeps(parent: map<Id, Id>, subdirs: map<Id, seq<Id>>, x: Id)
    requires ChildrenInv(parent, subdirs) && x in parent && parent[x] in parent
    ensures ListsFit(parent, subdirs[parent[x] := Without(subdirs[parent[x]], x)], {x})
  {
    var off := subdirs[parent[x] := Without(subdirs[parent[x]], x)];
    forall p, y | p in off
      ensures multiset(off[p])[y] == if y in parent && y != x && parent[y] == p && y != p then 1 else 0
    {
      assert multiset(subdirs[p])[y] == if y in parent && parent[y] == p && y != p then 1 else 0;
      assert multiset(off[p])[y] == if p == parent[x] && y == x then 0 else multiset(subdirs[p])[y];
    }
  }

  lemma EnlistKeeps(parent: map<Id, Id>, subdirs: map<Id, seq<Id>>, x: Id, to: Id)
    requires ListsFit(parent, subdirs, {x}) && x in parent && to in parent && x != to
    ensures ChildrenInv(parent[x := to], subdirs[to := [x] + subdirs[to]])
  {
    assert multiset([x] + subdirs[to]) == multiset{x} + multiset(subdirs[to]);
  }

  lemma ChildMovedKeeps(parent: map<Id, Id>, subdirs: map<Id, seq<Id>>, x: Id, to: Id)
    requires ChildrenInv(parent, subdirs) && x in parent && to in parent && parent[x] in parent && x != to
    ensures ChildrenInv(parent[x := to], ChildMoved(subdirs, x, parent[x], to))
  {
    UnlistKeeps(parent, subdirs, x);
    EnlistKeeps(parent, subdirs[parent[x] := Without(subdirs[parent[x]], x)], x, to);
  }

  lemma ChildMovedLengths(parent: map<Id, Id>, subdirs: map<Id, seq<Id>>, x: Id, to: Id)
    requires ChildrenInv(parent, subdirs) && x in parent && to in parent && parent[x] in parent
    ensures forall p :: p in subdirs ==>
              |ChildMoved(subdirs, x, parent[x], to)[p]| ==
              |subdirs[p]| - (if p == parent[x] && parent[x] != x then 1 else 0) + (if p == to then 1 else 0)
  {
    assert multiset(subdirs[parent[x]])[x] == if parent[x] != x then 1 else 0;
  }

  // ---- hash chains -----------------------------------------------------------------------------------------

  function Members(chains: map<Chain, seq<Id>>, c: Chain): seq<Id> { if c in chains then chains[c] else [] }

  function ChainOf(parent: map<Id, Id>, names: map<Id, Name>, x: Id): Chain
    requires x in parent && x in names
  {
    if parent[x] == x then Roots else Bucket(names[x].hash)
  }

  /** A hashed dentry is once on the list of its name hash, or of the roots, and on no other. */
  ghost predicate HashInv(parent: map<Id, Id>, names: map<Id, Name>, hashed: set<Id>, chains: map<Chain, seq<Id>>) {
    && hashed <= parent.Keys && names.Keys == parent.Keys
    && forall c, x {:trigger multiset(Members(chains, c))[x]} :: multiset(Members(chains, c))[x] ==
         if x in hashed && ChainOf(parent, names, x) == c then 1 else 0
  }

  function Dropped(chains: map<Chain, seq<Id>>, c: Chain, x: Id): map<Chain, seq<Id>> {
    chains[c := Without(Members(chains, c), x)]
  }

  function Hashed(chains: map<Chain, seq<Id>>, c: Chain, x: Id): map<Chain, seq<Id>> {
    chains[c := [x] + Members(chains, c)]
  }

  /** ___d_drop if the dentry is hashed, else nothing. */
  function Unhashed(s: State, x: Id): State
    requires x in s.parent && x in s.names
  {
    if x in s.hashed then
      s.(chains := Dropped(s.chains, ChainOf(s.parent, s.names, x), x), hashed := s.hashed - {x})
    else s
  }

  lemma UnhashKeeps(s: State, x: Id)
    requires HashInv(s.parent, s.names, s.hashed, s.chains) && x in s.parent
    ensures var u := Unhashed(s, x); HashInv(u.parent, u.names, u.hashed, u.chains) && x !in u.hashed
  {
    if x in s.hashed {
      var c := ChainOf(s.parent, s.names, x);
      var chains' := Dropped(s.chains, c, x);
      forall k, y
        ensures multiset(Members(chains', k))[y] ==
                  if y in s.hashed - {x} && ChainOf(s.parent, s.names, y) == k then 1 else 0
      {
        assert multiset(Members(s.chains, k))[y] ==
                 if y in s.hashed && ChainOf(s.parent, s.names, y) == k then 1 else 0;
      }
    }
  }

  /** What is unhashed may change its name and its parent. */
  lemma RenameKeeps(
    parent: map<Id, Id>, names: map<Id, Name>, hashed: set<Id>, chains: map<Chain, seq<Id>>,
    parent': map<Id, Id>, names': map<Id, Name>)
    requires HashInv(parent, names, hashed, chains)
    requires parent'.Keys == parent.Keys && names'.Keys == names.Keys
    requires forall x :: x in hashed ==> parent'[x] == parent[x] && names'[x] == names[x]
    ensures HashInv(parent', names', hashed, chains)
  {
  }

  lemma RehashKeeps(
    parent: map<Id, Id>, names: map<Id, Name>, hashed: set<Id>, chains: map<Chain, seq<Id>>, x: Id)
    requires HashInv(parent, names, hashed, chains) && x in parent && x !in hashed && parent[x] != x
    ensures HashInv(parent, names, hashed + {x}, Hashed(chains, Bucket(names[x].hash), x))
  {
    var chains' := Hashed(chains, Bucket(names[x].hash), x);
    forall c, y
      ensures multiset(Members(chains', c))[y] ==
                if y in hashed + {x} && ChainOf(parent, names, y) == c then 1 else 0
    {
      assert multiset(Members(chains, c))[y] == if y in hashed && ChainOf(parent, names, y) == c then 1 else 0;
      assert c == Bucket(names[x].hash) ==> multiset(Members(chains', c)) == multiset{x} + multiset(Members(chains, c));
    }
  }

  // ---- names -------------------------------------------------------------------------------------------------

  predicate NameFits(n: Name, exts: map<Ext, External>) {
    && |n.iname| == INLINE_LEN
    && (if n.ext.None? then n.len < INLINE_LEN
        else n.ext.value in exts && |exts[n.ext.value].text| == n.len + 1)
  }

  /** The name a dentry shows: its characters and their hash. */
  function Shown(n: Name, exts: map<Ext, External>): (string, nat)
    requires NameFits(n, exts)
  {
    (if n.ext.None? then n.iname[..n.len] else exts[n.ext.value].text[..n.len], n.hash)
  }

  ghost function Users(names: map<Id, Name>, e: Ext): set<Id> { set x | x in names && names[x].ext == Some(e) }

  /** A shared name is counted once per dentry using it and once per snapshot (`held`), and lives while counted. */
  ghost predicate NamesInv(names: map<Id, Name>, exts: map<Ext, External>, held: Ext -> nat) {
    && (forall x :: x in names ==> NameFits(names[x], exts))
    && (forall e :: e in exts ==> exts[e].count == |Users(names, e)| + held(e) && exts[e].count > 0)
  }

  /** memcpy of the first `n` characters. */
  function Copied(to: seq<char>, from: seq<char>, n: nat): seq<char>
    requires n <= |from| && n <= |to|
  {
    from[..n] + to[n..]
  }

  /** Take one reference to a shared name, or drop one and free the name with the last. */
  function Ref(exts: map<Ext, External>, e: Option<Ext>, delta: int): map<Ext, External> {
    if e.None? || e.value !in exts then exts
    else
      var c := exts[e.value].count + delta;
      if delta < 0 && c == 0 then exts - {e.value} else exts[e.value := exts[e.value].(count := c)]
  }

  /** copy_name: the name `d` gets from `t`. */
  function CopiedName(d: Name, t: Name): Name
    requires |d.iname| == |t.iname| == INLINE_LEN && (t.ext.None? ==> t.len < INLINE_LEN)
  {
    t.(iname := if t.ext.Some? then d.iname else Copied(d.iname, t.iname, t.len + 1))
  }

  /** swap_names: the name `d` gets from `t`; two inline names are swapped whole. */
  function SwappedName(d: Name, t: Name): Name
    requires |d.iname| == |t.iname| == INLINE_LEN && (t.ext.None? ==> t.len < INLINE_LEN)
  {
    if d.ext.None? && t.ext.None? then t else CopiedName(d, t)
  }

  function Bit(b: bool): int { if b then 1 else 0 }

  /** Renaming one dentry moves one use from its old shared name to its new one. */
  lemma UsersAfter(names: map<Id, Name>, d: Id, n: Name, e: Ext)
    requires d in names
    ensures |Users(names[d := n], e)| == |Users(names, e)| + Bit(n.ext == Some(e)) - Bit(names[d].ext == Some(e))
  {
    var others := Users(names, e) - {d};
    assert Users(names, e) == if names[d].ext == Some(e) then others + {d} else others;
    assert Users(names[d := n], e) == if n.ext == Some(e) then others + {d} else others;
  }

  /** Taking a reference to `a` and then dropping one to `b`. */
  lemma RefsAfter(exts: map<Ext, External>, a: Option<Ext>, b: Option<Ext>, e: Ext)
    requires forall k :: k in exts ==> exts[k].count > 0
    ensures var exts' := Ref(Ref(exts, a, 1), b, -1);
            var c := if e in exts then exts[e].count + Bit(a == Some(e)) - Bit(b == Some(e)) else 0;
            && (e in exts' <==> e in exts && c != 0)
            && (e in exts' ==> exts'[e] == External(c, exts[e].text))
  {
  }

  lemma CopyShows(d: Name, t: Name)
    requires |d.iname| == |t.iname| == INLINE_LEN && (t.ext.None? ==> t.len < INLINE_LEN)
    ensures t.ext.None? ==> CopiedName(d, t).iname[..t.len] == t.iname[..t.len]
  {
  }

  lemma CopyKeepsNames(names: map<Id, Name>, exts: map<Ext, External>, held: Ext -> nat, d: Id, t: Id)
    requires NamesInv(names, exts, held) && d in names && t in names
    ensures var names' := names[d := CopiedName(names[d], names[t])];
            var exts' := Ref(Ref(exts, names[t].ext, 1), names[d].ext, -1);
            && NamesInv(names', exts', held)
            && Shown(names'[d], exts') == Shown(names[t], exts)
            && forall x :: x in names && x != d ==> Shown(names'[x], exts') == Shown(names[x], exts)
  {
    var names' := names[d := CopiedName(names[d], names[t])];
    var exts' := Ref(Ref(exts, names[t].ext, 1), names[d].ext, -1);
    forall e: Ext
      ensures e in exts' ==> e in exts && exts'[e].text == exts[e].text
      ensures e in exts' ==> exts'[e].count == |Users(names', e)| + held(e) && exts'[e].count > 0
      ensures e in exts && e !in exts' ==> Users(names', e) == {}
    {
      RefsAfter(exts, names[t].ext, names[d].ext, e);
      UsersAfter(names, d, names'[d], e);
    }
    forall x | x in names'
      ensures NameFits(names'[x], exts')
    {
      var as' := if x == d then t else x;
      assert NameFits(names[as'], exts);
      if names'[x].ext.Some? { assert x in Users(names', names'[x].ext.value); }
    }
    CopyShows(names[d], names[t]);
  }

  lemma SwapKeepsNames(names: map<Id, Name>, exts: map<Ext, External>, held: Ext -> nat, d: Id, t: Id)
    requires NamesInv(names, exts, held) && d in names && t in names && d != t
    ensures var names' := names[d := SwappedName(names[d], names[t])][t := SwappedName(names[t], names[d])];
            && NamesInv(names', exts, held)
            && Shown(names'[d], exts) == Shown(names[t], exts)
            && Shown(names'[t], exts) == Shown(names[d], exts)
  {
    var named := names[d := SwappedName(names[d], names[t])];
    var names' := named[t := SwappedName(names[t], names[d])];
    forall e: Ext
      ensures |Users(names', e)| == |Users(names, e)|
    {
      UsersAfter(names, d, named[d], e);
      UsersAfter(named, t, names'[t], e);
    }
    CopyShows(names[d], names[t]);
    CopyShows(names[t], names[d]);
  }

  // ---- the whole move ------------------------------------------------------------------------------------------

  /** Child lists, hash chains and shared names agree with the dentries. */
  ghost predicate ListsAgree(s: State, held: Ext -> nat) {
    && s.count.Keys == s.parent.Keys
    && ChildrenInv(s.parent, s.subdirs)
    && HashInv(s.parent, s.names, s.hashed, s.chains)
    && NamesInv(s.names, s.exts, held)
  }

  /** A dentry is referenced at least by its children. */
  predicate Pinned(subdirs: map<Id, seq<Id>>, count: map<Id, int>)
    requires subdirs.Keys == count.Keys
  {
    forall x :: x in count ==> count[x] >= |subdirs[x]|
  }

  ghost predicate Consistent(s: State, held: Ext -> nat) {
    Forest(s.parent) && ListsAgree(s, held) && s.subdirs.Keys == s.count.Keys && Pinned(s.subdirs, s.count)
  }

  /** Neither dentry is the other or an ancestor of it. */
  ghost predicate Separate(parent: map<Id, Id>, rank: Id -> nat, d: Id, t: Id)
    requires IsRank(parent, rank) && d in parent && t in parent
  {
    !Under(parent, rank, t, d) && !Under(parent, rank, d, t)
  }

  predicate Ready(s: State, d: Id, t: Id) {
    && s.subdirs.Keys == s.count.Keys == s.names.Keys == s.parent.Keys
    && d in s.parent && t in s.parent && s.parent[d] in s.parent && s.parent[t] in s.parent
    && (forall x :: x in s.names ==> NameFits(s.names[x], s.exts))
  }

  function MovedNames(s: State, d: Id, t: Id, exchange: bool): map<Id, Name>
    requires Ready(s, d, t)
  {
    if exchange then s.names[d := SwappedName(s.names[d], s.names[t])][t := SwappedName(s.names[t], s.names[d])]
    else s.names[d := CopiedName(s.names[d], s.names[t])]
  }

  function MovedParents(parent: map<Id, Id>, d: Id, t: Id, exchange: bool): map<Id, Id>
    requires d in parent && t in parent
  {
    if exchange then parent[d := parent[t]][t := parent[d]] else parent[d := parent[t]]
  }

  function MovedChildren(parent: map<Id, Id>, subdirs: map<Id, seq<Id>>, d: Id, t: Id, exchange: bool)
    : map<Id, seq<Id>>
    requires d in parent && t in parent && parent[d] in subdirs && parent[t] in subdirs
  {
    var pd, pt := parent[d], parent[t];
    if exchange then ChildMoved(ChildMoved(subdirs, t, pt, pd), d, pd, pt) else ChildMoved(subdirs, d, pd, pt)
  }

  function MovedCounts(parent: map<Id, Id>, count: map<Id, int>, d: Id, t: Id, exchange: bool): map<Id, int>
    requires d in parent && t in parent && parent[d] in count && parent[t] in count
  {
    var pd, pt := parent[d], parent[t];
    var up := count[pt := count[pt] + 1];
    if exchange then count else if pd == d then up else up[pd := up[pd] - 1]
  }

  /** The rehashing of the moved dentry, and in an exchange of the other before it. */
  function RehashedChains(chains: map<Chain, seq<Id>>, names: map<Id, Name>, d: Id, t: Id, exchange: bool)
    : map<Chain, seq<Id>>
    requires d in names && t in names
  {
    Hashed(if exchange then Hashed(chains, Bucket(names[t].hash), t) else chains, Bucket(names[d].hash), d)
  }

  /** The state after __d_move: `d` takes the place and name of `t`, which is left unhashed, or they trade. */
  function Moved(s: State, d: Id, t: Id, exchange: bool): State
    requires Ready(s, d, t)
  {
    var u := Unhashed(Unhashed(s, d), t);
    var names := MovedNames(s, d, t, exchange);
    State(
      MovedParents(s.parent, d, t, exchange),
      MovedChildren(s.parent, s.subdirs, d, t, exchange),
      MovedCounts(s.parent, s.count, d, t, exchange),
      names,
      if exchange then s.exts else Ref(Ref(s.exts, s.names[t].ext, 1), s.names[d].ext, -1),
      u.hashed + (if exchange then {t} else {}) + {d},
      RehashedChains(u.chains, names, d, t, exchange))
  }

  predicate Apart(parent: map<Id, Id>, d: Id, t: Id)
    requires d in parent && t in parent
  {
    d != t && parent[t] != d && parent[d] != t
  }

  /** Separate dentries are not each other's parents. */
  lemma SeparateParents(parent: map<Id, Id>, rank: Id -> nat, d: Id, t: Id)
    requires IsRank(parent, rank) && d in parent && t in parent && Separate(parent, rank, d, t)
    ensures Apart(parent, d, t)
  {
    assert Under(parent, rank, d, d) && Under(parent, rank, t, t);
  }

  /** The tree stays a forest exactly if it is not two roots that trade places. */
  lemma MoveKeepsForest(s: State, rank: Id -> nat, d: Id, t: Id, exchange: bool)
    requires Ready(s, d, t) && IsRank(s.parent, rank) && Separate(s.parent, rank, d, t)
    ensures Forest(Moved(s, d, t, exchange).parent) <==>
            !(exchange && s.parent[d] == d && s.parent[t] == t)
  {
    var parent := s.parent;
    if !exchange {
      assert !Under(parent, rank, parent[t], d);
      GraftKeepsForest(parent, rank, d, parent[t]);
    } else if parent[t] != t {
      SwapKeepsForest(parent, rank, d, t);
    } else if parent[d] != d {
      SwapKeepsForest(parent, rank, t, d);
      assert parent[t := parent[d]][d := parent[t]] == parent[d := parent[t]][t := parent[d]];
    } else {
      SwappedRootsLoop(parent, d, t);
    }
  }

  lemma SwapKeepsChildren(parent: map<Id, Id>, subdirs: map<Id, seq<Id>>, d: Id, t: Id, pd: Id, pt: Id)
    requires ChildrenInv(parent, subdirs) && d in parent && t in parent && pd in parent && pt in parent
    requires Apart(parent, d, t) && pd == parent[d] && pt == parent[t]
    ensures ChildrenInv(parent[t := pd][d := pt], ChildMoved(ChildMoved(subdirs, t, pt, pd), d, pd, pt))
  {
    ChildMovedKeeps(parent, subdirs, t, pd);
    ChildMovedKeeps(parent[t := pd], ChildMoved(subdirs, t, pt, pd), d, pt);
  }

  /** Child lists keep following the parents. */
  lemma MoveKeepsChildren(parent: map<Id, Id>, subdirs: map<Id, seq<Id>>, d: Id, t: Id, exchange: bool)
    requires ChildrenInv(parent, subdirs) && d in parent && t in parent && parent[d] in parent && parent[t] in parent
    requires Apart(parent, d, t)
    ensures ChildrenInv(MovedParents(parent, d, t, exchange), MovedChildren(parent, subdirs, d, t, exchange))
  {
    var pd, pt := parent[d], parent[t];
    if exchange {
      SwapKeepsChildren(parent, subdirs, d, t, pd, pt);
      assert parent[t := pd][d := pt] == MovedParents(parent, d, t, exchange);
    } else {
      ChildMovedKeeps(parent, subdirs, d, pt);
    }
  }

  /** No dentry gains or loses a reference of its own: a move accounts for the child it takes away and the one
      it brings.  Only a root that is exchanged owes one reference more than was taken. */
  lemma MoveKeepsPins(
    parent: map<Id, Id>, subdirs: map<Id, seq<Id>>, count: map<Id, int>, d: Id, t: Id, exchange: bool, x: Id)
    requires ChildrenInv(parent, subdirs) && d in parent && t in parent && parent[d] in parent && parent[t] in parent
    requires Apart(parent, d, t) && x in parent && count.Keys == parent.Keys
    ensures MovedCounts(parent, count, d, t, exchange)[x] - |MovedChildren(parent, subdirs, d, t, exchange)[x]| ==
            count[x] - |subdirs[x]| - Bit(exchange && (x == d || x == t) && parent[x] == x)
  {
    var pd, pt := parent[d], parent[t];
    if exchange {
      ChildMovedKeeps(parent, subdirs, t, pd);
      ChildMovedLengths(parent, subdirs, t, pd);
      ChildMovedLengths(parent[t := pd], ChildMoved(subdirs, t, pt, pd), d, pt);
    } else {
      ChildMovedLengths(parent, subdirs, d, pt);
    }
  }

  /** A root with no reference but those of its children. */
  predicate BareRoot(parent: map<Id, Id>, subdirs: map<Id, seq<Id>>, count: map<Id, int>, x: Id)
    requires x in parent && x in subdirs && x in count
  {
    parent[x] == x && count[x] == |subdirs[x]|
  }

  lemma MoveKeepsKeys(
    parent: map<Id, Id>, subdirs: map<Id, seq<Id>>, count: map<Id, int>, d: Id, t: Id, exchange: bool)
    requires subdirs.Keys == count.Keys == parent.Keys
    requires d in parent && t in parent && parent[d] in parent && parent[t] in parent
    ensures MovedCounts(parent, count, d, t, exchange).Keys == parent.Keys
    ensures MovedParents(parent, d, t, exchange).Keys == parent.Keys
    ensures MovedChildren(parent, subdirs, d, t, exchange).Keys == parent.Keys
  {
  }

  /** Where each dentry of `less` has one reference to spare less, and no other has. */
  lemma SparedIff(
    subdirs: map<Id, seq<Id>>, count: map<Id, int>, subdirs': map<Id, seq<Id>>, count': map<Id, int>, less: set<Id>)
    requires subdirs.Keys == count.Keys == subdirs'.Keys == count'.Keys && less <= count.Keys
    requires Pinned(subdirs, count)
    requires forall x :: x in count ==> count'[x] - |subdirs'[x]| == count[x] - |subdirs[x]| - Bit(x in less)
    ensures Pinned(subdirs', count') <==> forall x :: x in less ==> count[x] > |subdirs[x]|
  {
    forall x | x in count
      ensures count'[x] >= |subdirs'[x]| <==> x !in less || count[x] > |subdirs[x]|
    {
    }
  }

  /** Counts stay at least the number of children exactly if no bare root is exchanged: it takes the other dentry as a
      child without a reference for it. */
  lemma PinsKeptIff(parent: map<Id, Id>, subdirs: map<Id, seq<Id>>, count: map<Id, int>, d: Id, t: Id, exchange: bool)
    requires ChildrenInv(parent, subdirs) && d in parent && t in parent && parent[d] in parent && parent[t] in parent
    requires Apart(parent, d, t) && subdirs.Keys == count.Keys == parent.Keys && Pinned(subdirs, count)
    ensures MovedChildren(parent, subdirs, d, t, exchange).Keys == MovedCounts(parent, count, d, t, exchange).Keys
    ensures Pinned(MovedChildren(parent, subdirs, d, t, exchange), MovedCounts(parent, count, d, t, exchange)) <==>
            !(exchange && (BareRoot(parent, subdirs, count, d) || BareRoot(parent, subdirs, count, t)))
  {
    MoveKeepsKeys(parent, subdirs, count, d, t, exchange);
    var subdirs', count' := MovedChildren(parent, subdirs, d, t, exchange), MovedCounts(parent, count, d, t, exchange);
    var less := set x | x in {d, t} && exchange && parent[x] == x;
    forall x | x in count
      ensures count'[x] - |subdirs'[x]| == count[x] - |subdirs[x]| - Bit(x in less)
    {
      MoveKeepsPins(parent, subdirs, count, d, t, exchange, x);
    }
    SparedIff(subdirs, count, subdirs', count', less);
  }

  /** Exchanging even one root can leave a count below the number of children: root 0 without children or references
      trades places with dentry 2 under root 1, and has dentry 2 as a child then. */
  lemma ExchangedRootUnpinned()
    ensures var parent, count := map[0 := 0, 1 := 1, 2 := 1], map[0 := 0, 1 := 1, 2 := 0];
            var subdirs := map[0 := [], 1 := [2], 2 := []];
            && ChildrenInv(parent, subdirs) && Apart(parent, 0, 2) && Pinned(subdirs, count)
            && !Pinned(MovedChildren(parent, subdirs, 0, 2, true), MovedCounts(parent, count, 0, 2, true))
  {
    var parent, count := map[0 := 0, 1 := 1, 2 := 1], map[0 := 0, 1 := 1, 2 := 0];
    var subdirs := map[0 := [], 1 := [2], 2 := []];
    PinsKeptIff(parent, subdirs, count, 0, 2, true);
  }

  /** Both dentries off their chains. */
  lemma UnhashBothKeeps(s: State, d: Id, t: Id)
    requires HashInv(s.parent, s.names, s.hashed, s.chains) && d in s.parent && t in s.parent
    ensures var u := Unhashed(Unhashed(s, d), t);
            HashInv(s.parent, s.names, u.hashed, u.chains) && d !in u.hashed && t !in u.hashed
  {
    UnhashKeeps(s, d);
    UnhashKeeps(Unhashed(s, d), t);
  }

  lemma RehashMovedKeeps(
    parent: map<Id, Id>, names: map<Id, Name>, hashed: set<Id>, chains: map<Chain, seq<Id>>,
    d: Id, t: Id, exchange: bool)
    requires HashInv(parent, names, hashed, chains) && d in parent && t in parent && d != t
    requires d !in hashed && t !in hashed && parent[d] != d && (exchange ==> parent[t] != t)
    ensures HashInv(parent, names, hashed + (if exchange then {t} else {}) + {d},
                    RehashedChains(chains, names, d, t, exchange))
  {
    if exchange {
      RehashKeeps(parent, names, hashed, chains, t);
      RehashKeeps(parent, names, hashed + {t}, Hashed(chains, Bucket(names[t].hash), t), d);
    } else {
      RehashKeeps(parent, names, hashed, chains, d);
      assert hashed + {} + {d} == hashed + {d};
    }
  }

  /** A hashed dentry stays on the chain of its current name hash; the moved one is always hashed after. */
  lemma MoveKeepsHash(s: State, d: Id, t: Id, exchange: bool)
    requires Ready(s, d, t) && Apart(s.parent, d, t)
    requires HashInv(s.parent, s.names, s.hashed, s.chains)
    ensures var s' := Moved(s, d, t, exchange);
            && HashInv(s'.parent, s'.names, s'.hashed, s'.chains)
            && d in s'.hashed && (t in s'.hashed <==> exchange)
  {
    UnhashBothKeeps(s, d, t);
    var u := Unhashed(Unhashed(s, d), t);
    var parent, names := MovedParents(s.parent, d, t, exchange), MovedNames(s, d, t, exchange);
    RenameKeeps(s.parent, s.names, u.hashed, u.chains, parent, names);
    RehashMovedKeeps(parent, names, u.hashed, u.chains, d, t, exchange);
  }

  /** The moved dentry shows the target's name; the target keeps its own, or gets the other's in exchange. */
  lemma MoveKeepsNames(s: State, held: Ext -> nat, d: Id, t: Id, exchange: bool)
    requires Ready(s, d, t) && d != t && NamesInv(s.names, s.exts, held)
    ensures var s' := Moved(s, d, t, exchange);
            && NamesInv(s'.names, s'.exts, held)
            && Shown(s'.names[d], s'.exts) == Shown(s.names[t], s.exts)
            && Shown(s'.names[t], s'.exts) == Shown(if exchange then s.names[d] else s.names[t], s.exts)
  {
    if exchange {
      SwapKeepsNames(s.names, s.exts, held, d, t);
    } else {
      CopyKeepsNames(s.names, s.exts, held, d, t);
    }
  }

  lemma MoveKeepsLists(s: State, held: Ext -> nat, d: Id, t: Id, exchange: bool)
    requires Ready(s, d, t) && Apart(s.parent, d, t) && ListsAgree(s, held)
    ensures ListsAgree(Moved(s, d, t, exchange), held)
  {
    MoveKeepsKeys(s.parent, s.subdirs, s.count, d, t, exchange);
    MoveKeepsChildren(s.parent, s.subdirs, d, t, exchange);
    MoveKeepsHash(s, d, t, exchange);
    MoveKeepsNames(s, held, d, t, exchange);
  }

  /** Every __d_move that passes its ancestor checks keeps the whole cache consistent, unless it exchanges two roots or
      a bare root; `d_exchange` warns about roots but goes on. */
  lemma MoveKeepsConsistent(s: State, held: Ext -> nat, rank: Id -> nat, d: Id, t: Id, exchange: bool)
    requires Consistent(s, held) && Ready(s, d, t) && IsRank(s.parent, rank) && Separate(s.parent, rank, d, t)
    ensures Consistent(Moved(s, d, t, exchange), held) <==>
            !(exchange && ((s.parent[d] == d && s.parent[t] == t) ||
                           BareRoot(s.parent, s.subdirs, s.count, d) || BareRoot(s.parent, s.subdirs, s.count, t)))
  {
    MoveKeepsForest(s, rank, d, t, exchange);
    SeparateParents(s.parent, rank, d, t);
    MoveKeepsLists(s, held, d, t, exchange);
    PinsKeptIff(s.parent, s.subdirs, s.count, d, t, exchange);
  }

  /** `d` is where `t` was and `t` stays or, exchanged, is where `d` was; no other dentry has moved. */
  predicate ParentsPlaced(parent: map<Id, Id>, parent': map<Id, Id>, d: Id, t: Id, exchange: bool)
    requires d in parent && t in parent
  {
    && parent'.Keys == parent.Keys
    && parent'[d] == parent[t] && parent'[t] == (if exchange then parent[d] else parent[t])
    && forall x :: x in parent && x != d && x != t ==> parent'[x] == parent[x]
  }

  /** In a plain move one reference goes from the old parent of `d`, if it had one, to the new one. */
  predicate CountsPlaced(parent: map<Id, Id>, count: map<Id, int>, count': map<Id, int>, d: Id, t: Id, exchange: bool)
    requires d in parent && t in parent
  {
    && count'.Keys == count.Keys
    && forall x :: x in count ==>
         count'[x] == count[x] + if exchange then 0 else Bit(x == parent[t]) - Bit(x == parent[d] && x != d)
  }

  /** `d` is at the head of the children of its new parent.  Only the two dentries change their names and whether they
      are hashed: `d` is then, and `t` is if exchanged. */
  predicate OthersKept(s: State, s': State, d: Id, t: Id, exchange: bool)
    requires t in s.parent
  {
    && s'.names.Keys == s.names.Keys && (forall x :: x in s.names && x != d && x != t ==> s'.names[x] == s.names[x])
    && s'.hashed == s.hashed - {t} + {d} + (if exchange then {t} else {})
    && s.parent[t] in s'.subdirs && s'.subdirs[s.parent[t]] != [] && s'.subdirs[s.parent[t]][0] == d
  }

  lemma MovePlacesParents(parent: map<Id, Id>, d: Id, t: Id, exchange: bool)
    requires d in parent && t in parent && d != t
    ensures ParentsPlaced(parent, MovedParents(parent, d, t, exchange), d, t, exchange)
  {
  }

  lemma MovePlacesCounts(parent: map<Id, Id>, count: map<Id, int>, d: Id, t: Id, exchange: bool)
    requires d in parent && t in parent && parent[d] in count && parent[t] in count
    ensures CountsPlaced(parent, count, MovedCounts(parent, count, d, t, exchange), d, t, exchange)
  {
  }

  lemma ChildAtHead(parent: map<Id, Id>, subdirs: map<Id, seq<Id>>, d: Id, t: Id, exchange: bool)
    requires d in parent && t in parent && parent[d] in subdirs && parent[t] in subdirs
    ensures var subdirs' := MovedChildren(parent, subdirs, d, t, exchange);
            parent[t] in subdirs' && subdirs'[parent[t]] != [] && subdirs'[parent[t]][0] == d
  {
  }

  lemma UnhashedBoth(s: State, d: Id, t: Id)
    requires d in s.parent && t in s.parent && d in s.names && t in s.names
    ensures Unhashed(Unhashed(s, d), t).hashed == s.hashed - {d} - {t}
  {
  }

  lemma OtherNames(s: State, d: Id, t: Id, exchange: bool)
    requires Ready(s, d, t)
    ensures MovedNames(s, d, t, exchange).Keys == s.names.Keys
    ensures forall x :: x in s.names && x != d && x != t ==> MovedNames(s, d, t, exchange)[x] == s.names[x]
  {
  }

  lemma MoveKeepsOthers(s: State, d: Id, t: Id, exchange: bool)
    requires Ready(s, d, t)
    ensures OthersKept(s, Moved(s, d, t, exchange), d, t, exchange)
  {
    ChildAtHead(s.parent, s.subdirs, d, t, exchange);
    UnhashedBoth(s, d, t);
    OtherNames(s, d, t, exchange);
    var hashed := s.hashed - {d} - {t} + (if exchange then {t} else {}) + {d};
    assert hashed == s.hashed - {t} + {d} + (if exchange then {t} else {});
  }

  /** The warning that the old parent lost its last reference fires exactly if nothing else held it: no other
      child, and no reference of its own. */
  lemma WarnOnlyUnpinned(parent: map<Id, Id>, subdirs: map<Id, seq<Id>>, count: map<Id, int>, d: Id, t: Id)
    requires ChildrenInv(parent, subdirs) && d in parent && t in parent && parent[d] in parent && parent[t] in parent
    requires Apart(parent, d, t) && count.Keys == parent.Keys && parent[d] != d
    requires count[parent[d]] >= |subdirs[parent[d]]|
    ensures MovedCounts(parent, count, d, t, false)[parent[d]] == 0 <==>
            count[parent[d]] == |subdirs[parent[d]]| && MovedChildren(parent, subdirs, d, t, false)[parent[d]] == []
  {
    MoveKeepsPins(parent, subdirs, count, d, t, false, parent[d]);
  }

  // ---- the code ------------------------------------------------------------------------------------------------

  /** What d_ancestor(p1, p2) returns. */
  ghost predicate Finds(parent: map<Id, Id>, rank: Id -> nat, p1: Id, p2: Id, r: Option<Id>)
    requires IsRank(parent, rank) && p2 in parent
  {
    if r.Some? then ChildOnPath(parent, rank, p1, p2, r.value)
    else forall p :: !ChildOnPath(parent, rank, p1, p2, p)
  }

  /** The BUG_ONs of __d_move decide whether `d` is above `t`, whichever shape the tree around them has. */
  lemma ChecksDecide(parent: map<Id, Id>, rank: Id -> nat, d: Id, t: Id, p: Option<Id>)
    requires IsRank(parent, rank) && d in parent && t in parent && d != t
    requires Finds(parent, rank, parent[d], t, p)
    ensures (if parent[d] == d then p.Some? else p == Some(d)) <==> Under(parent, rank, t, d)
  {
    ChildOnPathIff(parent, rank, parent[d], t);
    if parent[d] != d && Under(parent, rank, t, d) {
      assert ChildOnPath(parent, rank, parent[d], t, d);
      ChildOnPathUnique(parent, rank, parent[d], t, p.value, d);
    }
  }

  /** How __d_move ends: done, `dentry == target`, or a failed ancestor check. */
  datatype Verdict = Done | Same | Bug

  /** One word of two buffers trades places. */
  function WordFrom(x: seq<char>, y: seq<char>, i: nat): seq<char>
    requires |x| == |y| && WORD * i + WORD <= |x|
  {
    x[..WORD * i] + y[WORD * i..WORD * i + WORD] + x[WORD * i + WORD..]
  }

  lemma WordSwapsNext(a: seq<char>, b: seq<char>, i: nat)
    requires |a| == |b| && WORD * i + WORD <= |a|
    ensures WordFrom(b[..WORD * i] + a[WORD * i..], a[..WORD * i] + b[WORD * i..], i) ==
            b[..WORD * (i + 1)] + a[WORD * (i + 1)..]
  {
  }

  /** Two inline buffers swapped word by word. */
  method SwapWords(a: seq<char>, b: seq<char>) returns (x: seq<char>, y: seq<char>)
    requires |a| == |b| == INLINE_LEN
    ensures x == b && y == a
  {
    x, y := a, b;
    for i := 0 to INLINE_LEN / WORD
      invariant x == b[..WORD * i] + a[WORD * i..]
      invariant y == a[..WORD * i] + b[WORD * i..]
    {
      WordSwapsNext(a, b, i);
      WordSwapsNext(b, a, i);
      x, y := WordFrom(x, y, i), WordFrom(y, x, i);
    }
  }

  class Dcache {
    var parent: map<Id, Id>
    var subdirs: map<Id, seq<Id>>
    var count: map<Id, int>
    var names: map<Id, Name>
    var exts: map<Ext, External>
    var hashed: set<Id>
    var chains: map<Chain, seq<Id>>

    ghost function View(): State
      reads this
    {
      State(parent, subdirs, count, names, exts, hashed, chains)
    }

    method DAncestor(p1: Id, p2: Id, ghost rank: Id -> nat) returns (r: Option<Id>)
      requires IsRank(parent, rank) && p2 in parent
      ensures Finds(parent, rank, p1, p2, r)
    {
      var p := p2;
      while parent[p] != p
        invariant p in parent && Under(parent, rank, p2, p)
        invariant forall q :: ChildOnPath(parent, rank, p1, p2, q) ==> Under(parent, rank, p, q)
        decreases rank(p)
      {
        if parent[p] == p1 {
          return Some(p);
        }
        UnderTransitive(parent, rank, p2, p, parent[p]);
        p := parent[p];
      }
      return None;
    }

    method CopyName(d: Id, t: Id)
      requires d in names && t in names && NameFits(names[d], exts) && NameFits(names[t], exts)
      modifies `names, `exts
      ensures names == old(names)[d := CopiedName(old(names)[d], old(names)[t])]
      ensures exts == Ref(Ref(old(exts), old(names)[t].ext, 1), old(names)[d].ext, -1)
    {
      var oldName := names[d].ext;
      var target := names[t];
      if target.ext.Some? {
        var e := target.ext.value;
        exts := exts[e := exts[e].(count := exts[e].count + 1)];
        names := names[d := names[d].(ext := target.ext, len := target.len, hash := target.hash)];
      } else {
        names := names[d := names[d].(iname := Copied(names[d].iname, target.iname, target.len + 1))];
        names := names[d := names[d].(ext := None, len := target.len, hash := target.hash)];
      }
      if oldName.Some? && oldName.value in exts {
        var left := exts[oldName.value].count - 1;
        exts := if left == 0 then exts - {oldName.value}
                else exts[oldName.value := exts[oldName.value].(count := left)];
      }
    }

    method SwapNames(d: Id, t: Id)
      requires d in names && t in names && d != t && NameFits(names[d], exts) && NameFits(names[t], exts)
      modifies `names
      ensures names == old(names)[d := SwappedName(old(names)[d], old(names)[t])]
                                 [t := SwappedName(old(names)[t], old(names)[d])]
    {
      var dentry, target := names[d], names[t];
      if target.ext.Some? {
        if dentry.ext.Some? {
          names := names[d := names[d].(ext := target.ext)][t := names[t].(ext := dentry.ext)];
        } else {
          names := names[t := names[t].(iname := Copied(target.iname, dentry.iname, dentry.len + 1))];
          names := names[d := names[d].(ext := target.ext)][t := names[t].(ext := None)];
        }
      } else {
        if dentry.ext.Some? {
          names := names[d := names[d].(iname := Copied(dentry.iname, target.iname, target.len + 1))];
          names := names[t := names[t].(ext := dentry.ext)][d := names[d].(ext := None)];
        } else {
          var x, y := SwapWords(dentry.iname, target.iname);
          names := names[d := names[d].(iname := x)][t := names[t].(iname := y)];
        }
      }
      names := names[d := names[d].(len := target.len, hash := target.hash)]
                    [t := names[t].(len := dentry.len, hash := dentry.hash)];
    }

    method Drop(x: Id)
      requires x in parent && x in names
      modifies `hashed, `chains
      ensures View() == Unhashed(old(View()), x)
    {
      if x in hashed {
        var c := if parent[x] == x then Roots else Bucket(names[x].hash);
        chains := Dropped(chains, c, x);
        hashed := hashed - {x};
      }
    }

    method Rehash(x: Id)
      requires x in names
      modifies `hashed, `chains
      ensures hashed == old(hashed) + {x}
      ensures chains == Hashed(old(chains), Bucket(names[x].hash), x)
    {
      chains := Hashed(chains, Bucket(names[x].hash), x);
      hashed := hashed + {x};
    }

    /** The ancestor checks of __d_move, which trip over a BUG_ON or let it go on. */
    method Check(d: Id, t: Id, ghost rank: Id -> nat) returns (ok: bool)
      requires d in parent && t in parent && d != t && IsRank(parent, rank)
      ensures ok <==> Separate(parent, rank, d, t)
    {
      var a := DAncestor(t, d, rank);
      ChildOnPathIff(parent, rank, t, d);
      if a.Some? {
        return false;
      }
      var oldParent := parent[d];
      var p := DAncestor(oldParent, t, rank);
      ChecksDecide(parent, rank, d, t, p);
      ok := !(if oldParent == d then p.Some? else p == Some(d));
    }

    /** The tree and names of a plain move; `warned` is the complaint that the old parent's count hit zero. */
    method MovePlain(d: Id, t: Id) returns (warned: bool)
      requires Ready(View(), d, t) && Apart(parent, d, t)
      modifies `parent, `count, `names, `exts
      ensures parent == MovedParents(old(parent), d, t, false)
      ensures count == MovedCounts(old(parent), old(count), d, t, false)
      ensures names == old(names)[d := CopiedName(old(names)[d], old(names)[t])]
      ensures exts == Ref(Ref(old(exts), old(names)[t].ext, 1), old(names)[d].ext, -1)
      ensures warned <==> old(parent)[d] != d && count[old(parent)[d]] == 0
    {
      var oldParent := parent[d];
      warned := false;
      parent := parent[d := parent[t]];
      CopyName(d, t);
      count := count[parent[d] := count[parent[d]] + 1];
      if d != oldParent {
        count := count[oldParent := count[oldParent] - 1];
        warned := count[oldParent] == 0;
      }
    }

    /** The tree and names of an exchange, the other dentry's child list and chain included. */
    method MoveExchange(d: Id, t: Id)
      requires Ready(View(), d, t) && Apart(parent, d, t)
      modifies `parent, `subdirs, `names, `hashed, `chains
      ensures parent == MovedParents(old(parent), d, t, true)
      ensures subdirs == ChildMoved(old(subdirs), t, old(parent)[t], old(parent)[d])
      ensures names == old(names)[d := SwappedName(old(names)[d], old(names)[t])]
                                 [t := SwappedName(old(names)[t], old(names)[d])]
      ensures hashed == old(hashed) + {t} && chains == Hashed(old(chains), Bucket(names[t].hash), t)
    {
      var oldParent, targetParent := parent[d], parent[t];
      parent := parent[d := targetParent];
      parent := parent[t := oldParent];
      SwapNames(d, t);
      subdirs := ChildMoved(subdirs, t, targetParent, oldParent);
      Rehash(t);
    }

    /** The part of __d_move under the locks. */
    method Relink(d: Id, t: Id, exchange: bool) returns (warned: bool)
      requires Ready(View(), d, t) && Apart(parent, d, t)
      modifies this
      ensures View() == Moved(old(View()), d, t, exchange)
      ensures warned <==> !exchange && old(parent)[d] != d && count[old(parent)[d]] == 0
    {
      var oldParent := parent[d];
      warned := false;
      Drop(d);
      Drop(t);
      ghost var u := View();
      assert u == Unhashed(Unhashed(old(View()), d), t);
      if !exchange {
        warned := MovePlain(d, t);
      } else {
        MoveExchange(d, t);
      }
      assert names == MovedNames(old(View()), d, t, exchange);
      assert parent == MovedParents(u.parent, d, t, exchange);
      subdirs := ChildMoved(subdirs, d, oldParent, parent[d]);
      assert subdirs == MovedChildren(u.parent, u.subdirs, d, t, exchange);
      Rehash(d);
      assert hashed == u.hashed + (if exchange then {t} else {}) + {d};
      assert chains == RehashedChains(u.chains, names, d, t, exchange);
    }

    /** __d_move. */
    method Move(d: Id, t: Id, exchange: bool, ghost rank: Id -> nat) returns (r: Verdict, warned: bool)
      requires Ready(View(), d, t) && IsRank(parent, rank)
      modifies this
      ensures r == Same <==> d == t
      ensures r == Bug <==> d != t && !Separate(old(parent), rank, d, t)
      ensures r != Done ==> View() == old(View()) && !warned
      ensures r == Done ==> View() == Moved(old(View()), d, t, exchange)
      ensures r == Done ==>
                && ParentsPlaced(old(parent), parent, d, t, exchange)
                && CountsPlaced(old(parent), old(count), count, d, t, exchange)
                && OthersKept(old(View()), View(), d, t, exchange)
      ensures r == Done ==> (warned <==> !exchange && old(parent)[d] != d && count[old(parent)[d]] == 0)
    {
      if d == t {
        return Same, false;
      }
      var ok := Check(d, t, rank);
      if !ok {
        return Bug, false;
      }
      SeparateParents(parent, rank, d, t);
      MovePlacesParents(parent, d, t, exchange);
      MovePlacesCounts(parent, count, d, t, exchange);
      MoveKeepsOthers(View(), d, t, exchange);
      warned := Relink(d, t, exchange);
      r := Done;
    }
  }
}
