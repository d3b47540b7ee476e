/** `d_walk`: a walk of the dentry tree without recursion or stack.  It descends by `d_subdirs`, ascends by
    `d_parent` and finds the next sibling through `d_child.next`.  The tree does not change during the walk. */
module DentryWalk {

  type Id = nat

  datatype Ret = Continue | Quit | NoRetry | Skip

  /** `depth` and `height` witness that the tree is finite both ways; the walk does not read them. */
  datatype Tree = Tree(
    parent: map<Id, Id>, subdirs: map<Id, seq<Id>>, cursors: set<Id>,
    depth: Id -> nat, height: Id -> nat)

  /** What a walk leaves: the callback's data, the dentries entered in order, and whether it was told to quit. */
  datatype Out<D> = Out(data: D, trace: seq<Id>, stop: bool)

  ghost predicate Good(t: Tree) {
    && t.parent.Keys == t.subdirs.Keys
    && (forall p, i {:trigger t.subdirs[p][i]} :: p in t.subdirs && 0 <= i < |t.subdirs[p]| ==>
          var c := t.subdirs[p][i];
          && c in t.parent && t.parent[c] == p
          && t.depth(p) < t.depth(c) && t.height(c) < t.height(p))
    && (forall p, i, j :: p in t.subdirs && 0 <= i < j < |t.subdirs[p]| ==> t.subdirs[p][i] != t.subdirs[p][j])
  }

  // ---- the reference: recursive preorder --------------------------------------------------------------------

  ghost function Visit<D>(t: Tree, enter: (D, Id) -> (D, Ret), x: Id, data: D): (r: Out<D>)
    requires Good(t) && x in t.subdirs
    decreases t.height(x), 1, 0
  {
    var (d, ret) := enter(data, x);
    match ret
    case Quit => Out(d, [x], true)
    case Skip => Out(d, [x], false)
    case _ => var o := VisitFrom(t, enter, x, 0, d); Out(o.data, [x] + o.trace, o.stop)
  }

  /** The children of `p` from the i-th on, cursors left out, until one of them quits. */
  ghost function VisitFrom<D>(t: Tree, enter: (D, Id) -> (D, Ret), p: Id, i: nat, data: D): (r: Out<D>)
    requires Good(t) && p in t.subdirs && i <= |t.subdirs[p]|
    decreases t.height(p), 0, |t.subdirs[p]| - i
  {
    if i == |t.subdirs[p]| then Out(data, [], false)
    else
      var c := t.subdirs[p][i];
      if c in t.cursors then VisitFrom(t, enter, p, i + 1, data)
      else
        var o := Visit(t, enter, c, data);
        if o.stop then o
        else var o2 := VisitFrom(t, enter, p, i + 1, o.data); Out(o2.data, o.trace + o2.trace, o2.stop)
  }

  // ---- the rest of the walk, seen from anywhere in it ----------------------------------------------------------

  function IndexOf(l: seq<Id>, x: Id): (i: nat)
    requires x in l
    ensures i < |l| && l[i] == x && x !in l[..i]
  {
    if l[0] == x then 0 else 1 + IndexOf(l[1..], x)
  }

  /** Every step up from `p` is in its parent's child list until the start of the walk is reached. */
  ghost predicate Within(t: Tree, root: Id, p: Id)
    requires Good(t)
    decreases if p in t.parent then t.depth(p) else 0
  {
    p in t.subdirs &&
    (p == root ||
     var q := t.parent[p];
     q in t.subdirs && p in t.subdirs[q] && t.depth(q) < t.depth(p) && Within(t, root, q))
  }

  /** What is still to come at child `i` of `p`: the rest of its children, then the same for its parent. */
  ghost function Rest<D>(t: Tree, enter: (D, Id) -> (D, Ret), root: Id, p: Id, i: nat, data: D): (r: Out<D>)
    requires Good(t) && Within(t, root, p) && i <= |t.subdirs[p]|
    decreases t.depth(p)
  {
    var o := VisitFrom(t, enter, p, i, data);
    if o.stop || p == root then o
    else
      var q := t.parent[p];
      var o2 := Rest(t, enter, root, q, IndexOf(t.subdirs[q], p) + 1, o.data);
      Out(o2.data, o.trace + o2.trace, o2.stop)
  }

  ghost function Nodes(t: Tree, p: Id, i: nat): nat
    requires Good(t) && p in t.subdirs && i <= |t.subdirs[p]|
    decreases t.height(p), |t.subdirs[p]| - i
  {
    if i == |t.subdirs[p]| then 0 else 1 + Nodes(t, t.subdirs[p][i], 0) + Nodes(t, p, i + 1)
  }

  /** How many dentries are still ahead. */
  ghost function Ahead(t: Tree, root: Id, p: Id, i: nat): nat
    requires Good(t) && Within(t, root, p) && i <= |t.subdirs[p]|
    decreases t.depth(p)
  {
    Nodes(t, p, i) + if p == root then 0 else Ahead(t, root, t.parent[p], IndexOf(t.subdirs[t.parent[p]], p) + 1)
  }

  /** `o` with the dentries already entered put before. */
  ghost function After<D>(done: seq<Id>, o: Out<D>): Out<D> { o.(trace := done + o.trace) }

  /** Passing over a child that is not descended into. */
  lemma RestSkips<D>(t: Tree, enter: (D, Id) -> (D, Ret), root: Id, p: Id, i: nat, data: D, data': D, seen: seq<Id>)
    requires Good(t) && Within(t, root, p) && i < |t.subdirs[p]|
    requires VisitFrom(t, enter, p, i, data) == After(seen, VisitFrom(t, enter, p, i + 1, data'))
    ensures Rest(t, enter, root, p, i, data) == After(seen, Rest(t, enter, root, p, i + 1, data'))
  {
    var o := VisitFrom(t, enter, p, i + 1, data');
    if !o.stop && p != root {
      var q := t.parent[p];
      var o2 := Rest(t, enter, root, q, IndexOf(t.subdirs[q], p) + 1, o.data);
      assert seen + o.trace + o2.trace == seen + (o.trace + o2.trace);
    }
  }

  /** Descending into a child: its children first, and then what follows it. */
  lemma RestDescends<D>(t: Tree, enter: (D, Id) -> (D, Ret), root: Id, p: Id, i: nat, data: D)
    requires Good(t) && Within(t, root, p) && i < |t.subdirs[p]| && t.subdirs[p][i] != root
    requires t.subdirs[p][i] !in t.cursors && Within(t, root, t.subdirs[p][i])
    requires var ret := enter(data, t.subdirs[p][i]).1; ret.Continue? || ret.NoRetry?
    ensures var c := t.subdirs[p][i];
            Rest(t, enter, root, p, i, data) == After([c], Rest(t, enter, root, c, 0, enter(data, c).0))
  {
    var c := t.subdirs[p][i];
    assert IndexOf(t.subdirs[p], c) == i;
    var o := VisitFrom(t, enter, c, 0, enter(data, c).0);
    assert Visit(t, enter, c, data) == Out(o.data, [c] + o.trace, o.stop);
    if o.stop {
      assert VisitFrom(t, enter, p, i, data) == Visit(t, enter, c, data);
    } else {
      var o2 := VisitFrom(t, enter, p, i + 1, o.data);
      assert [c] + o.trace + o2.trace == [c] + (o.trace + o2.trace);
      if !o2.stop && p != root {
        var q := t.parent[p];
        var o3 := Rest(t, enter, root, q, IndexOf(t.subdirs[q], p) + 1, o2.data);
        assert [c] + (o.trace + o2.trace) + o3.trace == [c] + (o.trace + (o2.trace + o3.trace));
      }
    }
  }

  lemma AheadDescends(t: Tree, root: Id, p: Id, i: nat)
    requires Good(t) && Within(t, root, p) && i < |t.subdirs[p]| && t.subdirs[p][i] != root
    ensures var c := t.subdirs[p][i]; Within(t, root, c) && Ahead(t, root, c, 0) < Ahead(t, root, p, i)
  {
    assert IndexOf(t.subdirs[p], t.subdirs[p][i]) == i;
  }

  lemma {:induction false} WithinDepth(t: Tree, root: Id, p: Id)
    requires Good(t) && Within(t, root, p)
    ensures t.depth(root) <= t.depth(p)
    decreases t.depth(p)
  {
    if p != root { WithinDepth(t, root, t.parent[p]); }
  }

  // The four things that happen at a child, and the ascent, each as a step towards the same end.

  lemma PassCursor<D>(t: Tree, enter: (D, Id) -> (D, Ret), root: Id, p: Id, i: nat, data: D)
    requires Good(t) && Within(t, root, p) && i < |t.subdirs[p]| && t.subdirs[p][i] in t.cursors
    ensures Rest(t, enter, root, p, i, data) == Rest(t, enter, root, p, i + 1, data)
    ensures Ahead(t, root, p, i + 1) < Ahead(t, root, p, i)
  {
    RestSkips(t, enter, root, p, i, data, data, []);
  }

  lemma PassLeaf<D>(t: Tree, enter: (D, Id) -> (D, Ret), root: Id, p: Id, i: nat, data: D, done: seq<Id>)
    requires Good(t) && Within(t, root, p) && i < |t.subdirs[p]| && t.subdirs[p][i] !in t.cursors
    requires var (_, ret) := enter(data, t.subdirs[p][i]);
             ret.Skip? || (!ret.Quit? && t.subdirs[t.subdirs[p][i]] == [])
    ensures var c := t.subdirs[p][i];
            After(done, Rest(t, enter, root, p, i, data)) ==
            After(done + [c], Rest(t, enter, root, p, i + 1, enter(data, c).0))
    ensures Ahead(t, root, p, i + 1) < Ahead(t, root, p, i)
  {
    var c := t.subdirs[p][i];
    assert Visit(t, enter, c, data) == Out(enter(data, c).0, [c], false);
    RestSkips(t, enter, root, p, i, data, enter(data, c).0, [c]);
    var o := Rest(t, enter, root, p, i + 1, enter(data, c).0);
    assert done + ([c] + o.trace) == done + [c] + o.trace;
  }

  lemma Descend<D>(t: Tree, enter: (D, Id) -> (D, Ret), root: Id, p: Id, i: nat, data: D, done: seq<Id>)
    requires Good(t) && Within(t, root, p) && i < |t.subdirs[p]| && t.subdirs[p][i] !in t.cursors
    requires var ret := enter(data, t.subdirs[p][i]).1; ret.Continue? || ret.NoRetry?
    ensures var c := t.subdirs[p][i];
            && Within(t, root, c)
            && After(done, Rest(t, enter, root, p, i, data)) ==
               After(done + [c], Rest(t, enter, root, c, 0, enter(data, c).0))
            && Ahead(t, root, c, 0) < Ahead(t, root, p, i)
  {
    var c := t.subdirs[p][i];
    WithinDepth(t, root, p);
    AheadDescends(t, root, p, i);
    RestDescends(t, enter, root, p, i, data);
    var o := Rest(t, enter, root, c, 0, enter(data, c).0);
    assert done + ([c] + o.trace) == done + [c] + o.trace;
  }

  lemma QuitHere<D>(t: Tree, enter: (D, Id) -> (D, Ret), root: Id, p: Id, i: nat, data: D)
    requires Good(t) && Within(t, root, p) && i < |t.subdirs[p]| && t.subdirs[p][i] !in t.cursors
    requires enter(data, t.subdirs[p][i]).1.Quit?
    ensures var c := t.subdirs[p][i]; Rest(t, enter, root, p, i, data) == Out(enter(data, c).0, [c], true)
  {
    var c := t.subdirs[p][i];
    assert Visit(t, enter, c, data) == Out(enter(data, c).0, [c], true);
  }

  lemma Ascend<D>(t: Tree, enter: (D, Id) -> (D, Ret), root: Id, p: Id, data: D)
    requires Good(t) && Within(t, root, p) && p != root
    ensures var q := t.parent[p];
            var i := IndexOf(t.subdirs[q], p) + 1;
            && Rest(t, enter, root, p, |t.subdirs[p]|, data) == Rest(t, enter, root, q, i, data)
            && Ahead(t, root, q, i) == Ahead(t, root, p, |t.subdirs[p]|)
  {
  }

  /** The walk of the code.  One pass of this loop is one pass of its inner `while`, or one ascent. */
  method DWalk<D>(t: Tree, root: Id, data0: D, enter: (D, Id) -> (D, Ret)) returns (data: D, trace: seq<Id>)
    requires Good(t) && root in t.subdirs
    ensures var o := Visit(t, enter, root, data0); data == o.data && trace == o.trace
  {
    var thisParent := root;
    var (d, ret) := enter(data0, root);
    data, trace := d, [root];
    if ret.Quit? || ret.Skip? {
      return;
    }
    var next: nat := 0;
    ghost var goal := Visit(t, enter, root, data0);
    while true
      invariant Within(t, root, thisParent) && next <= |t.subdirs[thisParent]|
      invariant goal == After(trace, Rest(t, enter, root, thisParent, next, data))
      decreases Ahead(t, root, thisParent, next), t.depth(thisParent)
    {
      if next < |t.subdirs[thisParent]| {
        var dentry := t.subdirs[thisParent][next];
        if dentry in t.cursors {
          PassCursor(t, enter, root, thisParent, next, data);
          next := next + 1;
          continue;
        }
        var (d, ret) := enter(data, dentry);
        if ret.Quit? {
          QuitHere(t, enter, root, thisParent, next, data);
          data, trace := d, trace + [dentry];
          return;
        }
        if ret.Skip? || t.subdirs[dentry] == [] {
          PassLeaf(t, enter, root, thisParent, next, data, trace);
          next := next + 1;
        } else {
          Descend(t, enter, root, thisParent, next, data, trace);
          thisParent, next := dentry, 0;
        }
        data, trace := d, trace + [dentry];
      } else {
        if thisParent == root {
          return;
        }
        Ascend(t, enter, root, thisParent, data);
        next := IndexOf(t.subdirs[t.parent[thisParent]], thisParent) + 1;
        thisParent := t.parent[thisParent];
      }
    }
  }

  // ---- what the preorder is ---------------------------------------------------------------------------------

  /** `x` is `a` or somewhere below it. */
  ghost predicate Below(t: Tree, x: Id, a: Id)
    requires Good(t)
    decreases if x in t.parent then t.depth(x) else 0
  {
    x == a ||
    (x in t.parent && var q := t.parent[x];
     q in t.subdirs && x in t.subdirs[q] && t.depth(q) < t.depth(x) && Below(t, q, a))
  }

  predicate NoDup(l: seq<Id>) { forall i, j :: 0 <= i < j < |l| ==> l[i] != l[j] }

  lemma {:induction false} BelowDepth(t: Tree, x: Id, a: Id)
    requires Good(t) && Below(t, x, a)
    ensures t.depth(a) <= t.depth(x) && (x != a ==> t.depth(a) < t.depth(x))
    decreases if x in t.parent then t.depth(x) else 0
  {
    if x != a { BelowDepth(t, t.parent[x], a); }
  }

  /** Nothing is below two siblings. */
  lemma {:induction false} SiblingsApart(t: Tree, x: Id, p: Id, a: Id, b: Id)
    requires Good(t) && p in t.subdirs && a in t.subdirs[p] && b in t.subdirs[p]
    requires Below(t, x, a) && Below(t, x, b)
    ensures a == b
    decreases if x in t.parent then t.depth(x) else 0
  {
    if x == a && x != b {
      BelowDepth(t, p, b);
    } else if x == b && x != a {
      BelowDepth(t, p, a);
    } else if x != a {
      SiblingsApart(t, t.parent[x], p, a, b);
    }
  }

  lemma NoDupAppend(a: seq<Id>, b: seq<Id>)
    requires NoDup(a) && NoDup(b) && forall x :: x in a ==> x !in b
    ensures NoDup(a + b)
  {
    forall i, j | 0 <= i < j < |a + b| ensures (a + b)[i] != (a + b)[j] {
      if i < |a| <= j { assert (a + b)[i] in a && (a + b)[j] in b; }
    }
  }

  lemma {:induction false} BelowChild(t: Tree, x: Id, p: Id, i: nat)
    requires Good(t) && p in t.subdirs && i < |t.subdirs[p]| && Below(t, x, t.subdirs[p][i])
    ensures Below(t, x, p) && x != p
    decreases if x in t.parent then t.depth(x) else 0
  {
    BelowDepth(t, x, t.subdirs[p][i]);
    if x == t.subdirs[p][i] {
      assert Below(t, p, p);
    } else {
      BelowChild(t, t.parent[x], p, i);
    }
  }

  /** Whatever the callback answers, no dentry is entered twice, and only dentries below the start are. */
  lemma {:induction false} EnteredOnce<D>(t: Tree, enter: (D, Id) -> (D, Ret), x: Id, data: D)
    requires Good(t) && x in t.subdirs
    ensures var o := Visit(t, enter, x, data); NoDup(o.trace) && forall y :: y in o.trace ==> Below(t, y, x)
    decreases t.height(x), 1, 0
  {
    var (d, ret) := enter(data, x);
    if ret.Continue? || ret.NoRetry? {
      ChildrenEnteredOnce(t, enter, x, 0, d);
      var o := VisitFrom(t, enter, x, 0, d);
      forall y | y in o.trace ensures Below(t, y, x) && y != x {
        var j :| 0 <= j < |t.subdirs[x]| && Below(t, y, t.subdirs[x][j]);
        BelowChild(t, y, x, j);
      }
      NoDupAppend([x], o.trace);
    }
  }

  lemma {:induction false} ChildrenEnteredOnce<D>(t: Tree, enter: (D, Id) -> (D, Ret), p: Id, i: nat, data: D)
    requires Good(t) && p in t.subdirs && i <= |t.subdirs[p]|
    ensures var o := VisitFrom(t, enter, p, i, data);
            && NoDup(o.trace)
            && forall y :: y in o.trace ==> exists j :: i <= j < |t.subdirs[p]| && Below(t, y, t.subdirs[p][j])
    decreases t.height(p), 0, |t.subdirs[p]| - i
  {
    if i < |t.subdirs[p]| {
      var c := t.subdirs[p][i];
      if c in t.cursors {
        ChildrenEnteredOnce(t, enter, p, i + 1, data);
      } else {
        EnteredOnce(t, enter, c, data);
        var o := Visit(t, enter, c, data);
        if !o.stop {
          ChildrenEnteredOnce(t, enter, p, i + 1, o.data);
          var o2 := VisitFrom(t, enter, p, i + 1, o.data);
          forall y | y in o.trace ensures y !in o2.trace {
            if y in o2.trace {
              var j :| i + 1 <= j < |t.subdirs[p]| && Below(t, y, t.subdirs[p][j]);
              SiblingsApart(t, y, p, c, t.subdirs[p][j]);
            }
          }
          NoDupAppend(o.trace, o2.trace);
        }
      }
    }
  }

  /** `y` is `x`, or below it with no cursor on the way. */
  ghost predicate Visible(t: Tree, y: Id, x: Id)
    requires Good(t)
    decreases if y in t.parent then t.depth(y) else 0
  {
    y == x ||
    (y in t.parent && y !in t.cursors && var q := t.parent[y];
     q in t.subdirs && y in t.subdirs[q] && t.depth(q) < t.depth(y) && Visible(t, q, x))
  }

  /** A callback that never skips or quits is called on everything. */
  ghost predicate Thorough<D(!new)>(enter: (D, Id) -> (D, Ret)) {
    forall d, x :: enter(d, x).1.Continue? || enter(d, x).1.NoRetry?
  }

  lemma {:induction false} VisibleSplits(t: Tree, y: Id, x: Id)
    requires Good(t) && x in t.subdirs
    ensures Visible(t, y, x) <==>
            y == x ||
            exists j :: 0 <= j < |t.subdirs[x]| && t.subdirs[x][j] !in t.cursors && Visible(t, y, t.subdirs[x][j])
    decreases if y in t.parent then t.depth(y) else 0
  {
    if y != x && y in t.parent && y !in t.cursors {
      var q := t.parent[y];
      if q in t.subdirs && y in t.subdirs[q] && t.depth(q) < t.depth(y) {
        VisibleSplits(t, q, x);
        if q == x {
          var j :| 0 <= j < |t.subdirs[x]| && t.subdirs[x][j] == y;
          assert Visible(t, y, t.subdirs[x][j]);
        } else if Visible(t, q, x) {
          var j :| 0 <= j < |t.subdirs[x]| && t.subdirs[x][j] !in t.cursors && Visible(t, q, t.subdirs[x][j]);
          assert Visible(t, y, t.subdirs[x][j]);
        }
      }
    }
  }

  lemma {:induction false} ThoroughEntersAll<D(!new)>(t: Tree, enter: (D, Id) -> (D, Ret), x: Id, data: D)
    requires Good(t) && x in t.subdirs && Thorough(enter)
    ensures var o := Visit(t, enter, x, data);
            !o.stop && forall y :: y in o.trace <==> Visible(t, y, x)
    decreases t.height(x), 1, 0
  {
    var (d, ret) := enter(data, x);
    assert ret.Continue? || ret.NoRetry?;
    ThoroughEntersChildren(t, enter, x, 0, d);
    var o := VisitFrom(t, enter, x, 0, d);
    forall y ensures y in [x] + o.trace <==> Visible(t, y, x) {
      VisibleSplits(t, y, x);
    }
  }

  lemma {:induction false} ThoroughEntersChildren<D(!new)>(t: Tree, enter: (D, Id) -> (D, Ret), p: Id, i: nat, data: D)
    requires Good(t) && p in t.subdirs && i <= |t.subdirs[p]| && Thorough(enter)
    ensures var o := VisitFrom(t, enter, p, i, data);
            && !o.stop
            && forall y :: y in o.trace <==>
                 exists j :: i <= j < |t.subdirs[p]| && t.subdirs[p][j] !in t.cursors && Visible(t, y, t.subdirs[p][j])
    decreases t.height(p), 0, |t.subdirs[p]| - i
  {
    if i < |t.subdirs[p]| {
      var c := t.subdirs[p][i];
      if c in t.cursors {
        ThoroughEntersChildren(t, enter, p, i + 1, data);
      } else {
        ThoroughEntersAll(t, enter, c, data);
        ThoroughEntersChildren(t, enter, p, i + 1, Visit(t, enter, c, data).data);
      }
    }
  }

  // ---- what the callback decides -----------------------------------------------------------------------------

  /** The callback's data after the dentries of a trace. */
  ghost function Fold<D>(enter: (D, Id) -> (D, Ret), trace: seq<Id>, data: D): D {
    if trace == [] then data
    else enter(Fold(enter, trace[..|trace| - 1], data), trace[|trace| - 1]).0
  }

  /** What it answers for each of them. */
  ghost function Answers<D>(enter: (D, Id) -> (D, Ret), trace: seq<Id>, data: D): (r: seq<Ret>)
    ensures |r| == |trace|
  {
    if trace == [] then []
    else
      var before, last := trace[..|trace| - 1], trace[|trace| - 1];
      Answers(enter, before, data) + [enter(Fold(enter, before, data), last).1]
  }

  /** A walk goes on exactly until the callback quits, and nothing is entered below a dentry that it skips. */
  ghost predicate Heeded(t: Tree, trace: seq<Id>, answers: seq<Ret>, stop: bool)
    requires Good(t) && |answers| == |trace|
  {
    && (forall i :: 0 <= i < |trace| ==> (answers[i].Quit? <==> stop && i == |trace| - 1))
    && (stop ==> trace != [])
    && (forall i, j :: 0 <= i < j < |trace| && answers[i].Skip? ==> !Below(t, trace[j], trace[i]))
  }

  ghost predicate Obeys<D>(t: Tree, enter: (D, Id) -> (D, Ret), o: Out<D>, data: D)
    requires Good(t)
  {
    o.data == Fold(enter, o.trace, data) && Heeded(t, o.trace, Answers(enter, o.trace, data), o.stop)
  }

  lemma {:induction false} FoldJoin<D>(enter: (D, Id) -> (D, Ret), a: seq<Id>, b: seq<Id>, data: D)
    ensures Fold(enter, a + b, data) == Fold(enter, b, Fold(enter, a, data))
    ensures Answers(enter, a + b, data) == Answers(enter, a, data) + Answers(enter, b, Fold(enter, a, data))
  {
    if b == [] {
      assert a + b == a;
    } else {
      assert (a + b)[..|a + b| - 1] == a + b[..|b| - 1];
      FoldJoin(enter, a, b[..|b| - 1], data);
    }
  }

  lemma HeededJoin(t: Tree, a: seq<Id>, x: seq<Ret>, b: seq<Id>, y: seq<Ret>, stop: bool)
    requires Good(t) && |x| == |a| && |y| == |b| && Heeded(t, a, x, false) && Heeded(t, b, y, stop)
    requires forall i, z :: 0 <= i < |a| && x[i].Skip? && z in b ==> !Below(t, z, a[i])
    ensures Heeded(t, a + b, x + y, stop)
  {
    forall i, j | 0 <= i < j < |a + b| && (x + y)[i].Skip?
      ensures !Below(t, (a + b)[j], (a + b)[i])
    {
      if i < |a| <= j {
        assert b[j - |a|] in b;
      }
    }
  }

  lemma ObeysJoin<D>(t: Tree, enter: (D, Id) -> (D, Ret), o: Out<D>, o2: Out<D>, data: D)
    requires Good(t) && Obeys(t, enter, o, data) && !o.stop && Obeys(t, enter, o2, o.data)
    requires forall i, z :: 0 <= i < |o.trace| && Answers(enter, o.trace, data)[i].Skip? && z in o2.trace ==>
               !Below(t, z, o.trace[i])
    ensures Obeys(t, enter, Out(o2.data, o.trace + o2.trace, o2.stop), data)
  {
    FoldJoin(enter, o.trace, o2.trace, data);
    HeededJoin(t, o.trace, Answers(enter, o.trace, data), o2.trace, Answers(enter, o2.trace, o.data), o2.stop);
  }

  lemma {:induction false} BelowTrans(t: Tree, x: Id, y: Id, z: Id)
    requires Good(t) && Below(t, x, y) && Below(t, y, z)
    ensures Below(t, x, z)
    decreases if x in t.parent then t.depth(x) else 0
  {
    if x != y {
      BelowTrans(t, t.parent[x], y, z);
    }
  }

  /** The walk obeys its callback. */
  lemma {:induction false} WalkObeys<D>(t: Tree, enter: (D, Id) -> (D, Ret), x: Id, data: D)
    requires Good(t) && x in t.subdirs
    ensures Obeys(t, enter, Visit(t, enter, x, data), data)
    decreases t.height(x), 1, 0
  {
    var (d, ret) := enter(data, x);
    var first := Out(d, [x], ret.Quit?);
    assert [x][..0] == [] && Fold(enter, [x][..0], data) == data;
    assert Fold(enter, [x], data) == d && Answers(enter, [x], data) == [ret];
    if ret.Continue? || ret.NoRetry? {
      ChildrenObey(t, enter, x, 0, d);
      ObeysJoin(t, enter, first, VisitFrom(t, enter, x, 0, d), data);
    }
  }

  lemma {:induction false} ChildrenObey<D>(t: Tree, enter: (D, Id) -> (D, Ret), p: Id, i: nat, data: D)
    requires Good(t) && p in t.subdirs && i <= |t.subdirs[p]|
    ensures Obeys(t, enter, VisitFrom(t, enter, p, i, data), data)
    decreases t.height(p), 0, |t.subdirs[p]| - i
  {
    if i < |t.subdirs[p]| {
      var c := t.subdirs[p][i];
      if c in t.cursors {
        ChildrenObey(t, enter, p, i + 1, data);
      } else {
        WalkObeys(t, enter, c, data);
        var o := Visit(t, enter, c, data);
        if !o.stop {
          ChildrenObey(t, enter, p, i + 1, o.data);
          var o2 := VisitFrom(t, enter, p, i + 1, o.data);
          forall x, y | x in o.trace && y in o2.trace ensures !Below(t, y, x) {
            SiblingsUnrelated(t, enter, p, i, data, x, y);
          }
          ObeysJoin(t, enter, o, o2, data);
        }
      }
    }
  }

  lemma SiblingsUnrelated<D>(t: Tree, enter: (D, Id) -> (D, Ret), p: Id, i: nat, data: D, x: Id, y: Id)
    requires Good(t) && p in t.subdirs && i < |t.subdirs[p]|
    requires var o := Visit(t, enter, t.subdirs[p][i], data);
             x in o.trace && y in VisitFrom(t, enter, p, i + 1, o.data).trace
    ensures !Below(t, y, x)
  {
    var c := t.subdirs[p][i];
    var o := Visit(t, enter, c, data);
    EnteredOnce(t, enter, c, data);
    ChildrenEnteredOnce(t, enter, p, i + 1, o.data);
    var j :| i + 1 <= j < |t.subdirs[p]| && Below(t, y, t.subdirs[p][j]);
    if Below(t, y, x) {
      BelowTrans(t, y, x, c);
      SiblingsApart(t, y, p, c, t.subdirs[p][j]);
    }
  }
}
