/**
 * The parent-to-children forest that the node list and the group list build from flat rows:
 * the rows are bucketed by parent id, the roots are the bucket of parent 0, and every entry's
 * children are, recursively, the bucket of its own id.
 */
module Forest {
  import opened Wrappers
  import opened Bytes

  /** A row with an id, a parent id, its other columns and the children attached to it. */
  datatype Entry<T> = Entry(id: int64, parentId: int64, fields: T, children: seq<Entry<T>>)

  /** The rows whose parent is p, in row order. */
  function ChildrenOf<T>(items: seq<Entry<T>>, p: int64): seq<Entry<T>> {
    if items == [] then []
    else (if items[0].parentId == p then [items[0]] else []) + ChildrenOf(items[1..], p)
  }

  /** The children of p are the rows whose parent is p, and no others. */
  lemma {:induction false} ChildrenOfMembers<T>(items: seq<Entry<T>>, p: int64)
    ensures forall k :: 0 <= k < |ChildrenOf(items, p)| ==> ChildrenOf(items, p)[k] in items && ChildrenOf(items, p)[k].parentId == p
    ensures forall k :: 0 <= k < |items| && items[k].parentId == p ==> items[k] in ChildrenOf(items, p)
  {
    if items != [] {
      ChildrenOfMembers(items[1..], p);
    }
  }

  /** The parent ids that occur among the rows. */
  function ParentIds<T>(items: seq<Entry<T>>): set<int64> {
    set i | 0 <= i < |items| :: items[i].parentId
  }

  /** The tree map of the rows: for each parent id that occurs, its children in row order. */
  function TreeMapOf<T>(items: seq<Entry<T>>): map<int64, seq<Entry<T>>> {
    map p | p in ParentIds(items) :: ChildrenOf(items, p)
  }

  /** Indexing a Go map: a missing key reads as the nil (empty) slice. */
  function Lookup<T>(tm: map<int64, seq<Entry<T>>>, p: int64): seq<Entry<T>> {
    if p in tm then tm[p] else []
  }

  /** Bucketing keeps row order: the children of a concatenation are those of each part. */
  lemma {:induction false} ChildrenOfAppend<T>(a: seq<Entry<T>>, b: seq<Entry<T>>, p: int64)
    ensures ChildrenOf(a + b, p) == ChildrenOf(a, p) + ChildrenOf(b, p)
    decreases |a|
  {
    if a != [] {
      assert (a + b)[0] == a[0] && (a + b)[1..] == a[1..] + b;
      ChildrenOfAppend(a[1..], b, p);
      var h := if a[0].parentId == p then [a[0]] else [];
      assert ChildrenOf(a + b, p) == h + ChildrenOf(a[1..] + b, p);
      assert h + (ChildrenOf(a[1..], p) + ChildrenOf(b, p)) == (h + ChildrenOf(a[1..], p)) + ChildrenOf(b, p);
    } else {
      assert a + b == b;
    }
  }

  /** Looking a parent up in the tree map gives its children, empty when no row has it as parent. */
  lemma LookupTreeMap<T>(items: seq<Entry<T>>, p: int64)
    ensures Lookup(TreeMapOf(items), p) == ChildrenOf(items, p)
  {
    ChildrenOfMembers(items, p);
    if ChildrenOf(items, p) != [] {
      assert ChildrenOf(items, p)[0] in items;
    }
  }

  /** There is one tree map of a list of rows. */
  lemma TreeMapUnique<T>(tm: map<int64, seq<Entry<T>>>, items: seq<Entry<T>>)
    requires IsTreeMap(tm, items)
    ensures tm == TreeMapOf(items)
  {
  }

  /** tm maps exactly the parent ids of the rows, each to its children in row order. */
  ghost predicate IsTreeMap<T>(tm: map<int64, seq<Entry<T>>>, items: seq<Entry<T>>) {
    tm.Keys == ParentIds(items) && forall q :: q in tm ==> tm[q] == ChildrenOf(items, q)
  }

  /** The tree-map loop: every row appended to the bucket of its parent id. */
  method BuildTreeMap<T>(items: seq<Entry<T>>) returns (treeMap: map<int64, seq<Entry<T>>>)
    ensures treeMap == TreeMapOf(items)
  {
    treeMap := map[];
    var i := 0;
    while i < |items|
      invariant 0 <= i <= |items| && IsTreeMap(treeMap, items[..i])
    {
      var v := items[i];
      TreeMapStep(treeMap, items, i);
      treeMap := treeMap[v.parentId := Lookup(treeMap, v.parentId) + [v]];
      i := i + 1;
    }
    assert items[..i] == items;
    TreeMapUnique(treeMap, items);
  }

  /** Appending row i to its bucket turns the tree map of the first i rows into that of i + 1. */
  lemma TreeMapStep<T>(tm: map<int64, seq<Entry<T>>>, items: seq<Entry<T>>, i: nat)
    requires i < |items| && IsTreeMap(tm, items[..i])
    ensures IsTreeMap(tm[items[i].parentId := Lookup(tm, items[i].parentId) + [items[i]]], items[..i + 1])
  {
    var v := items[i];
    var tm' := tm[v.parentId := Lookup(tm, v.parentId) + [v]];
    assert items[..i + 1] == items[..i] + [v];
    ParentIdsStep(items, i);
    forall q | q in tm' ensures tm'[q] == ChildrenOf(items[..i + 1], q) {
      ChildrenOfAppend(items[..i], [v], q);
      if q !in tm {
        LookupTreeMap(items[..i], q);
      }
    }
  }

  lemma ParentIdsStep<T>(items: seq<Entry<T>>, i: nat)
    requires i < |items|
    ensures ParentIds(items[..i + 1]) == ParentIds(items[..i]) + {items[i].parentId}
  {
    var a, b := items[..i + 1], items[..i];
    assert a[i] == items[i];
    forall q | q in ParentIds(a) ensures q in ParentIds(b) + {items[i].parentId} {
      var k :| 0 <= k < i + 1 && a[k].parentId == q;
      if k < i {
        assert b[k] == a[k];
      }
    }
    forall q | q in ParentIds(b) ensures q in ParentIds(a) {
      var k :| 0 <= k < i && b[k].parentId == q;
      assert a[k] == b[k];
    }
  }

  /** getChildrenList halts: the entries below p can be expanded within d levels. */
  predicate Bounded<T>(tm: map<int64, seq<Entry<T>>>, p: int64, d: nat)
    decreases d
  {
    var cs := Lookup(tm, p);
    cs == [] || (d > 0 && forall i :: 0 <= i < |cs| ==> Bounded(tm, cs[i].id, d - 1))
  }

  /** The children attached below p, expanded to depth d. */
  function Expand<T>(tm: map<int64, seq<Entry<T>>>, p: int64, d: nat): seq<Entry<T>>
    decreases d, 1
  {
    if d == 0 then [] else ExpandAll(tm, Lookup(tm, p), d - 1)
  }

  /** Each entry of cs with its children attached to depth d. */
  function ExpandAll<T>(tm: map<int64, seq<Entry<T>>>, cs: seq<Entry<T>>, d: nat): (r: seq<Entry<T>>)
    ensures |r| == |cs|
    decreases d, 2
  {
    seq(|cs|, i requires 0 <= i < |cs| => cs[i].(children := Expand(tm, cs[i].id, d)))
  }

  /** Once the expansion halts within d levels, deeper expansion gives the same forest. */
  lemma {:induction false} ExpandStable<T>(tm: map<int64, seq<Entry<T>>>, p: int64, d: nat, d': nat)
    requires Bounded(tm, p, d) && d <= d'
    ensures Expand(tm, p, d') == Expand(tm, p, d)
    decreases d
  {
    var cs := Lookup(tm, p);
    if cs != [] {
      forall i | 0 <= i < |cs| ensures Expand(tm, cs[i].id, d' - 1) == Expand(tm, cs[i].id, d - 1) {
        ExpandStable(tm, cs[i].id, d - 1, d' - 1);
      }
    }
  }

  /** getChildrenList: attach the bucket of the entry's id as its children, then recurse into each. */
  method AttachChildren<T>(node: Entry<T>, treeMap: map<int64, seq<Entry<T>>>, ghost d: nat) returns (r: Entry<T>)
    requires Bounded(treeMap, node.id, d)
    ensures r == node.(children := Expand(treeMap, node.id, d))
    decreases d
  {
    var children := Lookup(treeMap, node.id);
    ghost var cs := children;
    var i := 0;
    while i < |children|
      invariant 0 <= i <= |children| == |cs|
      invariant forall k :: 0 <= k < i ==> children[k] == cs[k].(children := Expand(treeMap, cs[k].id, d - 1))
      invariant forall k :: i <= k < |cs| ==> children[k] == cs[k]
    {
      var child := AttachChildren(children[i], treeMap, d - 1);
      children := children[i := child];
      i := i + 1;
    }
    if d == 0 {
      assert children == [];
    } else {
      assert children == ExpandAll(treeMap, cs, d - 1);
    }
    r := node.(children := children);
  }

  /** The forest loop of GetNodeList and GetGroupsList: the roots, each with its children attached. */
  method AttachRoots<T>(treeMap: map<int64, seq<Entry<T>>>, ghost d: nat) returns (roots: seq<Entry<T>>)
    requires Bounded(treeMap, 0, d)
    ensures roots == Expand(treeMap, 0, d)
  {
    roots := Lookup(treeMap, 0);
    ghost var cs := roots;
    var i := 0;
    while i < |roots|
      invariant 0 <= i <= |roots| == |cs|
      invariant forall k :: 0 <= k < i ==> roots[k] == cs[k].(children := Expand(treeMap, cs[k].id, d - 1))
      invariant forall k :: i <= k < |cs| ==> roots[k] == cs[k]
    {
      var root := AttachChildren(roots[i], treeMap, d - 1);
      roots := roots[i := root];
      i := i + 1;
    }
    if d == 0 {
      assert roots == [];
    } else {
      assert roots == ExpandAll(treeMap, cs, d - 1);
    }
  }

  // ---------------------------------------------------------------------------------------------
  // Flattening a forest.

  /** An entry without its children. */
  function Bare<T>(t: Entry<T>): Entry<T> {
    t.(children := [])
  }

  /** The entries of a tree in pre-order, children detached. */
  function Pre1<T>(t: Entry<T>): seq<Entry<T>>
    decreases t
  {
    [Bare(t)] + Pre(t.children)
  }

  /** The entries of a forest in pre-order, children detached. */
  function Pre<T>(ts: seq<Entry<T>>): seq<Entry<T>>
    decreases ts
  {
    if ts == [] then [] else Pre1(ts[0]) + Pre(ts[1..])
  }

  lemma ExpandAllCons<T>(tm: map<int64, seq<Entry<T>>>, cs: seq<Entry<T>>, d: nat)
    requires cs != []
    ensures ExpandAll(tm, cs, d) == [cs[0].(children := Expand(tm, cs[0].id, d))] + ExpandAll(tm, cs[1..], d)
  {
  }

  /** The rows with their children detached. */
  function Bares<T>(items: seq<Entry<T>>): (r: seq<Entry<T>>)
    ensures |r| == |items| && forall k :: 0 <= k < |items| ==> r[k] == Bare(items[k])
  {
    seq(|items|, k requires 0 <= k < |items| => Bare(items[k]))
  }

  /** Every entry of s is one of the rows, children detached. */
  ghost predicate FromRows<T>(s: seq<Entry<T>>, items: seq<Entry<T>>) {
    forall z :: z in s ==> z in Bares(items)
  }

  /** Every entry of an expanded forest is a row, children detached. */
  lemma {:induction false} ExpandFromRows<T>(items: seq<Entry<T>>, p: int64, d: nat)
    ensures FromRows(Pre(Expand(TreeMapOf(items), p, d)), items)
    decreases d
  {
    if d > 0 {
      var cs := ChildrenOf(items, p);
      forall k | 0 <= k < |cs| ensures FromRows(Pre(Expand(TreeMapOf(items), cs[k].id, d - 1)), items) {
        ExpandFromRows(items, cs[k].id, d - 1);
      }
      ExpandStepFromRows(items, p, cs, d - 1);
    }
  }

  lemma ExpandStepFromRows<T>(items: seq<Entry<T>>, p: int64, cs: seq<Entry<T>>, e: nat)
    requires cs == ChildrenOf(items, p)
    requires forall k :: 0 <= k < |cs| ==> FromRows(Pre(Expand(TreeMapOf(items), cs[k].id, e)), items)
    ensures FromRows(Pre(Expand(TreeMapOf(items), p, e + 1)), items)
  {
    ChildrenOfMembers(items, p);
    ExpandAllFromRows(items, cs, e);
    ExpandUnfold(items, p, e + 1);
  }

  lemma ExpandUnfold<T>(items: seq<Entry<T>>, p: int64, d: nat)
    requires d > 0
    ensures Expand(TreeMapOf(items), p, d) == ExpandAll(TreeMapOf(items), ChildrenOf(items, p), d - 1)
  {
    LookupTreeMap(items, p);
  }

  lemma {:induction false} ExpandAllFromRows<T>(items: seq<Entry<T>>, cs: seq<Entry<T>>, e: nat)
    requires forall k :: 0 <= k < |cs| ==> cs[k] in items
    requires forall k :: 0 <= k < |cs| ==> FromRows(Pre(Expand(TreeMapOf(items), cs[k].id, e)), items)
    ensures FromRows(Pre(ExpandAll(TreeMapOf(items), cs, e)), items)
    decreases |cs|
  {
    if cs != [] {
      var tm := TreeMapOf(items);
      var h := cs[0].(children := Expand(tm, cs[0].id, e));
      ExpandAllCons(tm, cs, e);
      var ts := ExpandAll(tm, cs, e);
      assert ts[0] == h && ts[1..] == ExpandAll(tm, cs[1..], e);
      ExpandAllFromRows(items, cs[1..], e);
      var j :| 0 <= j < |items| && items[j] == cs[0];
      assert Bare(h) == Bares(items)[j];
      assert Pre(ts) == [Bare(h)] + Pre(h.children) + Pre(ts[1..]);
    }
  }

  // ---------------------------------------------------------------------------------------------
  // Every entry whose ancestor chain reaches the root appears exactly once.

  /** How many entries of s have id y. */
  function IdCount<T>(s: seq<Entry<T>>, y: int64): nat {
    if s == [] then 0 else (if s[0].id == y then 1 else 0) + IdCount(s[1..], y)
  }

  lemma {:induction false} IdCountAppend<T>(a: seq<Entry<T>>, b: seq<Entry<T>>, y: int64)
    ensures IdCount(a + b, y) == IdCount(a, y) + IdCount(b, y)
    decreases |a|
  {
    if a != [] {
      assert (a + b)[0] == a[0] && (a + b)[1..] == a[1..] + b;
      IdCountAppend(a[1..], b, y);
    } else {
      assert a + b == b;
    }
  }

  /** No two rows share an id. */
  ghost predicate DistinctIds<T>(items: seq<Entry<T>>) {
    forall i, j :: 0 <= i < |items| && 0 <= j < |items| && items[i].id == items[j].id ==> i == j
  }

  /** The parent id of the row with id y; None when no row has that id. */
  function ParentOf<T>(items: seq<Entry<T>>, y: int64): Option<int64> {
    if items == [] then None
    else if items[0].id == y then Some(items[0].parentId)
    else ParentOf(items[1..], y)
  }

  /** The id k steps up the ancestor chain of x: x itself, then its parent, its grandparent, ... */
  function Ancestor<T>(items: seq<Entry<T>>, x: int64, k: nat): Option<int64> {
    if k == 0 then Some(x)
    else match Ancestor(items, x, k - 1)
         case None => None
         case Some(y) => ParentOf(items, y)
  }

  /** The ancestor chain of x reaches the id p. */
  ghost predicate Reaches<T>(items: seq<Entry<T>>, x: int64, p: int64) {
    exists k :: k >= 1 && Ancestor(items, x, k) == Some(p)
  }

  /** How many of the first n steps up from x land on p. */
  function Hits<T>(items: seq<Entry<T>>, x: int64, p: int64, n: nat): nat {
    if n == 0 then 0 else Hits(items, x, p, n - 1) + (if Ancestor(items, x, n) == Some(p) then 1 else 0)
  }

  /** How often the id x occurs in the forest below p expanded to depth d. */
  function Occurrences<T>(tm: map<int64, seq<Entry<T>>>, x: int64, p: int64, d: nat): nat {
    IdCount(Pre(Expand(tm, p, d)), x)
  }

  /** With distinct ids, p's children hold y once if y's row has parent p, and never otherwise. */
  lemma {:induction false} DistinctChildren<T>(items: seq<Entry<T>>, p: int64, y: int64)
    requires DistinctIds(items)
    ensures IdCount(ChildrenOf(items, p), y) == (if ParentOf(items, y) == Some(p) then 1 else 0)
    decreases |items|
  {
    if items != [] {
      var rest := items[1..];
      var h := if items[0].parentId == p then [items[0]] else [];
      assert DistinctIds(rest) by {
        forall i, j | 0 <= i < |rest| && 0 <= j < |rest| && rest[i].id == rest[j].id ensures i == j {
          assert items[i + 1] == rest[i] && items[j + 1] == rest[j];
        }
      }
      IdCountAppend(h, ChildrenOf(rest, p), y);
      DistinctChildren(rest, p, y);
      if items[0].id == y {
        forall k | 0 <= k < |rest| ensures rest[k].id != y {
          assert items[k + 1] == rest[k];
        }
        ParentOfMissing(rest, y);
      }
    }
  }

  lemma {:induction false} ParentOfMissing<T>(items: seq<Entry<T>>, y: int64)
    requires forall k :: 0 <= k < |items| ==> items[k].id != y
    ensures ParentOf(items, y) == None
    decreases |items|
  {
    if items != [] {
      assert forall k :: 0 <= k < |items[1..]| ==> items[1..][k] == items[k + 1];
      ParentOfMissing(items[1..], y);
    }
  }

  /** The occurrences of each entry of cs below it, summed over cs. */
  function SumOccurrences<T>(tm: map<int64, seq<Entry<T>>>, cs: seq<Entry<T>>, e: nat, x: int64): nat {
    if cs == [] then 0 else Occurrences(tm, x, cs[0].id, e) + SumOccurrences(tm, cs[1..], e, x)
  }

  /** The hits of each entry of cs from x, summed over cs. */
  function SumHits<T>(items: seq<Entry<T>>, x: int64, cs: seq<Entry<T>>, n: nat): nat {
    if cs == [] then 0 else Hits(items, x, cs[0].id, n) + SumHits(items, x, cs[1..], n)
  }

  /** x occurs in the expansion of cs once per entry of cs with id x, plus its occurrences below them. */
  lemma {:induction false} CountExpandAll<T>(tm: map<int64, seq<Entry<T>>>, cs: seq<Entry<T>>, e: nat, x: int64)
    ensures IdCount(Pre(ExpandAll(tm, cs, e)), x) == IdCount(cs, x) + SumOccurrences(tm, cs, e, x)
    decreases |cs|
  {
    if cs != [] {
      var h := cs[0].(children := Expand(tm, cs[0].id, e));
      ExpandAllCons(tm, cs, e);
      var ts := ExpandAll(tm, cs, e);
      assert ts[0] == h && ts[1..] == ExpandAll(tm, cs[1..], e);
      IdCountAppend(Pre1(h), Pre(ts[1..]), x);
      IdCountAppend([Bare(h)], Pre(h.children), x);
      CountExpandAll(tm, cs[1..], e, x);
    }
  }

  lemma {:induction false} SumOccurrencesHits<T>(items: seq<Entry<T>>, cs: seq<Entry<T>>, e: nat, x: int64)
    requires forall k :: 0 <= k < |cs| ==> Occurrences(TreeMapOf(items), x, cs[k].id, e) == Hits(items, x, cs[k].id, e)
    ensures SumOccurrences(TreeMapOf(items), cs, e, x) == SumHits(items, x, cs, e)
    decreases |cs|
  {
    if cs != [] {
      SumOccurrencesHits(items, cs[1..], e, x);
    }
  }

  /** The hits of the entries of cs within n steps: those within n - 1, plus the entry step n lands on. */
  lemma {:induction false} SumHitsStep<T>(items: seq<Entry<T>>, x: int64, cs: seq<Entry<T>>, n: nat)
    requires n > 0
    ensures SumHits(items, x, cs, n) == SumHits(items, x, cs, n - 1) +
              (match Ancestor(items, x, n) case None => 0 case Some(y) => IdCount(cs, y))
    decreases |cs|
  {
    if cs != [] {
      SumHitsStep(items, x, cs[1..], n);
    }
  }

  lemma {:induction false} SumHitsZero<T>(items: seq<Entry<T>>, x: int64, cs: seq<Entry<T>>)
    ensures SumHits(items, x, cs, 0) == 0
    decreases |cs|
  {
    if cs != [] {
      SumHitsZero(items, x, cs[1..]);
    }
  }

  /** Landing on a child of p within n steps is landing on p within n + 1 steps, after the first. */
  lemma {:induction false} SumHitsChildren<T>(items: seq<Entry<T>>, x: int64, p: int64, n: nat)
    requires DistinctIds(items)
    ensures SumHits(items, x, ChildrenOf(items, p), n) + (if Ancestor(items, x, 1) == Some(p) then 1 else 0)
            == Hits(items, x, p, n + 1)
    decreases n
  {
    var cs := ChildrenOf(items, p);
    if n == 0 {
      SumHitsZero(items, x, cs);
    } else {
      SumHitsChildren(items, x, p, n - 1);
      SumHitsStep(items, x, cs, n);
      match Ancestor(items, x, n)
      case None =>
      case Some(y) =>
        DistinctChildren(items, p, y);
    }
  }

  /** With distinct ids, x occurs below p as often as its ancestor chain passes through p. */
  lemma {:induction false} OccurrencesAreHits<T>(items: seq<Entry<T>>, x: int64, p: int64, d: nat)
    requires DistinctIds(items)
    ensures Occurrences(TreeMapOf(items), x, p, d) == Hits(items, x, p, d)
    decreases d
  {
    if d > 0 {
      var cs := ChildrenOf(items, p);
      forall k | 0 <= k < |cs| ensures Occurrences(TreeMapOf(items), x, cs[k].id, d - 1) == Hits(items, x, cs[k].id, d - 1) {
        OccurrencesAreHits(items, x, cs[k].id, d - 1);
      }
      OccurrencesStep(items, x, p, d);
    }
  }

  /** One level of OccurrencesAreHits: from the children's counts to the count below p. */
  lemma OccurrencesStep<T>(items: seq<Entry<T>>, x: int64, p: int64, d: nat)
    requires DistinctIds(items) && d > 0
    requires var cs := ChildrenOf(items, p);
             forall k :: 0 <= k < |cs| ==> Occurrences(TreeMapOf(items), x, cs[k].id, d - 1) == Hits(items, x, cs[k].id, d - 1)
    ensures Occurrences(TreeMapOf(items), x, p, d) == Hits(items, x, p, d)
  {
    var cs := ChildrenOf(items, p);
    OccurrencesUnfold(items, x, p, d);
    SumOccurrencesHits(items, cs, d - 1, x);
    HitsUnfold(items, x, p, d);
  }

  /** x occurs below p once if p is its parent, plus its occurrences below p's children. */
  lemma OccurrencesUnfold<T>(items: seq<Entry<T>>, x: int64, p: int64, d: nat)
    requires d > 0
    ensures Occurrences(TreeMapOf(items), x, p, d)
            == IdCount(ChildrenOf(items, p), x) + SumOccurrences(TreeMapOf(items), ChildrenOf(items, p), d - 1, x)
  {
    var tm := TreeMapOf(items);
    var cs := ChildrenOf(items, p);
    LookupTreeMap(items, p);
    assert Expand(tm, p, d) == ExpandAll(tm, cs, d - 1);
    CountExpandAll(tm, cs, d - 1, x);
  }

  /** The chain passes through p as often as it starts at a child of p, plus through p's children. */
  lemma HitsUnfold<T>(items: seq<Entry<T>>, x: int64, p: int64, d: nat)
    requires DistinctIds(items) && d > 0
    ensures Hits(items, x, p, d) == IdCount(ChildrenOf(items, p), x) + SumHits(items, x, ChildrenOf(items, p), d - 1)
  {
    SumHitsChildren(items, x, p, d - 1);
    DistinctChildren(items, p, x);
    assert Ancestor(items, x, 1) == ParentOf(items, x);
  }

  lemma {:induction false} HitsMono<T>(items: seq<Entry<T>>, x: int64, p: int64, a: nat, b: nat)
    requires a <= b
    ensures Hits(items, x, p, a) <= Hits(items, x, p, b)
    decreases b
  {
    if a < b {
      HitsMono(items, x, p, a, b - 1);
    }
  }

  /** A landing at step k, k within n, counts on top of the landings before it. */
  lemma HitAt<T>(items: seq<Entry<T>>, x: int64, p: int64, k: nat, n: nat)
    requires 1 <= k <= n && Ancestor(items, x, k) == Some(p)
    ensures Hits(items, x, p, n) >= Hits(items, x, p, k - 1) + 1
  {
    HitsMono(items, x, p, k, n);
  }

  /** Some landing within n steps, the last one. */
  lemma {:induction false} LastHit<T>(items: seq<Entry<T>>, x: int64, p: int64, n: nat) returns (k: nat)
    requires Hits(items, x, p, n) >= 1
    ensures 1 <= k <= n && Ancestor(items, x, k) == Some(p) && Hits(items, x, p, k - 1) == Hits(items, x, p, n) - 1
    decreases n
  {
    if Ancestor(items, x, n) == Some(p) {
      k := n;
    } else {
      k := LastHit(items, x, p, n - 1);
    }
  }

  /** The chain is determined by where it is: equal ids at two steps stay equal after as many more. */
  lemma {:induction false} AncestorShift<T>(items: seq<Entry<T>>, x: int64, i: nat, j: nat, t: nat)
    requires Ancestor(items, x, i) == Ancestor(items, x, j)
    ensures Ancestor(items, x, i + t) == Ancestor(items, x, j + t)
    decreases t
  {
    if t > 0 {
      AncestorShift(items, x, i, j, t - 1);
    }
  }

  /** A chain that lands on p at step i and again q steps later lands on p every q steps. */
  lemma {:induction false} HitsRepeat<T>(items: seq<Entry<T>>, x: int64, p: int64, i: nat, q: nat, m: nat)
    requires Ancestor(items, x, i) == Some(p) && Ancestor(items, x, i + q) == Some(p)
    ensures Ancestor(items, x, i + m * q) == Some(p)
    decreases m
  {
    if m > 0 {
      HitsRepeat(items, x, p, i, q, m - 1);
      AncestorShift(items, x, i, i + q, (m - 1) * q);
      assert i + q + (m - 1) * q == i + m * q;
    }
  }

  /** ... and so lands on p at least m + 1 times within i + m * q steps. */
  lemma {:induction false} HitsGrow<T>(items: seq<Entry<T>>, x: int64, p: int64, i: nat, q: nat, m: nat)
    requires i >= 1 && q >= 1 && Ancestor(items, x, i) == Some(p) && Ancestor(items, x, i + q) == Some(p)
    ensures Hits(items, x, p, i + m * q) >= m + 1
    decreases m
  {
    if m == 0 {
      HitAt(items, x, p, i, i);
    } else {
      HitsGrow(items, x, p, i, q, m - 1);
      var a, b := i + (m - 1) * q, i + m * q;
      assert b == a + q;
      HitsRepeat(items, x, p, i, q, m);
      HitAt(items, x, p, b, b);
      HitsMono(items, x, p, a, b - 1);
    }
  }

  /**
   * The forest below p, when its expansion halts and the ids are distinct, holds every id whose
   * ancestor chain reaches p exactly once, and no other id.
   */
  lemma ExactlyOnce<T>(items: seq<Entry<T>>, x: int64, p: int64, d: nat)
    requires DistinctIds(items) && Bounded(TreeMapOf(items), p, d)
    ensures Occurrences(TreeMapOf(items), x, p, d) == (if Reaches(items, x, p) then 1 else 0)
  {
    var tm := TreeMapOf(items);
    var n := Occurrences(tm, x, p, d);
    OccurrencesAreHits(items, x, p, d);
    if Reaches(items, x, p) {
      var k :| k >= 1 && Ancestor(items, x, k) == Some(p);
      SameHits(items, x, p, d, k + d);
      HitAt(items, x, p, k, k + d);
      AtMostOnce(items, x, p, d);
    } else if n >= 1 {
      var k := LastHit(items, x, p, d);
      assert false;
    }
  }

  /** Past the depth where the expansion halts, the hit count no longer grows. */
  lemma SameHits<T>(items: seq<Entry<T>>, x: int64, p: int64, d: nat, d': nat)
    requires DistinctIds(items) && Bounded(TreeMapOf(items), p, d) && d <= d'
    ensures Hits(items, x, p, d') == Hits(items, x, p, d)
  {
    ExpandStable(TreeMapOf(items), p, d, d');
    OccurrencesAreHits(items, x, p, d);
    OccurrencesAreHits(items, x, p, d');
  }

  /** A halting expansion cannot pass through p twice: the chain would cycle through p forever. */
  lemma AtMostOnce<T>(items: seq<Entry<T>>, x: int64, p: int64, d: nat)
    requires DistinctIds(items) && Bounded(TreeMapOf(items), p, d)
    ensures Hits(items, x, p, d) <= 1
  {
    var n := Hits(items, x, p, d);
    if n >= 2 {
      var j := LastHit(items, x, p, d);
      var i := LastHit(items, x, p, j - 1);
      var q := j - i;
      assert i + q == j;
      var big := d + i + n * q;
      SameHits(items, x, p, d, big);
      HitsGrow(items, x, p, i, q, n);
      HitsMono(items, x, p, i + n * q, big);
      assert false;
    }
  }

  /**
   * The forest below p lists the rows whose parent is p, in row order, each with the forest below
   * its own id attached.
   */
  lemma ExpandChildren<T>(items: seq<Entry<T>>, p: int64, d: nat)
    requires d > 0
    ensures |Expand(TreeMapOf(items), p, d)| == |ChildrenOf(items, p)|
    ensures forall k :: 0 <= k < |ChildrenOf(items, p)| ==>
      Expand(TreeMapOf(items), p, d)[k] == ChildrenOf(items, p)[k].(children := Expand(TreeMapOf(items), ChildrenOf(items, p)[k].id, d - 1))
  {
    LookupTreeMap(items, p);
  }
}
