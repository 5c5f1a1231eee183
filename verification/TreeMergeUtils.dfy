/**
 * Building blocks of tree comparison over event sets: difference,
 * containment, ordering by size, and the list of events acquired along the
 * path from the root of a subclone tree to one of its nodes.
 *
 * An event set is a sequence of event references; two references are the
 * same event exactly when they are equal (identity, not `isEqualTo`).
 */
module TreeMergeUtils {
  import opened MachineInts

  /** An event reference. */
  type EventId = nat

  // ---------------------------------------------------------------------
  // SomaticEventDifference

  /** `SomaticEventDifference(a, b)`: the elements of `a` absent from `b`, in `a`'s order. */
  function Difference<T(==,!new)>(a: seq<T>, b: seq<T>): (r: seq<T>)
    ensures forall x :: x in r <==> x in a && x !in b
    ensures |r| <= |a|
  {
    if a == [] then []
    else if a[0] in b then Difference(a[1..], b)
    else [a[0]] + Difference(a[1..], b)
  }

  /** Removing a superset leaves nothing. */
  lemma {:induction false} DifferenceOfSubset<T(!new)>(a: seq<T>, b: seq<T>)
    requires forall x :: x in a ==> x in b
    ensures Difference(a, b) == []
  {
    if a != [] {
      DifferenceOfSubset(a[1..], b);
    }
  }

  /** Removing a set from itself leaves nothing. */
  lemma DifferenceSelf<T(!new)>(a: seq<T>)
    ensures Difference(a, a) == []
  {
    DifferenceOfSubset(a, a);
  }

  /** Removing nothing keeps every element, in order. */
  lemma {:induction false} DifferenceEmpty<T(!new)>(a: seq<T>)
    ensures Difference(a, []) == a
  {
    if a != [] {
      DifferenceEmpty(a[1..]);
    }
  }

  /**
   * The difference is taken element by element and keeps relative order:
   * it distributes over concatenation.
   */
  lemma {:induction false} DifferenceAppend<T(!new)>(a: seq<T>, a': seq<T>, b: seq<T>)
    ensures Difference(a + a', b) == Difference(a, b) + Difference(a', b)
  {
    if a == [] {
      assert a + a' == a';
    } else {
      assert (a + a')[0] == a[0];
      assert (a + a')[1..] == a[1..] + a';
      DifferenceAppend(a[1..], a', b);
    }
  }

  // ---------------------------------------------------------------------
  // eventSetContains

  /** `eventSetContains(a, b)`: every element of `b` is in `a`. */
  function Contains<T(==,!new)>(a: seq<T>, b: seq<T>): (r: bool)
    ensures r <==> forall x :: x in b ==> x in a
  {
    if b == [] then true
    else b[0] in a && Contains(a, b[1..])
  }

  /** `b` is contained in `a` exactly when nothing is left of `b` once `a` is removed. */
  lemma ContainsIffDifferenceEmpty<T(!new)>(a: seq<T>, b: seq<T>)
    ensures Contains(a, b) <==> Difference(b, a) == []
  {
    if Contains(a, b) {
      DifferenceOfSubset(b, a);
    }
  }

  /** Containment is reflexive and transitive, and the empty set is in every set. */
  lemma ContainsPreorder<T(!new)>(a: seq<T>, b: seq<T>, c: seq<T>)
    ensures Contains(a, a) && Contains(a, [])
    ensures Contains(a, b) && Contains(b, c) ==> Contains(a, c)
  {
  }

  /** A difference is always contained in the set it was taken from. */
  lemma DifferenceContained<T(!new)>(a: seq<T>, b: seq<T>)
    ensures Contains(a, Difference(a, b))
  {
  }

  // ---------------------------------------------------------------------
  // resultSetComparator and sorting by it

  /** `resultSetComparator(a, b)`: `a` has fewer events than `b`. */
  predicate ResultSetComparator<T>(a: seq<T>, b: seq<T>) {
    |a| < |b|
  }

  /**
   * The comparator is a strict weak ordering, as sorting requires:
   * irreflexive, transitive, and "neither is smaller" is transitive too.
   */
  lemma ResultSetComparatorStrictWeakOrder<T>(a: seq<T>, b: seq<T>, c: seq<T>)
    ensures !ResultSetComparator(a, a)
    ensures ResultSetComparator(a, b) ==> !ResultSetComparator(b, a)
    ensures ResultSetComparator(a, b) && ResultSetComparator(b, c) ==> ResultSetComparator(a, c)
    ensures !ResultSetComparator(a, b) && !ResultSetComparator(b, a)
            && !ResultSetComparator(b, c) && !ResultSetComparator(c, b)
            ==> !ResultSetComparator(a, c) && !ResultSetComparator(c, a)
  {
  }

  /** Sizes never decrease along `sets`. */
  ghost predicate SortedBySize<T>(sets: seq<seq<T>>) {
    forall i, j :: 0 <= i < j < |sets| ==> |sets[i]| <= |sets[j]|
  }

  /**
   * `std::sort(sets, resultSetComparator)`: reorders the sets in place so
   * that their sizes never decrease.
   */
  method SortBySize<T>(sets: array<seq<T>>)
    modifies sets
    ensures SortedBySize(sets[..])
    ensures multiset(sets[..]) == old(multiset(sets[..]))
  {
    var i := 0;
    while i < sets.Length
      invariant 0 <= i <= sets.Length
      invariant SortedBySize(sets[..i])
      invariant multiset(sets[..]) == old(multiset(sets[..]))
    {
      InsertBySize(sets, i);
      i := i + 1;
    }
    assert sets[..i] == sets[..];
  }

  /**
   * One step of the sort: moves `sets[i]` down into the sorted prefix
   * `sets[..i]`, so that `sets[..i + 1]` is sorted; the rest is untouched.
   */
  method InsertBySize<T>(sets: array<seq<T>>, i: nat)
    requires i < sets.Length && SortedBySize(sets[..i])
    modifies sets
    ensures SortedBySize(sets[..i + 1])
    ensures sets[i + 1..] == old(sets[i + 1..])
    ensures multiset(sets[..]) == old(multiset(sets[..]))
  {
    var j := i;
    while j > 0 && ResultSetComparator(sets[j], sets[j - 1])
      invariant 0 <= j <= i
      invariant sets[i + 1..] == old(sets[i + 1..])
      invariant forall k, l :: 0 <= k < l <= i && l != j ==> |sets[k]| <= |sets[l]|
      invariant multiset(sets[..]) == old(multiset(sets[..]))
    {
      SwapDown(sets, j);
      j := j - 1;
    }
  }

  /** Exchanges `sets[j - 1]` and `sets[j]`. */
  method SwapDown<T>(sets: array<seq<T>>, j: nat)
    requires 0 < j < sets.Length
    modifies sets
    ensures sets[..] == old(sets[..])[j - 1 := old(sets[j])][j := old(sets[j - 1])]
    ensures multiset(sets[..]) == old(multiset(sets[..]))
  {
    sets[j], sets[j - 1] := sets[j - 1], sets[j];
  }

  // ---------------------------------------------------------------------
  // Subclone trees and nodeEventsList

  /**
   * A subclone: a node of the tumour's evolutionary tree with its id, its
   * cell fraction, the clusters of events acquired at this node (each
   * cluster given by its member events) and its children.
   */
  datatype Subclone = Subclone(id: Int64, fraction: real, clusters: seq<seq<EventId>>, children: seq<Subclone>)

  /** The events of all of a node's clusters, cluster after cluster. */
  function ClusterEvents(clusters: seq<seq<EventId>>): seq<EventId> {
    if clusters == [] then [] else clusters[0] + ClusterEvents(clusters[1..])
  }

  /**
   * The path from `root` obtained by taking child `route[0]`, then child
   * `route[1]` of that node, and so on (`getVecChildren()[k]`); `None` when
   * some index names no child.
   */
  function PathTo(root: Subclone, route: seq<nat>): (r: Option<seq<Subclone>>)
    ensures r.Some? ==> |r.value| == |route| + 1 && r.value[0] == root
    ensures r.Some? ==> forall i :: 0 <= i < |route| ==>
              route[i] < |r.value[i].children| && r.value[i + 1] == r.value[i].children[route[i]]
    ensures r.Some? <==> RouteExists(root, route)
    decreases route
  {
    if route == [] then Some([root])
    else if route[0] < |root.children| then
      match PathTo(root.children[route[0]], route[1..])
      case Some(p) => Some([root] + p)
      case None => None
    else None
  }

  /** Every index of `route` names a child of the node reached so far. */
  predicate RouteExists(root: Subclone, route: seq<nat>)
    decreases route
  {
    route == [] || (route[0] < |root.children| && RouteExists(root.children[route[0]], route[1..]))
  }

  datatype Option<T> = None | Some(value: T)

  /**
   * `nodeEventsList(node)` for the node at the end of `path`: every event of
   * every cluster of every node from the root down to that node, in
   * root-to-node order. Descendants of the node contribute nothing.
   */
  function NodeEventsList(path: seq<Subclone>): seq<EventId> {
    if path == [] then []
    else NodeEventsList(path[..|path| - 1]) + ClusterEvents(path[|path| - 1].clusters)
  }

  /** Number of events held in all clusters along `path`. */
  function EventCount(path: seq<Subclone>): nat {
    if path == [] then 0
    else EventCount(path[1..]) + |ClusterEvents(path[0].clusters)|
  }

  /** The list for two consecutive stretches of a path is the two lists joined. */
  lemma {:induction false} NodeEventsListAppend(p: seq<Subclone>, q: seq<Subclone>)
    ensures NodeEventsList(p + q) == NodeEventsList(p) + NodeEventsList(q)
  {
    if q == [] {
      assert p + q == p;
    } else {
      var q' := q[..|q| - 1];
      assert (p + q)[..|p + q| - 1] == p + q';
      assert (p + q)[|p + q| - 1] == q[|q| - 1];
      NodeEventsListAppend(p, q');
    }
  }

  /** The list holds exactly the events of the clusters along the path. */
  lemma {:induction false} NodeEventsListSize(path: seq<Subclone>)
    ensures |NodeEventsList(path)| == EventCount(path)
  {
    if path != [] {
      NodeEventsListAppend([path[0]], path[1..]);
      assert [path[0]] + path[1..] == path;
      assert [path[0]][..0] == [];
      NodeEventsListSize(path[1..]);
    }
  }

  /**
   * An event is in the list exactly when it belongs to a cluster of some
   * node on the path.
   */
  lemma {:induction false} NodeEventsListMembers(path: seq<Subclone>, x: EventId)
    ensures x in NodeEventsList(path) <==> exists i :: 0 <= i < |path| && x in ClusterEvents(path[i].clusters)
  {
    if path != [] {
      var init := path[..|path| - 1];
      NodeEventsListMembers(init, x);
      assert forall i :: 0 <= i < |init| ==> init[i] == path[i];
    }
  }

  /**
   * Going one node further down adds exactly that node's events after the
   * events of its ancestors; the list of an ancestor is a prefix of the
   * list of each of its descendants.
   */
  lemma NodeEventsListPrefix(path: seq<Subclone>, k: nat)
    requires k <= |path|
    ensures NodeEventsList(path) == NodeEventsList(path[..k]) + NodeEventsList(path[k..])
    ensures NodeEventsList(path[..k]) <= NodeEventsList(path)
  {
    assert path[..k] + path[k..] == path;
    NodeEventsListAppend(path[..k], path[k..]);
  }

  /**
   * The list reads only the clusters along the path: two paths with the same
   * clusters node by node give the same list, whatever the children, ids and
   * fractions of their nodes.
   */
  lemma {:induction false} NodeEventsListOnlyClusters(p: seq<Subclone>, q: seq<Subclone>)
    requires |p| == |q|
    requires forall i :: 0 <= i < |p| ==> p[i].clusters == q[i].clusters
    ensures NodeEventsList(p) == NodeEventsList(q)
  {
    if p != [] {
      NodeEventsListOnlyClusters(p[..|p| - 1], q[..|q| - 1]);
    }
  }

  /**
   * Descending a chain whose root has no clusters and whose every other
   * node has one cluster of one event yields one event per step.
   */
  lemma {:induction false} NodeEventsListChain(path: seq<Subclone>)
    requires path != [] && path[0].clusters == []
    requires forall i :: 1 <= i < |path| ==> |path[i].clusters| == 1 && |path[i].clusters[0]| == 1
    ensures |NodeEventsList(path)| == |path| - 1
  {
    if |path| > 1 {
      var init := path[..|path| - 1];
      var last := path[|path| - 1].clusters;
      assert ClusterEvents(last) == last[0] + ClusterEvents(last[1..]);
      NodeEventsListChain(init);
    }
  }
}
