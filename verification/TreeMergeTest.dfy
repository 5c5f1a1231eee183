/**
 * The behaviour that the tree-merge unit tests assert about the event-set
 * utilities, stated over the model with the tests' own fixtures.
 */
module TreeMergeTests {
  import opened SomaticEvents
  import opened TreeMergeUtils

  // Events a..e of the fixtures, referred to by id.
  const A: EventId := 1
  const B: EventId := 2
  const C: EventId := 3
  const D: EventId := 4
  const E: EventId := 5

  /**
   * The event each fixture id stands for: a default CNV whose chromosome is
   * the id (`a.range.chrom = 1`, ..., `e.range.chrom = 5`).
   */
  function FixtureEvent(id: EventId): SomaticEvent
    requires A <= id <= E
  {
    CNV(0.0, GenomicRange(id, 0, 0))
  }

  /**
   * Every fixture event sits on its own chromosome, so tolerance-based
   * equality between fixture events coincides with identity: comparing
   * ids loses nothing.
   */
  lemma FixtureEqualityIsIdentity(i: EventId, j: EventId, tolerance: nat)
    requires A <= i <= E && A <= j <= E
    ensures FixtureEvent(i).IsEqualTo(FixtureEvent(j), tolerance) <==> i == j
  {
  }

  // The event sets of the event-set fixture.
  const V1: seq<EventId> := [A, B, C]
  const V2: seq<EventId> := [A, D, E]
  const V3: seq<EventId> := [D, E]
  const V4: seq<EventId> := [B]

  /** {a, b, c} minus {a, d, e} is {b, c}; a set minus itself is empty. */
  lemma SomaticEventDifferenceFixture()
    ensures Difference(V1, V2) == [B, C]
    ensures |Difference(V1, V2)| == 2 && A !in Difference(V1, V2)
    ensures Difference(V1, V1) == []
  {
    assert [C][1..] == [] && Difference([C], V2) == [C];
    assert [B, C][1..] == [C] && Difference([B, C], V2) == [B, C];
    assert V1[1..] == [B, C] && V1[0] in V2;
    DifferenceSelf(V1);
  }

  /**
   * A set contains itself; {a, d, e} contains {d, e}; {a, b, c} contains
   * neither {d, e} nor {a, d, e}; containment is not symmetric.
   */
  lemma EventSetContainsFixture()
    ensures Contains(V1, V1)
    ensures Contains(V2, V3) && !Contains(V3, V2)
    ensures !Contains(V1, V3)
    ensures !Contains(V1, V2)
  {
  }

  /**
   * A permutation of {v1, v3, v4} whose sizes never decrease is the one
   * order {v4, v3, v1}: their sizes 3, 2 and 1 are all different.
   */
  lemma {:induction false} SortedFixtureIsUnique(s: seq<seq<EventId>>)
    requires multiset(s) == multiset([V1, V3, V4])
    requires SortedBySize(s)
    ensures s == [V4, V3, V1]
  {
    var m := multiset(s);
    assert |s| == 3 by {
      assert |m| == |s| && |m| == 3;
    }
    assert m == multiset{s[0], s[1], s[2]} by {
      assert s == [s[0], s[1], s[2]];
    }
    // the largest set, V1, can only come last
    assert V1 in m;
    var k :| 0 <= k < 3 && s[k] == V1;
    assert |V1| <= |s[2]|;
    assert s[2] in m;
    assert s[2] == V1;
    // of the other two, the larger one, V3, comes second
    assert multiset{s[0], s[1]} == multiset{V3, V4};
    assert V3 in multiset{s[0], s[1]};
    assert |V3| <= |s[1]|;
    assert s[1] in multiset{V3, V4};
    assert s[1] == V3;
    assert multiset{s[0]} == multiset{V4};
  }

  /**
   * `std::sort(testSets, resultSetComparator)` on {v1, v3, v4}: the sizes
   * come out non-decreasing, which leaves {v4, v3, v1}.
   */
  method SortFixtureSets() returns (sorted: seq<seq<EventId>>)
    ensures |sorted| == 3 && |sorted[0]| <= |sorted[1]| <= |sorted[2]|
    ensures sorted == [V4, V3, V1]
  {
    var testSets := new seq<EventId>[3];
    testSets[0], testSets[1], testSets[2] := V1, V3, V4;
    assert testSets[..] == [V1, V3, V4];
    SortBySize(testSets);
    sorted := testSets[..];
    SortedFixtureIsUnique(sorted);
  }

  /**
   * The fixture tumour: a root without clusters (id 10), its child with the
   * cluster {a} (id 11), and two children of that node with clusters {b}
   * (id 12) and {c} (id 13); every fraction is 0.1.
   */
  const P2 := Subclone(12, 0.1, [[B]], [])
  const P3 := Subclone(13, 0.1, [[C]], [])
  const P1 := Subclone(11, 0.1, [[A]], [P2, P3])
  const Tumor1 := Subclone(10, 0.1, [], [P1])

  /** The path to the fixture's first grandchild along first children. */
  lemma PathToFixture()
    ensures PathTo(Tumor1, []) == Some([Tumor1])
    ensures PathTo(Tumor1, [0]) == Some([Tumor1, P1])
    ensures PathTo(Tumor1, [0, 0]) == Some([Tumor1, P1, P2])
  {
    assert [0][1..] == [] && [0, 0][1..] == [0];
    assert PathTo(P2, []) == Some([P2]) && PathTo(P1, []) == Some([P1]);
    assert PathTo(P1, [0]) == Some([P1] + [P2]);
    assert [Tumor1] + [P1] == [Tumor1, P1];
    assert [P1] + [P2] == [P1, P2] && [Tumor1] + [P1, P2] == [Tumor1, P1, P2];
  }

  /**
   * `nodeEventsList` along the first children of the fixture tumour: the
   * root yields nothing, its child (which has two children of its own)
   * yields its one event, and the first grandchild, a leaf, yields two.
   */
  lemma NodeEventsListFixture()
    ensures PathTo(Tumor1, []) == Some([Tumor1]) && NodeEventsList([Tumor1]) == []
    ensures PathTo(Tumor1, [0]) == Some([Tumor1, P1]) && NodeEventsList([Tumor1, P1]) == [A]
    ensures |P1.children| == 2
    ensures PathTo(Tumor1, [0, 0]) == Some([Tumor1, P1, P2]) && NodeEventsList([Tumor1, P1, P2]) == [A, B]
    ensures P2.children == []
  {
    PathToFixture();
    NodeEventsListOfFixturePaths();
  }

  /** The event lists of the three fixture paths, node by node. */
  lemma NodeEventsListOfFixturePaths()
    ensures NodeEventsList([Tumor1]) == []
    ensures NodeEventsList([Tumor1, P1]) == [A]
    ensures NodeEventsList([Tumor1, P1, P2]) == [A, B]
  {
    assert [Tumor1][..0] == [] && [Tumor1, P1][..1] == [Tumor1] && [Tumor1, P1, P2][..2] == [Tumor1, P1];
    assert [[A]][1..] == [] && [[B]][1..] == [];
  }

  /** The two CNVs of `test_tree_merge_a_a1`: starts 123 bases apart, ends 109. */
  const TreeCNV1 := CNV(0.4, GenomicRange(1, 100000, 1000))
  const TreeCNV2 := CNV(0.4, GenomicRange(1, 100123, 986))

  /** They are equal exactly under a tolerance of at least 123 bases. */
  lemma TreeMergeCNVsEqualWithinTolerance(tolerance: nat)
    ensures TreeCNV1.IsEqualTo(TreeCNV2, tolerance) <==> tolerance >= 123
    ensures TreeCNV1.IsEqualTo(TreeCNV2, BoundaryResolution)
  {
  }
}
