# SubcloneSeeker core, modelled in Dafny

SubcloneSeeker reconstructs and compares trees of tumour subclones. Each
subclone carries clusters of somatic events (copy-number variants, loss of
heterozygosity, single-nucleotide variants). This project models the
value-level core that tree comparison is built on:

- **GenomicLocation** (`GenomicLocation.dfy`): a `(chrom, position)` point
  with the lexicographic `operator<` and `operator>` of the library, and the
  default location `(0, 0)`.
- **Somatic events** (`SomaticEvent.dfy`): CNV, LOH and SNP as one closed
  datatype, each with a frequency. `isEqualTo(other, tolerance)` holds only
  between events of the same kind on the same chromosome whose boundaries
  lie within `tolerance` bases. `BoundaryResolution` is the default tolerance.
- **EventCluster** (`EventCluster.dfy`): a class with the fields the library
  updates in place (members, cell fraction, owning subclone id). `AddEvent`
  appends a member and can recompute the cell fraction as the centroid
  (mean) of the members' frequencies, by a scan over all members. Clusters
  compare by cell fraction only. `Members()`, `CellFraction()` and
  `SubcloneId()` are functions that read the fields. Like `members()`, which
  returns the vector by value, reading them never changes the cluster.
- **Event-set utilities** (`TreeMergeUtils.dfy`): `SomaticEventDifference`,
  `eventSetContains`, `resultSetComparator` with the in-place sort the tests
  apply it with, and `nodeEventsList` over a subclone tree. Event sets are
  sequences of event references, and references are compared by identity.
- **The tests' assertions** (`TestSomaticEvent.dfy`, `TreeMergeTest.dfy`):
  each test's fixtures are constants, and each assertion is a lemma.

`MachineInts.dfy` gives the C++ integer widths of the fields (`int`,
`unsigned long`, `sqlite3_int64`). Frequencies and fractions are `real`.

## Model

| member | source | states |
|---|---|---|
| GenomicLocations.GenomicLocation.Less | GenomicLocation.h:37-42 | The if-chain of `operator<` holds exactly when this location's chromosome is smaller, or the chromosome is the same and the position is smaller: the lexicographic order on (chrom, position). |
| GenomicLocations.GenomicLocation.Greater | GenomicLocation.h:50-55 | The if-chain of `operator>` holds exactly when this location's chromosome is larger, or the chromosome is the same and the position is larger. |
| GenomicLocations.OriginIsLeast | GenomicLocation.h:29 | The default location is chromosome 0, position 0. No location on a non-negative chromosome is before it, and every other such location is after it. |
| GenomicLocations.LessByChromosome | GenomicLocation.h:38-39 | A location on a smaller chromosome is `<` one on a larger chromosome, whatever the positions, and not the other way round. |
| GenomicLocations.LessOnSameChromosome | GenomicLocation.h:40-41 | On one chromosome, `a < b` holds exactly when a's position is smaller. |
| GenomicLocations.LessIrreflexive | GenomicLocation.h:37-55 | No location is `<` or `>` itself. |
| GenomicLocations.LessIsConverseOfGreater | GenomicLocation.h:37-55 | `a < b` holds exactly when `b > a`. |
| GenomicLocations.LessTransitive | GenomicLocation.h:37-42 | `<` is transitive. |
| GenomicLocations.LessTrichotomous | GenomicLocation.h:37-55 | For any two locations exactly one holds: `a < b`, `b < a`, or they are equal. |
| SomaticEvents.SomaticEvent.IsEqualTo | test/TestSomaticEvent.cc:34-48 | `isEqualTo(other, tolerance)` holds exactly when both events are of the same kind, lie on the same chromosome, and their first bases and their ends each lie at most `tolerance` bases apart. The tolerance defaults to `BoundaryResolution`. |
| SomaticEvents.IsEqualToReflexive | test/TestSomaticEvent.cc:34-40 | Every event is `isEqualTo` itself under any tolerance, including 0. |
| SomaticEvents.IsEqualToSymmetric | test/TestSomaticEvent.cc:40 | `a.isEqualTo(b, t)` holds exactly when `b.isEqualTo(a, t)` does. |
| SomaticEvents.DifferentKindsNeverEqual | test/TestSomaticEvent.cc:42-48 | Events of different kinds are never equal, whatever their fields and the tolerance. |
| SomaticEvents.IsEqualToMonotone | utils/treemerge_test.cc:233 | If two events are equal under a tolerance, they are equal under any larger one. |
| SomaticEvents.ExactEquality | test/TestSomaticEvent.cc:40 | Under tolerance 0, equality means the same kind and the same chromosome, start and length (or location, for SNPs). The frequency plays no part. |
| SomaticEvents.ShiftedEqualIff | test/TestSomaticEvent.cc:34-40 | An event moved `d` bases stays equal to the original exactly when `d` is at most the tolerance. |
| SomaticEvents.IsEqualToNotTransitive | test/TestSomaticEvent.cc:34-40 | Tolerance-based equality is not transitive: two shifts of `t` give events `t` apart from each neighbour but `2t` apart from each other. |
| SomaticEventTests.DefaultCNVFields | test/TestSomaticEvent.cc:19-22 | A default CNV has frequency 0 and chromosome, position and length 0. It equals itself exactly and is not equal to a default LOH. |
| SomaticEventTests.DefaultLOHFields | test/TestSomaticEvent.cc:97-100 | A default LOH has frequency 0 and an all-zero range. |
| SomaticEventTests.DefaultSNPFields | test/TestSomaticEvent.cc:158-160 | A default SNP has frequency 0 and location (0, 0). |
| SomaticEventTests.TestCNVsEqualWithinTolerance | test/TestSomaticEvent.cc:24-40 | The test's two CNVs (starts 123 apart, ends 135 apart) are equal exactly when the tolerance is at least 135. They are equal under `BoundaryResolution`. |
| SomaticEventTests.TestCNVNeverEqualsLOH | test/TestSomaticEvent.cc:42-48 | The test's CNV is not equal to an LOH whose fields match a CNV it is equal to, under any tolerance and in either direction. |
| EventClusters.EventCluster.constructor | EventCluster.h:50 | A new cluster has no members, cell fraction 0 and subclone id 0, and its fraction is the centroid. |
| EventClusters.EventCluster.SetCellFraction | EventCluster.h:64-71 | After `setCellFraction(f)`, `cellFraction()` returns `f`. The members and the subclone id are unchanged. |
| EventClusters.EventCluster.AddEvent | EventCluster.h:73-79 | The members become the old members followed by the event. With `updateFraction` (the default) the cell fraction becomes the mean frequency of all members, so the centroid invariant holds. Without it the fraction is unchanged. The subclone id is always unchanged. |
| EventClusters.EventCluster.SetSubcloneId | EventCluster.h:100-112 | After `setSubcloneID(id)`, `subcloneID()` returns `id`. The members and the cell fraction are unchanged. |
| EventClusters.Mean | EventCluster.h:59-64 | The centroid taken `n` times, for `n` members, is the sum of the members' frequencies. |
| EventClusters.EventCluster.Less | EventCluster.h:84-90 | `a < b` holds only when a's cell fraction is smaller than b's, so never for a cluster and itself. When it fails, b's fraction is at most a's. |
| EventClusters.EventCluster.Greater | EventCluster.h:92-98 | `a > b` holds exactly when `b < a`, so it too never holds for a cluster and itself. |
| EventClusters.ClusterOrderByFractionOnly | EventCluster.h:90-98 | Clusters with equal cell fractions compare alike against any cluster, whatever their members and ids. |
| EventClusters.ClusterLessTransitive | EventCluster.h:90 | `<` on clusters is transitive. |
| EventClusters.SumFrequenciesBounds | EventCluster.h:59-64 | If every member frequency lies in `[lo, hi]`, then the sum of the frequencies lies between `lo * n` and `hi * n`. |
| EventClusters.MeanWithin | EventCluster.h:59-64 | The centroid lies within any bounds of the members' frequencies. In particular, frequencies in [0, 1] give a fraction in [0, 1]. |
| EventClusters.SumFrequenciesAppend | EventCluster.h:73-79 | The frequency sum over two blocks of members is the sum of the two blocks' sums. |
| EventClusters.MeanOrderIndependent | EventCluster.h:73-79 | The centroid does not depend on the order in which two blocks of members were added. |
| EventClusters.MeanIncremental | EventCluster.h:73-79 | A running mean agrees with the full scan: adding frequency `f` to `n` members of mean `m` gives `(n*m + f)/(n+1)`. |
| EventClusters.SingleEventCluster | utils/treemerge_test.cc:29-30 | A new cluster given one event (as the fixtures build them) has exactly that member, that event's frequency as cell fraction, and subclone id 0. |
| TreeMergeUtils.Difference | utils/treemerge_test.cc:106-118 | `SomaticEventDifference(a, b)` holds exactly the elements of `a` that are not in `b`, and is no longer than `a`. |
| TreeMergeUtils.DifferenceOfSubset | utils/treemerge_test.cc:116-117 | Removing a superset of `a` from `a` leaves nothing. |
| TreeMergeUtils.DifferenceSelf | utils/treemerge_test.cc:116-117 | `SomaticEventDifference(a, a)` is empty. |
| TreeMergeUtils.DifferenceEmpty | utils/treemerge_test.cc:106-114 | Removing nothing returns `a` unchanged, in its order. |
| TreeMergeUtils.DifferenceAppend | utils/treemerge_test.cc:106-114 | The difference distributes over concatenation, so it keeps `a`'s relative order. |
| TreeMergeUtils.Contains | utils/treemerge_test.cc:120-128 | `eventSetContains(a, b)` holds exactly when every element of `b` is in `a`. |
| TreeMergeUtils.ContainsIffDifferenceEmpty | utils/treemerge_test.cc:120-128 | `b` is contained in `a` exactly when `b` minus `a` is empty. |
| TreeMergeUtils.ContainsPreorder | utils/treemerge_test.cc:122 | Containment is reflexive and transitive, and the empty set is contained in every set. |
| TreeMergeUtils.DifferenceContained | utils/treemerge_test.cc:106-114 | `a` minus `b` is always contained in `a`. |
| TreeMergeUtils.ResultSetComparatorStrictWeakOrder | utils/treemerge_test.cc:130-136 | `resultSetComparator` (fewer events) is irreflexive, asymmetric and transitive, and "same size" is transitive: a valid comparator for sorting. |
| TreeMergeUtils.SortBySize | utils/treemerge_test.cc:130-139 | Sorting with `resultSetComparator` in place leaves sizes non-decreasing, and the result is a permutation of the input. |
| TreeMergeUtils.PathTo | utils/treemerge_test.cc:56-61 | Following child indices (`getVecChildren()[k]`) from the root gives a path that starts at the root and has one node per index. Each node is child number `route[i]` of the one before. It fails exactly when some index names no child. |
| TreeMergeUtils.NodeEventsListAppend | utils/treemerge_test.cc:48-64 | The event list of two consecutive stretches of a path is the two lists joined. |
| TreeMergeUtils.NodeEventsListSize | utils/treemerge_test.cc:53-64 | `nodeEventsList` has exactly as many events as the clusters along the path hold. |
| TreeMergeUtils.NodeEventsListMembers | utils/treemerge_test.cc:53 | An event is in the list exactly when it belongs to a cluster of some node on the path. |
| TreeMergeUtils.NodeEventsListPrefix | utils/treemerge_test.cc:48-64 | An ancestor's list is a prefix of each descendant's list. The descendant's list is the ancestor's list followed by the events further down. |
| TreeMergeUtils.NodeEventsListOnlyClusters | utils/treemerge_test.cc:56-59 | The list reads only the clusters on the path. Children, ids and fractions make no difference, so descendants are excluded. |
| TreeMergeUtils.NodeEventsListChain | utils/treemerge_test.cc:48-64 | Down a chain from a cluster-free root, where each further node has one single-event cluster, each step adds exactly one event. |
| TreeMergeTests.FixtureEqualityIsIdentity | utils/treemerge_test.cc:78-80 | The fixture events sit on chromosomes 1 to 5, so `isEqualTo` between them holds exactly for the same event. Comparing references loses nothing. |
| TreeMergeTests.SomaticEventDifferenceFixture | utils/treemerge_test.cc:106-118 | {a,b,c} minus {a,d,e} is {b,c}: size 2, without a. {a,b,c} minus itself is empty. |
| TreeMergeTests.EventSetContainsFixture | utils/treemerge_test.cc:120-128 | v1 contains v1. v2 contains v3 but not the reverse. v1 contains neither v3 nor v2. |
| TreeMergeTests.SortedFixtureIsUnique | utils/treemerge_test.cc:130-139 | The only permutation of {v1, v3, v4} with non-decreasing sizes is v4, v3, v1. |
| TreeMergeTests.SortFixtureSets | utils/treemerge_test.cc:130-140 | Sorting {v1, v3, v4} by the comparator gives non-decreasing sizes, namely v4, v3, v1. |
| TreeMergeTests.NodeEventsListFixture | utils/treemerge_test.cc:48-67 | For the fixture tumour: the root's list is empty. Its first child, which has two children, yields 1 event. That child's first child yields 2 events and has no children. |
| TreeMergeTests.TreeMergeCNVsEqualWithinTolerance | utils/treemerge_test.cc:219-233 | The two CNVs (starts 123 apart, ends 109 apart) are equal exactly when the tolerance is at least 123. They are equal under `BoundaryResolution`. |

## Left out

- Persistence to SQLite is not modelled, because it is database I/O through a foreign library. This covers the `Archivable` overrides and `allObjectsOfSubclone` (EventCluster.h:37-44, 122), and the archive/unarchive round trips and file removal in test/TestSomaticEvent.cc:53-93, 113-153, 174-211.
- `TreeMerge` is not modelled. Its implementation (`treemerge_p`) is not part of this model. The scenario outcomes at utils/treemerge_test.cc:145-523 do not determine an algorithm.
- The implementations of `SomaticEventDifference`, `eventSetContains`, `resultSetComparator` and `nodeEventsList` are not part of this model. Their definitions here are assumptions. The tests fix only the fixture results they check (utils/treemerge_test.cc:106-139).
- `nodeEventsList`: the model lists events in root-to-node order and includes the clusters of every node on the path, the root's included. The tests only check sizes, and their root has no clusters.
- The SomaticEvent, CNV/LOH (SegmentalMutation) and SNP sources are not part of this model. The boundary rule of `IsEqualTo` is an assumption: same kind, same chromosome, and start and end (or the SNP position) each within the tolerance. The tests fix only that two CNV pairs are equal under the default tolerance (test/TestSomaticEvent.cc:40, utils/treemerge_test.cc:233) and that a CNV never equals an LOH (test/TestSomaticEvent.cc:42-48).
- `BoundaryResolution`: its value is not in the modelled files. The model fixes 135, the smallest value the tests accept. The test lemmas are stated for every tolerance, so they show the exact threshold each test needs.
- A range end (`position + length`) is computed without 64-bit wrap-around. Tolerances are whole bases (`nat`) rather than `double`.
- Floating point is not modelled: frequencies, fractions and the centroid are exact `real`s. `BOOST_CHECK_CLOSE` tolerances become exact equalities.
- The cluster stores its members as event values, not pointers. A change made to an event through another pointer after it was added is not seen by the cluster. An `addEvent` that updates the fraction reads the frequencies as they were when each event was added.
- Subclone trees are built in the tests by in-place `addChild`/`addEventCluster` (Subclone.h and TreeNode.h are not part of this model). Here they are immutable datatype values built whole. `setFraction` and `setId` are plain fields that nothing reads. A cluster in a tree is given by its member event references.
- Memory management is not modelled: `new`/`delete`, fixture destructors, recursive subtree deletion and `dynamic_cast`.
- `NodeEventsListFixture` describes the fixture tree as intended. In utils/treemerge_test.cc:24-39 the events `a`..`e` and the clusters `cA`..`cE` are local variables of the fixture constructor. Only their addresses are stored in the heap-allocated subclones, so they go out of scope before the checks at utils/treemerge_test.cc:53-64 read them. The model has no object lifetimes: its events and clusters are values that stay valid.
- `SortBySize` stands for `std::sort` as an insertion sort. It claims only what `std::sort` guarantees, a size-ordered permutation, and not any particular order among sets of equal size.
- The test harness is not modelled: UnitTest++/Boost.Test, `main`, and the field assignments that only set up fixtures (these become constants).
