/**
 * An event cluster: somatic events believed to share one cell fraction.
 * The cluster keeps its members in insertion order, a cell fraction that
 * is by default the centroid (mean) of the members' frequencies, and the
 * id of the subclone it belongs to.
 */
module EventClusters {
  import opened MachineInts
  import opened SomaticEvents

  /** Sum of the members' frequencies, accumulated from the first member on. */
  function SumFrequencies(events: seq<SomaticEvent>): real {
    if events == [] then 0.0
    else SumFrequencies(events[..|events| - 1]) + events[|events| - 1].frequency
  }

  /** The centroid of the members' frequencies: n copies of it add up to their sum. */
  function Mean(events: seq<SomaticEvent>): (r: real)
    requires events != []
    ensures r * (|events| as real) == SumFrequencies(events)
  {
    SumFrequencies(events) / (|events| as real)
  }

  /** All frequencies in `events` lie in `[lo, hi]`. */
  predicate FrequenciesWithin(events: seq<SomaticEvent>, lo: real, hi: real) {
    forall i :: 0 <= i < |events| ==> lo <= events[i].frequency <= hi
  }

  /** Bounds on every frequency bound the sum. */
  lemma {:induction false} SumFrequenciesBounds(events: seq<SomaticEvent>, lo: real, hi: real)
    requires FrequenciesWithin(events, lo, hi)
    ensures lo * (|events| as real) <= SumFrequencies(events) <= hi * (|events| as real)
  {
    if events != [] {
      var init := events[..|events| - 1];
      assert FrequenciesWithin(init, lo, hi) by {
        forall i | 0 <= i < |init| ensures lo <= init[i].frequency <= hi {
          assert init[i] == events[i];
        }
      }
      SumFrequenciesBounds(init, lo, hi);
      assert lo * (|events| as real) == lo * (|init| as real) + lo;
      assert hi * (|events| as real) == hi * (|init| as real) + hi;
    }
  }

  /**
   * The centroid lies between the smallest and the largest frequency; in
   * particular frequencies in [0, 1] give a cell fraction in [0, 1], and
   * members that all share one frequency have that frequency as centroid.
   */
  lemma MeanWithin(events: seq<SomaticEvent>, lo: real, hi: real)
    requires events != [] && FrequenciesWithin(events, lo, hi)
    ensures lo <= Mean(events) <= hi
  {
    SumFrequenciesBounds(events, lo, hi);
    var n := |events| as real;
    var s := SumFrequencies(events);
    assert Mean(events) == s / n;
    // m - lo == (s - lo * n) / n and hi - m == (hi * n - s) / n, both quotients
    // of a non-negative number by a positive one
    assert s / n - lo == (s - lo * n) / n;
    assert hi - s / n == (hi * n - s) / n;
  }

  /** The sum over two blocks of members is the sum of the blocks' sums. */
  lemma {:induction false} SumFrequenciesAppend(a: seq<SomaticEvent>, b: seq<SomaticEvent>)
    ensures SumFrequencies(a + b) == SumFrequencies(a) + SumFrequencies(b)
  {
    if b != [] {
      var b' := b[..|b| - 1];
      assert (a + b)[..|a + b| - 1] == a + b';
      SumFrequenciesAppend(a, b');
    } else {
      assert a + b == a;
    }
  }

  /**
   * The centroid does not depend on the order in which two blocks of
   * members were added.
   */
  lemma MeanOrderIndependent(a: seq<SomaticEvent>, b: seq<SomaticEvent>)
    requires a + b != []
    ensures Mean(a + b) == Mean(b + a)
  {
    SumFrequenciesAppend(a, b);
    SumFrequenciesAppend(b, a);
  }

  /**
   * A running mean gives the same centroid as a scan over all members:
   * adding one event with frequency f to n members of mean m gives
   * (n * m + f) / (n + 1).
   */
  lemma MeanIncremental(events: seq<SomaticEvent>, e: SomaticEvent)
    requires events != []
    ensures Mean(events + [e]) ==
      ((|events| as real) * Mean(events) + e.frequency) / ((|events| + 1) as real)
  {
    var n := |events| as real;
    assert (events + [e])[..|events + [e]| - 1] == events;
    assert n * (SumFrequencies(events) / n) == SumFrequencies(events);
  }

  class EventCluster {
    var memberEvents: seq<SomaticEvent>
    var fraction: real
    var ofSubcloneId: Int64

    /** `members()`: the members in insertion order, by value. */
    function Members(): seq<SomaticEvent>
      reads this
    {
      memberEvents
    }

    /** `cellFraction()` */
    function CellFraction(): real
      reads this
    {
      fraction
    }

    /** `subcloneID()` */
    function SubcloneId(): Int64
      reads this
    {
      ofSubcloneId
    }

    /**
     * The cell fraction is the centroid of the members' frequencies (0 for
     * a cluster with no members). It holds whenever every insertion asked
     * for the fraction to be updated and `SetCellFraction` was not used.
     */
    ghost predicate Centred()
      reads this
    {
      if memberEvents == [] then fraction == 0.0 else fraction == Mean(memberEvents)
    }

    /** The minimal constructor: no members, cell fraction 0, subclone id 0. */
    constructor ()
      ensures Members() == [] && CellFraction() == 0.0 && SubcloneId() == 0
      ensures Centred()
    {
      memberEvents := [];
      fraction := 0.0;
      ofSubcloneId := 0;
    }

    /** `setCellFraction`: changes the cell fraction and nothing else. */
    method SetCellFraction(f: real)
      modifies this
      ensures CellFraction() == f
      ensures Members() == old(Members()) && SubcloneId() == old(SubcloneId())
    {
      fraction := f;
    }

    /**
     * `addEvent(event, updateFraction)`: appends `event` to the members; when
     * asked, recomputes the cell fraction as the mean frequency of all
     * members by a scan over them, otherwise leaves it as it was.
     */
    method AddEvent(event: SomaticEvent, updateFraction: bool := true)
      modifies this
      ensures Members() == old(Members()) + [event]
      ensures updateFraction ==> CellFraction() == Mean(Members()) && Centred()
      ensures !updateFraction ==> CellFraction() == old(CellFraction())
      ensures SubcloneId() == old(SubcloneId())
    {
      memberEvents := memberEvents + [event];
      if updateFraction {
        var total := 0.0;
        var i := 0;
        while i < |memberEvents|
          invariant 0 <= i <= |memberEvents|
          invariant total == SumFrequencies(memberEvents[..i])
        {
          assert memberEvents[..i + 1][..i] == memberEvents[..i];
          total := total + memberEvents[i].frequency;
          i := i + 1;
        }
        assert memberEvents[..i] == memberEvents;
        fraction := total / (|memberEvents| as real);
      }
    }

    /** `setSubcloneID`: changes the owning subclone id and nothing else. */
    method SetSubcloneId(cloneId: Int64)
      modifies this
      ensures SubcloneId() == cloneId
      ensures Members() == old(Members()) && CellFraction() == old(CellFraction())
    {
      ofSubcloneId := cloneId;
    }

    /** `operator<`: a smaller cell fraction; so never a cluster and itself. */
    predicate Less(another: EventCluster): (r: bool)
      reads this, another
      ensures r ==> this != another && CellFraction() < another.CellFraction()
      ensures !r ==> another.CellFraction() <= CellFraction()
    {
      fraction < another.fraction
    }

    /** `operator>`: a greater cell fraction, the converse of `operator<`. */
    predicate Greater(another: EventCluster): (r: bool)
      reads this, another
      ensures r <==> another.Less(this)
    {
      fraction > another.fraction
    }
  }

  /**
   * Clusters compare by cell fraction only: two clusters with the same cell
   * fraction compare alike against any third, whatever their members and ids.
   */
  lemma ClusterOrderByFractionOnly(a: EventCluster, a': EventCluster, b: EventCluster)
    requires a.CellFraction() == a'.CellFraction()
    ensures a.Less(b) <==> a'.Less(b)
    ensures a.Greater(b) <==> a'.Greater(b)
    ensures b.Less(a) <==> b.Less(a')
  {
  }

  lemma ClusterLessTransitive(a: EventCluster, b: EventCluster, c: EventCluster)
    requires a.Less(b) && b.Less(c)
    ensures a.Less(c)
  {
  }

  /**
   * The way the tree fixtures build a cluster: a new cluster given one
   * event takes that event's frequency as its cell fraction.
   */
  method SingleEventCluster(e: SomaticEvent) returns (c: EventCluster)
    ensures fresh(c)
    ensures c.Members() == [e] && c.CellFraction() == e.frequency && c.SubcloneId() == 0
  {
    c := new EventCluster();
    c.AddEvent(e);
    assert SumFrequencies([e]) == SumFrequencies([]) + e.frequency;
  }
}
