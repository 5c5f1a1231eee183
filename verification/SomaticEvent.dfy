/**
 * Somatic events: copy-number variants (CNV), loss-of-heterozygosity
 * segments (LOH) and single-nucleotide variants (SNP), each with a
 * frequency, compared by `isEqualTo` with a boundary tolerance.
 *
 * The class hierarchy of the library becomes one closed datatype; the
 * dynamic dispatch of `isEqualTo` becomes a match over the pair of
 * constructors, so that events of different kinds are never equal.
 */
module SomaticEvents {
  import opened MachineInts
  import opened GenomicLocations

  /** The extent of a segmental mutation: a chromosome, a start and a length. */
  datatype GenomicRange = GenomicRange(chrom: Int32, position: UInt64, length: UInt64)
  {
    /** One past the last base of the range. */
    function End(): int {
      position + length
    }
  }

  datatype SomaticEvent =
    | CNV(frequency: real, range: GenomicRange)
    | LOH(frequency: real, range: GenomicRange)
    | SNP(frequency: real, location: GenomicLocation)
  {
    /** The two events are instances of the same variant. */
    predicate SameKind(other: SomaticEvent) {
      (CNV? && other.CNV?) || (LOH? && other.LOH?) || (SNP? && other.SNP?)
    }

    /** The chromosome the event lies on. */
    function Chrom(): Int32 {
      if SNP? then location.chrom else range.chrom
    }

    /** The first base the event covers. */
    function Start(): int {
      if SNP? then location.position else range.position
    }

    /** One past the last base the event covers (an SNP covers one base). */
    function Stop(): int {
      if SNP? then location.position + 1 else range.End()
    }

    /**
     * `isEqualTo(other, tolerance)`: the same kind of event on the same
     * chromosome, whose boundaries lie within `tolerance` bases of each other.
     * The tolerance defaults to `BoundaryResolution`.
     */
    predicate IsEqualTo(other: SomaticEvent, tolerance: nat := BoundaryResolution): (r: bool)
      ensures r <==> SameKind(other) && Chrom() == other.Chrom()
                     && Distance(Start(), other.Start()) <= tolerance
                     && Distance(Stop(), other.Stop()) <= tolerance
    {
      match (this, other)
      case (CNV(_, r), CNV(_, s)) => RangesMatch(r, s, tolerance)
      case (LOH(_, r), LOH(_, s)) => RangesMatch(r, s, tolerance)
      case (SNP(_, l), SNP(_, m)) => l.chrom == m.chrom && Distance(l.position, m.position) <= tolerance
      case _ => false
    }
  }

  /** Default tolerance of `isEqualTo`, in bases. */
  const BoundaryResolution: nat := 135

  function Distance(x: int, y: int): nat {
    if x <= y then y - x else x - y
  }

  predicate RangesMatch(r: GenomicRange, s: GenomicRange, tolerance: nat) {
    r.chrom == s.chrom
    && Distance(r.position, s.position) <= tolerance
    && Distance(r.End(), s.End()) <= tolerance
  }

  /** Default-constructed events: frequency 0 and an all-zero extent. */
  const EmptyRange := GenomicRange(0, 0, 0)
  const DefaultCNV := CNV(0.0, EmptyRange)
  const DefaultLOH := LOH(0.0, EmptyRange)
  const DefaultSNP := SNP(0.0, Origin)

  /** The same event moved `d` bases to the right along its chromosome. */
  function Shifted(e: SomaticEvent, d: nat): (r: SomaticEvent)
    requires e.SNP? ==> e.location.position + d < 0x1_0000_0000_0000_0000
    requires !e.SNP? ==> e.range.position + d < 0x1_0000_0000_0000_0000
    ensures r.SameKind(e) && r.frequency == e.frequency
    ensures !e.SNP? ==> r.range.chrom == e.range.chrom && r.range.length == e.range.length
                        && r.range.End() == e.range.End() + d
    ensures e.SNP? ==> r.location.chrom == e.location.chrom
                       && r.location.position == e.location.position + d
  {
    match e
    case CNV(f, g) => CNV(f, g.(position := g.position + d))
    case LOH(f, g) => LOH(f, g.(position := g.position + d))
    case SNP(f, l) => SNP(f, l.(position := l.position + d))
  }

  /** Every event equals itself, even with no tolerance at all. */
  lemma IsEqualToReflexive(a: SomaticEvent, tolerance: nat)
    ensures a.IsEqualTo(a, tolerance) && a.IsEqualTo(a, 0)
  {
  }

  lemma IsEqualToSymmetric(a: SomaticEvent, b: SomaticEvent, tolerance: nat)
    ensures a.IsEqualTo(b, tolerance) <==> b.IsEqualTo(a, tolerance)
  {
  }

  /** Events of different kinds are never equal, whatever the tolerance and the fields. */
  lemma DifferentKindsNeverEqual(a: SomaticEvent, b: SomaticEvent, tolerance: nat)
    requires !a.SameKind(b)
    ensures !a.IsEqualTo(b, tolerance)
  {
  }

  /** Widening the tolerance keeps equal events equal. */
  lemma IsEqualToMonotone(a: SomaticEvent, b: SomaticEvent, t: nat, t': nat)
    requires t <= t' && a.IsEqualTo(b, t)
    ensures a.IsEqualTo(b, t')
  {
  }

  /**
   * With tolerance 0 equality is exact: same kind, same chromosome and the
   * same boundaries. The frequency plays no part.
   */
  lemma ExactEquality(a: SomaticEvent, b: SomaticEvent)
    ensures a.IsEqualTo(b, 0) <==>
      a.SameKind(b) &&
      (if a.SNP? then a.location == b.location
       else a.range.chrom == b.range.chrom && a.range.position == b.range.position
            && a.range.length == b.range.length)
  {
  }

  /**
   * Moving an event by `d` bases keeps it equal to the original exactly
   * when `d` is within the tolerance.
   */
  lemma ShiftedEqualIff(e: SomaticEvent, d: nat, tolerance: nat)
    requires e.SNP? ==> e.location.position + d < 0x1_0000_0000_0000_0000
    requires !e.SNP? ==> e.range.position + d < 0x1_0000_0000_0000_0000
    ensures Shifted(e, d).IsEqualTo(e, tolerance) <==> d <= tolerance
  {
  }

  /**
   * Tolerance-based equality is not an equivalence: chaining two matches
   * can move a boundary twice the tolerance.
   */
  lemma IsEqualToNotTransitive(tolerance: nat)
    requires tolerance < 0x1_0000_0000
    ensures var a := CNV(0.0, GenomicRange(1, 0, 10));
            var b := Shifted(a, tolerance);
            var c := Shifted(b, tolerance);
            a.IsEqualTo(b, tolerance) && b.IsEqualTo(c, tolerance)
            && (tolerance > 0 ==> !a.IsEqualTo(c, tolerance))
  {
  }
}
