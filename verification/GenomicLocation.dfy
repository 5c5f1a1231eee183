/**
 * A point on a reference genome: a chromosome id and a 0-based position,
 * ordered lexicographically (chromosome first, then position).
 */
module GenomicLocations {
  import opened MachineInts

  datatype GenomicLocation = GenomicLocation(chrom: Int32, position: UInt64)
  {
    /**
     * `operator<`: this location lies before `another`, i.e. the if-chain
     * decides the lexicographic order on (chrom, position).
     */
    predicate Less(another: GenomicLocation): (r: bool)
      ensures r <==> chrom < another.chrom || (chrom == another.chrom && position < another.position)
    {
      if chrom < another.chrom then true
      else if chrom > another.chrom then false
      else if position < another.position then true
      else false
    }

    /** `operator>`: this location lies after `another` in the same order. */
    predicate Greater(another: GenomicLocation): (r: bool)
      ensures r <==> chrom > another.chrom || (chrom == another.chrom && position > another.position)
    {
      if chrom > another.chrom then true
      else if chrom < another.chrom then false
      else if position > another.position then true
      else false
    }
  }

  /** The location built by the minimal constructor. */
  const Origin := GenomicLocation(0, 0)

  /**
   * The default location is chromosome 0, position 0, and no location on a
   * non-negative chromosome lies before it.
   */
  lemma OriginIsLeast(l: GenomicLocation)
    ensures Origin.chrom == 0 && Origin.position == 0
    ensures l.chrom >= 0 ==> !l.Less(Origin) && !Origin.Greater(l)
    ensures l.chrom >= 0 && l != Origin ==> Origin.Less(l)
  {
  }

  /** A smaller chromosome decides the order whatever the positions. */
  lemma LessByChromosome(a: GenomicLocation, b: GenomicLocation)
    requires a.chrom < b.chrom
    ensures a.Less(b) && !b.Less(a)
  {
  }

  /** On one chromosome the order is the order of positions. */
  lemma LessOnSameChromosome(a: GenomicLocation, b: GenomicLocation)
    requires a.chrom == b.chrom
    ensures a.Less(b) <==> a.position < b.position
  {
  }

  lemma LessIrreflexive(a: GenomicLocation)
    ensures !a.Less(a) && !a.Greater(a)
  {
  }

  /** `a < b` holds exactly when `b > a`. */
  lemma LessIsConverseOfGreater(a: GenomicLocation, b: GenomicLocation)
    ensures a.Less(b) <==> b.Greater(a)
  {
  }

  lemma LessTransitive(a: GenomicLocation, b: GenomicLocation, c: GenomicLocation)
    requires a.Less(b) && b.Less(c)
    ensures a.Less(c)
  {
  }

  /** For any two locations exactly one of `a < b`, `b < a`, `a == b` holds. */
  lemma LessTrichotomous(a: GenomicLocation, b: GenomicLocation)
    ensures a.Less(b) || b.Less(a) || a == b
    ensures !(a.Less(b) && b.Less(a))
    ensures a == b ==> !a.Less(b)
  {
  }
}
