/**
 * The behaviour that the somatic-event unit tests assert, stated over the
 * model: default values, and `isEqualTo` with a boundary tolerance.
 */
module SomaticEventTests {
  import opened GenomicLocations
  import opened SomaticEvents

  /** The CNV set up by `testCNV`: chromosome 1, 1000 bases from 1000000. */
  const TestCNV := CNV(0.2, GenomicRange(1, 1000000, 1000))

  /** The second CNV of `testCNV`: start 123 bases later, end 135 bases later. */
  const TestCNV2 := CNV(0.4, GenomicRange(1, 1000123, 1012))

  /** An LOH with exactly the fields of the second CNV. */
  const TestLOH := LOH(0.4, GenomicRange(1, 1000123, 1012))

  /**
   * A default CNV has frequency 0 and an all-zero range; it is exactly
   * equal to itself and to no default LOH.
   */
  lemma DefaultCNVFields()
    ensures DefaultCNV.CNV? && DefaultCNV.frequency == 0.0
    ensures DefaultCNV.range.chrom == 0 && DefaultCNV.range.position == 0 && DefaultCNV.range.length == 0
    ensures DefaultCNV.IsEqualTo(DefaultCNV, 0) && !DefaultCNV.IsEqualTo(DefaultLOH, BoundaryResolution)
  {
  }

  /** A default LOH has frequency 0 and an all-zero range. */
  lemma DefaultLOHFields()
    ensures DefaultLOH.LOH? && DefaultLOH.frequency == 0.0
    ensures DefaultLOH.range.chrom == 0 && DefaultLOH.range.position == 0 && DefaultLOH.range.length == 0
  {
  }

  /** A default SNP has frequency 0 and sits at chromosome 0, position 0. */
  lemma DefaultSNPFields()
    ensures DefaultSNP.SNP? && DefaultSNP.frequency == 0.0
    ensures DefaultSNP.location.chrom == 0 && DefaultSNP.location.position == 0
  {
  }

  /**
   * The two CNVs of `testCNV` are equal exactly under a tolerance of at
   * least 135 bases, so the library's default tolerance must be at least that.
   */
  lemma TestCNVsEqualWithinTolerance(tolerance: nat)
    ensures TestCNV.IsEqualTo(TestCNV2, tolerance) <==> tolerance >= 135
    ensures TestCNV.IsEqualTo(TestCNV2)
  {
  }

  /**
   * A CNV never equals an LOH, even one whose extent matches a CNV it is
   * equal to, and whatever the tolerance.
   */
  lemma TestCNVNeverEqualsLOH(tolerance: nat)
    ensures TestLOH.range == TestCNV2.range && TestLOH.frequency == TestCNV2.frequency
    ensures !TestCNV.IsEqualTo(TestLOH, tolerance)
    ensures !TestLOH.IsEqualTo(TestCNV, tolerance)
  {
  }
}
