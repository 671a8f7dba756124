/**
 * What `addUniprotList` reads from the alignment worker, taken as plain
 * input: one region per query sequence, with an active flag and, for each
 * of its alignments, the type `getAlignmentType` reports and the name of the
 * reference it hit (`bns->anns[rid].name`). The functions here say what the
 * counting and populating loops of `addUniprotList` compute.
 */
module Regions {
  import opened Wrappers
  import opened Entries

  /** A type below `MEM_ALIGN_PRIMARY`, `MEM_ALIGN_PRIMARY`, `MEM_ALIGN_SECONDARY`. */
  datatype AlignType = Unaligned | Primary | Secondary

  datatype Alignment = Alignment(kind: AlignType, refName: string)

  datatype Region = Region(active: bool, alignments: seq<Alignment>)

  /** Alignments of type `k` among `alns`. */
  function KindCount(alns: seq<Alignment>, k: AlignType): nat {
    if alns == [] then 0
    else KindCount(alns[..|alns| - 1], k) + (if alns[|alns| - 1].kind == k then 1 else 0)
  }

  /** Alignments of type `k` over the active regions (`entryCount` of the new
      primary or secondary list). */
  function RegionCount(regs: seq<Region>, k: AlignType): nat {
    if regs == [] then 0
    else
      var r := regs[|regs| - 1];
      RegionCount(regs[..|regs| - 1], k) + (if r.active then KindCount(r.alignments, k) else 0)
  }

  /** What one region adds to `totalAlign`: one per active region, plus one
      for every primary alignment after its first. */
  function AlignWeight(r: Region): nat {
    if !r.active then 0
    else
      var p := KindCount(r.alignments, Primary);
      if p == 0 then 1 else p
  }

  function TotalAlign(regs: seq<Region>): nat {
    if regs == [] then 0 else TotalAlign(regs[..|regs| - 1]) + AlignWeight(regs[|regs| - 1])
  }

  /** Active regions without any primary alignment. */
  function UnalignedRegions(regs: seq<Region>): nat {
    if regs == [] then 0
    else
      var r := regs[|regs| - 1];
      UnalignedRegions(regs[..|regs| - 1])
        + (if r.active && KindCount(r.alignments, Primary) == 0 then 1 else 0)
  }

  /** The entries parsed from the alignments of type `k`, in order. */
  function KindEntries(alns: seq<Alignment>, k: AlignType, nucleotide: bool): seq<Entry> {
    if alns == [] then []
    else
      var a := alns[|alns| - 1];
      KindEntries(alns[..|alns| - 1], k, nucleotide)
        + (if a.kind == k then [ParsedEntry(a.refName, nucleotide)] else [])
  }

  /** The entries of the new list of type `k`, region by region. */
  function RegionEntries(regs: seq<Region>, k: AlignType, nucleotide: bool): seq<Entry> {
    if regs == [] then []
    else
      var r := regs[|regs| - 1];
      RegionEntries(regs[..|regs| - 1], k, nucleotide)
        + (if r.active then KindEntries(r.alignments, k, nucleotide) else [])
  }

  /** The zero-filled entries `calloc` gives when the list is not populated. */
  function NullEntries(n: nat): (s: seq<Entry>)
    ensures |s| == n && forall i :: 0 <= i < n ==> s[i] == Entry(None, None, None, 0)
  {
    seq(n, _ => Entry(None, None, None, 0))
  }

  /** The primary list's `unalignedCount` is the number of active regions
      that found no primary alignment. */
  lemma {:induction false} PrimaryUnalignedIsRegionsWithoutHit(regs: seq<Region>)
    ensures TotalAlign(regs) - RegionCount(regs, Primary) == UnalignedRegions(regs)
  {
    if regs != [] {
      PrimaryUnalignedIsRegionsWithoutHit(regs[..|regs| - 1]);
    }
  }

  /** `totalAlign` is at least the number of primary alignments, so the
      primary `unalignedCount` is never negative. */
  lemma {:induction false} TotalAlignCoversPrimary(regs: seq<Region>)
    ensures TotalAlign(regs) >= RegionCount(regs, Primary)
  {
    PrimaryUnalignedIsRegionsWithoutHit(regs);
  }

  lemma {:induction false} KindEntriesCount(alns: seq<Alignment>, k: AlignType, nucleotide: bool)
    ensures |KindEntries(alns, k, nucleotide)| == KindCount(alns, k)
  {
    if alns != [] {
      KindEntriesCount(alns[..|alns| - 1], k, nucleotide);
    }
  }

  /** The populated list holds exactly `entryCount` entries. */
  lemma {:induction false} RegionEntriesCount(regs: seq<Region>, k: AlignType, nucleotide: bool)
    ensures |RegionEntries(regs, k, nucleotide)| == RegionCount(regs, k)
  {
    if regs != [] {
      RegionEntriesCount(regs[..|regs| - 1], k, nucleotide);
      KindEntriesCount(regs[|regs| - 1].alignments, k, nucleotide);
    }
  }

  /** Every alignment's reference name yields an identifier with `_`. */
  predicate NamesSplit(regs: seq<Region>, nucleotide: bool) {
    forall i, j :: 0 <= i < |regs| && 0 <= j < |regs[i].alignments| ==>
      '_' in ReferenceId(regs[i].alignments[j].refName, nucleotide)
  }

  lemma {:induction false} KindEntriesRaw(alns: seq<Alignment>, k: AlignType, nucleotide: bool)
    requires forall j :: 0 <= j < |alns| ==> '_' in ReferenceId(alns[j].refName, nucleotide)
    ensures forall e :: e in KindEntries(alns, k, nucleotide) ==> IsRaw(e)
  {
    if alns != [] {
      var a := alns[|alns| - 1];
      KindEntriesRaw(alns[..|alns| - 1], k, nucleotide);
      ParsedEntryIsRaw(a.refName, nucleotide);
    }
  }

  /** When every name splits, every entry of a populated list is raw: it
      carries an identifier, a gene and an organism, and counts one. */
  lemma {:induction false} RegionEntriesRaw(regs: seq<Region>, k: AlignType, nucleotide: bool)
    requires NamesSplit(regs, nucleotide)
    ensures forall e :: e in RegionEntries(regs, k, nucleotide) ==> IsRaw(e)
  {
    if regs != [] {
      var n := |regs| - 1;
      assert NamesSplit(regs[..n], nucleotide) by {
        forall i, j | 0 <= i < n && 0 <= j < |regs[..n][i].alignments|
          ensures '_' in ReferenceId(regs[..n][i].alignments[j].refName, nucleotide)
        {
          assert regs[..n][i] == regs[i];
        }
      }
      RegionEntriesRaw(regs[..n], k, nucleotide);
      KindEntriesRaw(regs[n].alignments, k, nucleotide);
    }
  }
}
