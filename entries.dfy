/**
 * The records of the core (`UniprotEntry`, `UniprotList`), the three ranking
 * keys, the `qsort` comparators, and the extraction of an identifier, a gene
 * and an organism from a reference name.
 */
module Entries {
  import opened Wrappers
  import opened CStrings
  import Sorting

  /** `UniprotEntry`: NULL strings are `None`. */
  datatype Entry = Entry(id: Option<string>, gene: Option<string>, organism: Option<string>, numOccurrence: nat)

  /** `UniprotList`: `entryCount` is the length of `entries`. */
  datatype EntryList = EntryList(entries: seq<Entry>, unalignedCount: int)
  {
    function EntryCount(): nat { |entries| }
  }

  /** `UNIPROT_LIST_FULL`, `UNIPROT_LIST_GENES`, `UNIPROT_LIST_ORGANISM`. */
  datatype ListKind = FullList | GeneList | OrganismList

  /** The field a list of the given kind is ranked and aggregated by. */
  function KeyOf(e: Entry, kind: ListKind): Option<string> {
    match kind
    case FullList => e.id
    case GeneList => e.gene
    case OrganismList => e.organism
  }

  predicate HasKey(e: Entry, kind: ListKind) { KeyOf(e, kind).Some? }

  /** The key as the comparators read it; every caller first establishes
      `HasKey`, so the empty stand-in for NULL is never compared. */
  function KeyText(e: Entry, kind: ListKind): string {
    match KeyOf(e, kind)
    case Some(k) => k
    case None => []
  }

  /** An entry with only the key field of `kind` set, as the aggregation pass
      writes every view entry after the first. */
  function KeyOnly(kind: ListKind, key: string, count: nat): (e: Entry)
    ensures KeyOf(e, kind) == Some(key) && e.numOccurrence == count
  {
    match kind
    case FullList => Entry(Some(key), None, None, count)
    case GeneList => Entry(None, Some(key), None, count)
    case OrganismList => Entry(None, None, Some(key), count)
  }

  /**
   * `uniprotEntryCompareID`, `uniprotEntryCompareGene` and
   * `uniprotEntryCompareOrganism`: the difference of the occurrence counts
   * (second minus first) when they differ, otherwise `strcmp` of the keys.
   */
  function CompareRanked(a: Entry, b: Entry, kind: ListKind): int {
    var diff := b.numOccurrence - a.numOccurrence;
    if diff != 0 then diff else Cmp(KeyText(a, kind), KeyText(b, kind))
  }

  /** `a` may come before `b` in a list sorted with the comparator. */
  predicate RankedBefore(kind: ListKind, a: Entry, b: Entry) {
    CompareRanked(a, b, kind) <= 0
  }

  function RankOrder(kind: ListKind): (Entry, Entry) -> bool {
    (a, b) => RankedBefore(kind, a, b)
  }

  /** The comparators order by count descending, then by key ascending; they
      call two entries equal only when both count and key agree. */
  lemma CompareRankedMeaning(a: Entry, b: Entry, kind: ListKind)
    ensures CompareRanked(a, b, kind) < 0 <==>
      a.numOccurrence > b.numOccurrence ||
      (a.numOccurrence == b.numOccurrence && Less(KeyText(a, kind), KeyText(b, kind)))
    ensures CompareRanked(a, b, kind) == 0 <==>
      a.numOccurrence == b.numOccurrence && KeyText(a, kind) == KeyText(b, kind)
    ensures CompareRanked(a, b, kind) < 0 <==> CompareRanked(b, a, kind) > 0
  {
    CmpAntisymmetric(KeyText(a, kind), KeyText(b, kind));
  }

  /** The comparators are a total preorder, as `qsort` needs. */
  lemma RankOrderIsTotalPreorder(kind: ListKind)
    ensures Sorting.TotalPreorder(RankOrder(kind))
  {
    var le := RankOrder(kind);
    forall a, b ensures le(a, b) || le(b, a) {
      CompareRankedMeaning(a, b, kind);
    }
    forall a, b, c | le(a, b) && le(b, c) ensures le(a, c) {
      if a.numOccurrence == b.numOccurrence == c.numOccurrence {
        CmpTransitive(KeyText(a, kind), KeyText(b, kind), KeyText(c, kind));
      }
    }
  }

  /** A list sorted with a comparator has its counts non-increasing, and
      entries with equal counts in ascending key order. */
  lemma {:induction false} RankSortedMeaning(kind: ListKind, s: seq<Entry>, i: nat, j: nat)
    requires Sorting.SortedBy(RankOrder(kind), s)
    requires i < j < |s|
    ensures s[i].numOccurrence >= s[j].numOccurrence
    ensures s[i].numOccurrence == s[j].numOccurrence ==> LessEq(KeyText(s[i], kind), KeyText(s[j], kind))
  {
    assert RankOrder(kind)(s[i], s[j]);
  }

  /** With every count equal (every raw entry counts 1), sorting with a
      comparator sorts by key. */
  lemma RankSortedByKey(kind: ListKind, s: seq<Entry>, i: nat, j: nat)
    requires Sorting.SortedBy(RankOrder(kind), s)
    requires forall k :: 0 <= k < |s| ==> s[k].numOccurrence == 1
    requires i <= j < |s|
    ensures LessEq(KeyText(s[i], kind), KeyText(s[j], kind))
  {
    if i < j {
      RankSortedMeaning(kind, s, i, j);
    }
  }

  // ---------------------------------------------------------------------
  // Identifier extraction (addUniprotList)

  /** The identifier stored for a reference name: after the second `:` when
      the index is nucleotide, then after the second `|`, cut at the first
      space. */
  function ReferenceId(name: string, nucleotide: bool): string {
    var afterFrame := if nucleotide then SkipPast(name, ':', 2) else name;
    TakeUntilSpace(SkipPast(afterFrame, '|', 2))
  }

  /** Gene and organism: the text before and after the first `_`; both NULL
      when the identifier has none. */
  function GeneOrganism(id: string): (Option<string>, Option<string>) {
    var u := IndexOf(id, '_');
    if u < 0 then (None, None) else (Some(id[..u]), Some(id[u + 1..]))
  }

  /** The raw entry created for one successful alignment. */
  function ParsedEntry(name: string, nucleotide: bool): Entry {
    var id := ReferenceId(name, nucleotide);
    var (gene, organism) := GeneOrganism(id);
    Entry(Some(id), gene, organism, 1)
  }

  /** The identifier is what follows the second `|` (after the second `:` for
      nucleotide indexes) up to the first space; with fewer than two `|` it is
      empty. */
  lemma ReferenceIdMeaning(name: string, nucleotide: bool)
    ensures var afterFrame := if nucleotide then SkipPast(name, ':', 2) else name;
      var rest := SkipPast(afterFrame, '|', 2);
      var id := ReferenceId(name, nucleotide);
      && |rest| <= |afterFrame|
      && ' ' !in id
      && IsPrefix(id, rest)
      && (|id| < |rest| ==> rest[|id|] == ' ')
      && (Occurrences(afterFrame, '|') < 2 ==> id == [])
      && (Occurrences(afterFrame, '|') >= 2 ==>
            var head := afterFrame[..|afterFrame| - |rest|];
            afterFrame == head + rest && Occurrences(head, '|') == 2 && head[|head| - 1] == '|')
  {
    var afterFrame := if nucleotide then SkipPast(name, ':', 2) else name;
    SkipPastMeaning(afterFrame, '|', 2);
    var rest := SkipPast(afterFrame, '|', 2);
    assert afterFrame == afterFrame[..|afterFrame| - |rest|] + afterFrame[|afterFrame| - |rest|..];
  }

  /** Gene and organism split the identifier at its first `_`, and putting
      them back together with `_` gives the identifier again. */
  lemma {:induction false} GeneOrganismRoundTrip(id: string)
    ensures var (gene, organism) := GeneOrganism(id);
      && (gene.Some? <==> '_' in id)
      && (organism.Some? <==> '_' in id)
      && ('_' in id ==> '_' !in gene.value && gene.value + "_" + organism.value == id)
  {
    var u := IndexOf(id, '_');
    if u >= 0 {
      assert id == id[..u] + "_" + id[u + 1..];
    }
  }

  /** Raw entries whose identifier contains `_` carry all three strings and
      count one. */
  predicate IsRaw(e: Entry) {
    e.id.Some? && e.gene.Some? && e.organism.Some? && e.numOccurrence == 1
  }

  lemma ParsedEntryIsRaw(name: string, nucleotide: bool)
    requires '_' in ReferenceId(name, nucleotide)
    ensures IsRaw(ParsedEntry(name, nucleotide))
    ensures ParsedEntry(name, nucleotide).id == Some(ReferenceId(name, nucleotide))
  {
    GeneOrganismRoundTrip(ReferenceId(name, nucleotide));
  }

  /** A FASTA header `db|accession|name description` yields `name`, with or
      without a description. */
  lemma HeaderId(db: string, accession: string, name: string, description: string)
    requires '|' !in db && '|' !in accession && ' ' !in name
    ensures ReferenceId(db + "|" + accession + "|" + name + " " + description, false) == name
    ensures ReferenceId(db + "|" + accession + "|" + name, false) == name
  {
    var tail := name + " " + description;
    assert db + "|" + accession + "|" + name + " " + description == db + "|" + accession + "|" + tail;
    assert db + "|" + accession + "|" + tail == db + ['|'] + (accession + ['|'] + tail);
    SkipPastFirst(db, '|', accession + ['|'] + tail, 1);
    SkipPastFirst(accession, '|', tail, 0);
    TakeUntilFirstSpace(name, description);
    assert db + "|" + accession + "|" + name == db + ['|'] + (accession + ['|'] + name);
    SkipPastFirst(db, '|', accession + ['|'] + name, 1);
    SkipPastFirst(accession, '|', name, 0);
    assert name[..|name|] == name;
    TakeUntilSpaceAt(name, |name|);
  }

  /** A nucleotide index prefixes the header with `sequence:frame:`, which
      is skipped first. */
  lemma NucleotideHeaderId(sequence: string, frame: string, header: string)
    requires ':' !in sequence && ':' !in frame
    ensures ReferenceId(sequence + ":" + frame + ":" + header, true) == ReferenceId(header, false)
  {
    assert sequence + ":" + frame + ":" + header == sequence + [':'] + (frame + [':'] + header);
    SkipPastFirst(sequence, ':', frame + [':'] + header, 1);
    SkipPastFirst(frame, ':', header, 0);
  }

  /**
   * The parsing loops of `addUniprotList` for one reference name: walk past
   * two `:` (nucleotide indexes only), then past two `|`, stop at the first
   * space, then look for the first `_`.
   */
  method ParseReference(name: string, nucleotide: bool) returns (e: Entry)
    ensures e == ParsedEntry(name, nucleotide)
  {
    var afterFrame := name;
    if nucleotide {
      var p := WalkPast(name, ':', 2);
      afterFrame := name[p..];
    }
    var p := WalkPast(afterFrame, '|', 2);
    var rest := afterFrame[p..];
    var q := FindSpace(rest);
    var id := rest[..q];
    var gene, organism := None, None;
    var u := FindChar(id, '_');
    if u >= 0 {
      gene, organism := Some(id[..u]), Some(id[u + 1..]);
    }
    e := Entry(Some(id), gene, organism, 1);
  }
}
