/**
 * The chunk store: the two process-wide collections of `UniprotList`
 * (primary and secondary), the per-chunk append `addUniprotList`, the
 * concatenation and aggregation of `prepareUniprotLists`, and the report
 * preparation `prepareUniprotReport`. The two collections are the fields of
 * `UniprotStore`; their lengths are `uniprotPriListCount` and
 * `uniprotSecListCount`.
 */
module Store {
  import opened Wrappers
  import opened Entries
  import opened Regions
  import opened Aggregation
  import opened OnlineJoin
  import opened Batching
  import Sorting

  // ---------------------------------------------------------------------
  // addUniprotList

  /** The list `addUniprotList` appends for alignments of type `k`: parsed
      entries when the chunk is populated, zero-filled ones otherwise, and
      `unalignedCount = totalAlign - entryCount`. */
  function NewList(regs: seq<Region>, k: AlignType, nucleotide: bool, full: bool): EntryList {
    var count := RegionCount(regs, k);
    EntryList(if full then RegionEntries(regs, k, nucleotide) else NullEntries(count), TotalAlign(regs) as int - count)
  }

  /** A new list holds one entry per alignment of its type in the active
      regions; the primary list's unaligned count is the number of active
      regions without a primary hit; populated entries are raw when every
      name splits, and unpopulated ones are all NULL. */
  lemma NewListMeaning(regs: seq<Region>, k: AlignType, nucleotide: bool, full: bool)
    ensures NewList(regs, k, nucleotide, full).EntryCount() == RegionCount(regs, k)
    ensures k == Primary ==> NewList(regs, k, nucleotide, full).unalignedCount == UnalignedRegions(regs) >= 0
    ensures full && NamesSplit(regs, nucleotide) ==> RawEntries(NewList(regs, k, nucleotide, full).entries)
    ensures !full ==> forall e :: e in NewList(regs, k, nucleotide, full).entries ==> e == Entry(None, None, None, 0)
  {
    RegionEntriesCount(regs, k, nucleotide);
    PrimaryUnalignedIsRegionsWithoutHit(regs);
    if full && NamesSplit(regs, nucleotide) {
      RegionEntriesRaw(regs, k, nucleotide);
    }
  }

  /** The counting pass over one active region. */
  method CountRegion(alns: seq<Alignment>) returns (pri: nat, sec: nat, weight: nat)
    ensures pri == KindCount(alns, Primary) && sec == KindCount(alns, Secondary)
    ensures weight == AlignWeight(Region(true, alns))
  {
    pri, sec := 0, 0;
    var extra := 0;
    for j := 0 to |alns|
      invariant pri == KindCount(alns[..j], Primary) && sec == KindCount(alns[..j], Secondary)
      invariant extra == if pri == 0 then 0 else pri - 1
    {
      assert alns[..j + 1][..j] == alns[..j];
      match alns[j].kind
      case Primary =>
        if pri > 0 {
          extra := extra + 1;
        }
        pri := pri + 1;
      case Secondary =>
        sec := sec + 1;
      case Unaligned =>
    }
    assert alns[..|alns|] == alns;
    weight := extra + 1;
  }

  /** The counting pass of `addUniprotList`: the sizes of the two new lists
      and `totalAlign`; what is left for the primary list is the number of
      active regions without a primary hit. */
  method CountAlignments(regs: seq<Region>) returns (priCount: nat, secCount: nat, totalAlign: nat)
    ensures priCount == RegionCount(regs, Primary) && secCount == RegionCount(regs, Secondary)
    ensures totalAlign == TotalAlign(regs)
    ensures totalAlign - priCount == UnalignedRegions(regs)
  {
    priCount, secCount, totalAlign := 0, 0, 0;
    for i := 0 to |regs|
      invariant priCount == RegionCount(regs[..i], Primary) && secCount == RegionCount(regs[..i], Secondary)
      invariant totalAlign == TotalAlign(regs[..i])
    {
      assert regs[..i + 1][..i] == regs[..i];
      if regs[i].active {
        var pri, sec, weight := CountRegion(regs[i].alignments);
        priCount, secCount, totalAlign := priCount + pri, secCount + sec, totalAlign + weight;
      }
    }
    assert regs[..|regs|] == regs;
    PrimaryUnalignedIsRegionsWithoutHit(regs);
  }

  /** The populating pass over one active region. */
  method CollectRegion(alns: seq<Alignment>, nucleotide: bool) returns (pri: seq<Entry>, sec: seq<Entry>)
    ensures pri == KindEntries(alns, Primary, nucleotide) && sec == KindEntries(alns, Secondary, nucleotide)
  {
    pri, sec := [], [];
    for j := 0 to |alns|
      invariant pri == KindEntries(alns[..j], Primary, nucleotide)
      invariant sec == KindEntries(alns[..j], Secondary, nucleotide)
    {
      assert alns[..j + 1][..j] == alns[..j];
      if alns[j].kind != Unaligned {
        var e := ParseReference(alns[j].refName, nucleotide);
        if alns[j].kind == Primary {
          pri := pri + [e];
        } else {
          sec := sec + [e];
        }
      }
    }
    assert alns[..|alns|] == alns;
  }

  /** The populating pass of `addUniprotList`. */
  method CollectEntries(regs: seq<Region>, nucleotide: bool) returns (pri: seq<Entry>, sec: seq<Entry>)
    ensures pri == RegionEntries(regs, Primary, nucleotide) && sec == RegionEntries(regs, Secondary, nucleotide)
  {
    pri, sec := [], [];
    for i := 0 to |regs|
      invariant pri == RegionEntries(regs[..i], Primary, nucleotide)
      invariant sec == RegionEntries(regs[..i], Secondary, nucleotide)
    {
      assert regs[..i + 1][..i] == regs[..i];
      if regs[i].active {
        var p, s := CollectRegion(regs[i].alignments, nucleotide);
        pri, sec := pri + p, sec + s;
      }
    }
    assert regs[..|regs|] == regs;
  }

  // ---------------------------------------------------------------------
  // prepareUniprotLists

  /** Every entry of `s` is raw. */
  predicate RawEntries(s: seq<Entry>) {
    forall e :: e in s ==> IsRaw(e)
  }

  predicate AllRaw(lists: seq<EntryList>) {
    forall i :: 0 <= i < |lists| ==> RawEntries(lists[i].entries)
  }

  /** The entries of all lists, in list order. */
  function Concat(lists: seq<EntryList>): seq<Entry> {
    if lists == [] then [] else Concat(lists[..|lists| - 1]) + lists[|lists| - 1].entries
  }

  lemma {:induction false} ConcatRaw(lists: seq<EntryList>)
    requires AllRaw(lists)
    ensures RawEntries(Concat(lists))
  {
    if lists != [] {
      ConcatRaw(lists[..|lists| - 1]);
    }
  }

  lemma ConcatStep(lists: seq<EntryList>, k: nat)
    requires k < |lists|
    ensures Concat(lists[..k + 1]) == Concat(lists[..k]) + lists[k].entries
  {
    assert lists[..k + 1][..k] == lists[..k];
  }

  /** The loop that sums `entryCount` over a collection. */
  method TotalEntries(lists: seq<EntryList>) returns (total: nat)
    ensures total == |Concat(lists)|
  {
    total := 0;
    for k := 0 to |lists|
      invariant total == |Concat(lists[..k])|
    {
      ConcatStep(lists, k);
      total := total + lists[k].EntryCount();
    }
    assert lists[..|lists|] == lists;
  }

  /** The copying loop of `prepareUniprotLists`: list 0 receives the entries
      of every list in index order, and every later list is emptied, keeping
      its unaligned count. */
  method ConcatenateLists(lists: seq<EntryList>) returns (joined: seq<EntryList>)
    requires |lists| > 0
    ensures |joined| == |lists|
    ensures joined[0] == EntryList(Concat(lists), lists[0].unalignedCount)
    ensures forall k :: 1 <= k < |lists| ==> joined[k] == EntryList([], lists[k].unalignedCount)
  {
    var merged := lists[0].entries;
    assert Concat(lists[..1]) == merged by {
      assert lists[..1][..0] == [];
    }
    joined := lists;
    for k := 1 to |lists|
      invariant |joined| == |lists| && joined[0] == lists[0]
      invariant merged == Concat(lists[..k])
      invariant forall m :: 1 <= m < k ==> joined[m] == EntryList([], lists[m].unalignedCount)
      invariant forall m :: k <= m < |lists| ==> joined[m] == lists[m]
    {
      ConcatStep(lists, k);
      merged := merged + lists[k].entries;
      joined := joined[k := EntryList([], joined[k].unalignedCount)];
    }
    assert lists[..|lists|] == lists;
    joined := joined[0 := EntryList(merged, lists[0].unalignedCount)];
  }

  /** `UNIPROT_LIST_FULL`, `UNIPROT_LIST_GENES`, `UNIPROT_LIST_ORGANISM`
      are the indexes 0, 1 and 2 of the views. */
  function KindAt(k: nat): ListKind
    requires k < 3
  {
    if k == 0 then FullList else if k == 1 then GeneList else OrganismList
  }

  /** `view` is what `aggregateUniprotList` produces for `kind` from list 0
      holding the entries `merged` in some order. */
  ghost predicate Aggregated(merged: seq<Entry>, kind: ListKind, view: seq<Entry>) {
    exists sorted :: Sorting.IsSortOf(RankOrder(kind), merged, sorted) && |sorted| > 0
      && Runs(view, kind) == RunLengths(Keys(sorted, kind)) && ViewShape(view, sorted[0], kind)
  }

  /** The counts of an aggregated view add up to the number of entries
      aggregated. */
  lemma AggregatedTotal(merged: seq<Entry>, kind: ListKind, view: seq<Entry>)
    requires Aggregated(merged, kind, view)
    ensures OccurrenceSum(view) == |merged|
  {
    var sorted :| Sorting.IsSortOf(RankOrder(kind), merged, sorted) && |sorted| > 0
      && Runs(view, kind) == RunLengths(Keys(sorted, kind)) && ViewShape(view, sorted[0], kind);
    ViewCountsConserved(sorted, view, kind);
    assert |multiset(sorted)| == |multiset(merged)|;
  }

  /**
   * The collection as `prepareUniprotLists` leaves it, given what it held
   * before. With no entries at all it is unchanged, except that a collection
   * without any list gets one empty list. Otherwise list 0 holds every entry,
   * in the order of the last sort (by organism), and the later lists are
   * empty; every list keeps its `unalignedCount`.
   */
  predicate PreparedLists(before: seq<EntryList>, after: seq<EntryList>) {
    if |Concat(before)| == 0 then
      after == if before == [] then [EntryList([], 0)] else before
    else
      && |after| == |before|
      && after[0].unalignedCount == before[0].unalignedCount
      && (forall k :: 1 <= k < |after| ==> after[k] == EntryList([], before[k].unalignedCount))
      && Sorting.IsSortOf(RankOrder(OrganismList), Concat(before), after[0].entries)
  }

  /** Every entry of a view carries an identifier. */
  predicate IdsPresent(view: seq<Entry>) {
    forall i :: 0 <= i < |view| ==> view[i].id.Some?
  }

  lemma AggregatedIds(merged: seq<Entry>, view: seq<Entry>)
    requires Aggregated(merged, FullList, view)
    ensures IdsPresent(view)
  {
    var sorted :| Sorting.IsSortOf(RankOrder(FullList), merged, sorted) && |sorted| > 0
      && Runs(view, FullList) == RunLengths(Keys(sorted, FullList)) && ViewShape(view, sorted[0], FullList);
  }

  /** The three `qsort` calls at the end of `prepareUniprotReport`. */
  method RankViews(unranked: seq<seq<Entry>>) returns (views: seq<seq<Entry>>)
    requires |unranked| == 3
    ensures |views| == 3
    ensures forall k :: 0 <= k < 3 ==> Sorting.IsSortOf(RankOrder(KindAt(k)), unranked[k], views[k])
  {
    views := unranked;
    for k := 0 to 3
      invariant |views| == 3
      invariant forall m :: 0 <= m < k ==> Sorting.IsSortOf(RankOrder(KindAt(m)), unranked[m], views[m])
      invariant forall m :: k <= m < 3 ==> views[m] == unranked[m]
    {
      RankOrderIsTotalPreorder(KindAt(k));
      Sorting.SortExists(RankOrder(KindAt(k)), views[k]);
      var r :| Sorting.IsSortOf(RankOrder(KindAt(k)), views[k], r);
      views := views[k := r];
    }
  }

  lemma AggregatedSnoc(merged: seq<Entry>, views: seq<seq<Entry>>, view: seq<Entry>)
    requires |views| < 3 && Aggregated(merged, KindAt(|views|), view)
    requires forall k :: 0 <= k < |views| ==> Aggregated(merged, KindAt(k), views[k])
    ensures forall k :: 0 <= k < |views| + 1 ==> Aggregated(merged, KindAt(k), (views + [view])[k])
  {
    forall k | 0 <= k < |views| + 1 ensures Aggregated(merged, KindAt(k), (views + [view])[k]) {
      if k < |views| {
        assert (views + [view])[k] == views[k];
      } else {
        assert (views + [view])[k] == view;
      }
    }
  }

  /** Lists that agree with `joined` after the first are the emptied lists. */
  lemma TailEmptied(now: seq<EntryList>, joined: seq<EntryList>, lists: seq<EntryList>)
    requires |now| == |joined| == |lists| > 0 && now[1..] == joined[1..]
    requires forall k :: 1 <= k < |lists| ==> joined[k] == EntryList([], lists[k].unalignedCount)
    ensures forall k :: 1 <= k < |now| ==> now[k] == EntryList([], lists[k].unalignedCount)
  {
    forall k | 1 <= k < |now| ensures now[k] == EntryList([], lists[k].unalignedCount) {
      assert now[k] == now[1..][k - 1];
    }
  }

  class UniprotStore {
    var priLists: seq<EntryList>
    var secLists: seq<EntryList>

    /** Both collections start empty. */
    constructor ()
      ensures priLists == [] && secLists == []
    {
      priLists, secLists := [], [];
    }

    /** `getGlobalLists`. */
    function Lists(primary: bool): seq<EntryList>
      reads this
    {
      if primary then priLists else secLists
    }

    method SetLists(primary: bool, lists: seq<EntryList>)
      modifies this
      ensures Lists(primary) == lists && Lists(!primary) == old(Lists(!primary))
    {
      if primary {
        priLists := lists;
      } else {
        secLists := lists;
      }
    }

    /**
     * `addUniprotList`: append one primary and one secondary list for a
     * chunk of regions and return the index of the new primary list. The
     * lists are populated only when `full` is set.
     */
    method AddList(regs: seq<Region>, nucleotide: bool, full: bool) returns (idx: nat)
      modifies this
      ensures priLists == old(priLists) + [NewList(regs, Primary, nucleotide, full)]
      ensures secLists == old(secLists) + [NewList(regs, Secondary, nucleotide, full)]
      ensures idx == |old(priLists)| && idx < |priLists|
    {
      var priCount, secCount, totalAlign := CountAlignments(regs);
      var pri, sec := NullEntries(priCount), NullEntries(secCount);
      if full {
        pri, sec := CollectEntries(regs, nucleotide);
      }
      priLists := priLists + [EntryList(pri, totalAlign as int - priCount)];
      secLists := secLists + [EntryList(sec, totalAlign as int - secCount)];
      idx := |priLists| - 1;
    }

    /**
     * `aggregateUniprotList`: sort list 0 in place with the comparator of
     * `kind` and collapse it into a view. List 0 must hold at least one
     * entry, and its entries must be raw (the comparators and `strcmp` read
     * every key).
     */
    method AggregateList(primary: bool, kind: ListKind) returns (view: seq<Entry>)
      requires |Lists(primary)| > 0 && |Lists(primary)[0].entries| > 0
      requires RawEntries(Lists(primary)[0].entries)
      modifies this
      ensures Lists(!primary) == old(Lists(!primary))
      ensures |Lists(primary)| == |old(Lists(primary))| && Lists(primary)[1..] == old(Lists(primary))[1..]
      ensures Lists(primary)[0].unalignedCount == old(Lists(primary))[0].unalignedCount
      ensures Sorting.IsSortOf(RankOrder(kind), old(Lists(primary))[0].entries, Lists(primary)[0].entries)
      ensures |Lists(primary)[0].entries| > 0
      ensures Runs(view, kind) == RunLengths(Keys(Lists(primary)[0].entries, kind))
      ensures ViewShape(view, Lists(primary)[0].entries[0], kind)
    {
      var lists := Lists(primary);
      var entries := lists[0].entries;
      RankOrderIsTotalPreorder(kind);
      Sorting.SortExists(RankOrder(kind), entries);
      var sorted :| Sorting.IsSortOf(RankOrder(kind), entries, sorted);
      assert |sorted| == |entries| by {
        assert |multiset(sorted)| == |multiset(entries)|;
      }
      forall i | 0 <= i < |sorted| ensures HasKey(sorted[i], kind) {
        assert sorted[i] in multiset(sorted);
        assert sorted[i] in entries;
        assert IsRaw(sorted[i]);
      }
      SetLists(primary, lists[0 := EntryList(sorted, lists[0].unalignedCount)]);
      view := CollapseSorted(sorted, kind);
    }

    /** One round of the aggregation loop of `prepareUniprotLists`: list 0
        still holds the entries `merged` in some order. */
    method AggregateRound(primary: bool, kind: ListKind, ghost merged: seq<Entry>) returns (view: seq<Entry>)
      requires |Lists(primary)| > 0 && |merged| > 0 && RawEntries(merged)
      requires multiset(Lists(primary)[0].entries) == multiset(merged)
      modifies this
      ensures Lists(!primary) == old(Lists(!primary))
      ensures |Lists(primary)| == |old(Lists(primary))| && Lists(primary)[1..] == old(Lists(primary))[1..]
      ensures Lists(primary)[0].unalignedCount == old(Lists(primary))[0].unalignedCount
      ensures multiset(Lists(primary)[0].entries) == multiset(merged)
      ensures Sorting.SortedBy(RankOrder(kind), Lists(primary)[0].entries)
      ensures Aggregated(merged, kind, view)
    {
      var entries := Lists(primary)[0].entries;
      assert |entries| > 0 by {
        assert |multiset(entries)| == |merged|;
      }
      forall e | e in entries ensures IsRaw(e) {
        assert e in multiset(merged);
      }
      view := AggregateList(primary, kind);
      ghost var sorted := Lists(primary)[0].entries;
      assert Sorting.IsSortOf(RankOrder(kind), merged, sorted);
    }

    /** The aggregation loop of `prepareUniprotLists`: the full, gene and
        organism views, one round each, over list 0 holding `merged`. */
    method AggregateViews(primary: bool, ghost merged: seq<Entry>) returns (views: seq<seq<Entry>>)
      requires |Lists(primary)| > 0 && |merged| > 0 && RawEntries(merged)
      requires multiset(Lists(primary)[0].entries) == multiset(merged)
      modifies this
      ensures Lists(!primary) == old(Lists(!primary))
      ensures |Lists(primary)| == |old(Lists(primary))| && Lists(primary)[1..] == old(Lists(primary))[1..]
      ensures Lists(primary)[0].unalignedCount == old(Lists(primary))[0].unalignedCount
      ensures Sorting.IsSortOf(RankOrder(OrganismList), merged, Lists(primary)[0].entries)
      ensures |views| == 3 && forall k :: 0 <= k < 3 ==> Aggregated(merged, KindAt(k), views[k])
    {
      views := [];
      for localIdx := 0 to 3
        invariant Lists(!primary) == old(Lists(!primary))
        invariant |Lists(primary)| == |old(Lists(primary))| && Lists(primary)[1..] == old(Lists(primary))[1..]
        invariant Lists(primary)[0].unalignedCount == old(Lists(primary))[0].unalignedCount
        invariant multiset(Lists(primary)[0].entries) == multiset(merged)
        invariant localIdx > 0 ==> Sorting.SortedBy(RankOrder(KindAt(localIdx - 1)), Lists(primary)[0].entries)
        invariant |views| == localIdx
        invariant forall k :: 0 <= k < localIdx ==> Aggregated(merged, KindAt(k), views[k])
      {
        var view := AggregateRound(primary, KindAt(localIdx), merged);
        AggregatedSnoc(merged, views, view);
        views := views + [view];
      }
    }

    /**
     * `prepareUniprotLists`. With no entries in any list of the collection,
     * nothing is aggregated and no views are produced; a collection without
     * any list receives one empty list. Otherwise list 0 receives the entries
     * of every list, the later lists are emptied, and the full, gene and
     * organism views are built one after the other, each sorting list 0
     * again.
     */
    method PrepareLists(primary: bool) returns (views: seq<seq<Entry>>)
      requires AllRaw(Lists(primary))
      modifies this
      ensures Lists(!primary) == old(Lists(!primary))
      ensures PreparedLists(old(Lists(primary)), Lists(primary))
      ensures views == [] <==> |Concat(old(Lists(primary)))| == 0
      ensures views != [] ==>
        |views| == 3 && forall k :: 0 <= k < 3 ==> Aggregated(Concat(old(Lists(primary))), KindAt(k), views[k])
    {
      var lists := Lists(primary);
      ghost var merged := Concat(lists);
      var maxEntries := TotalEntries(lists);
      if maxEntries == 0 {
        if lists == [] {
          SetLists(primary, [EntryList([], 0)]);
        }
        views := [];
        return;
      }
      var joined := ConcatenateLists(lists);
      SetLists(primary, joined);
      ConcatRaw(lists);
      views := AggregateViews(primary, merged);
      TailEmptied(Lists(primary), joined, lists);
    }

    /**
     * `prepareUniprotReport`: aggregate, then (full report only) build the
     * batches of identifiers to submit and join the service's text into the
     * full view, then rank every view with its comparator. `text` stands for
     * what the service returned, which must not be empty.
     */
    method PrepareReport(primary: bool, full: bool, text: string, maxSubmit: nat)
      returns (views: seq<seq<Entry>>, batches: seq<seq<string>>,
               ghost aggregated: seq<seq<Entry>>, ghost lines: seq<string>, ghost unranked: seq<seq<Entry>>,
               ghost ends: seq<nat>)
      requires AllRaw(Lists(primary))
      requires maxSubmit > 0
      requires full ==> text != []
      modifies this
      ensures Lists(!primary) == old(Lists(!primary))
      ensures PreparedLists(old(Lists(primary)), Lists(primary))
      ensures views == [] <==> |Concat(old(Lists(primary)))| == 0
      ensures views != [] ==>
        && |views| == 3 && |aggregated| == 3 && |unranked| == 3
        && (forall k :: 0 <= k < 3 ==> Aggregated(Concat(old(Lists(primary))), KindAt(k), aggregated[k]))
        && (forall k :: 0 <= k < 3 ==> Sorting.IsSortOf(RankOrder(KindAt(k)), unranked[k], views[k]))
        && (forall k :: 0 <= k < 3 ==> OccurrenceSum(views[k]) == |Concat(old(Lists(primary)))|)
        && unranked[1] == aggregated[1] && unranked[2] == aggregated[2]
        && IdsPresent(aggregated[0])
        && (!full ==> unranked[0] == aggregated[0] && batches == [])
        && (full ==>
              && Sorting.IsSortOf(LineOrder(), Lines(text), lines)
              && unranked[0] == Joined(aggregated[0], lines)
              && Batched(Ids(aggregated[0]), maxSubmit, batches, ends)
              && Flatten(batches) == Submitted(Ids(aggregated[0])))
    {
      ghost var merged := Concat(Lists(primary));
      views := PrepareLists(primary);
      aggregated, unranked, lines, batches, ends := views, views, [], [], [];
      if |views| == 0 {
        return;
      }
      views, batches, lines, unranked, ends := ReportViews(merged, views, full, text, maxSubmit);
    }
  }

  /**
   * The report stage of `prepareUniprotReport`, once the three views are
   * aggregated: for the full report build the batches of identifiers to
   * submit and join the service's text into the full view, then rank every
   * view with its comparator. Ranking and joining keep each view's total of
   * occurrences, which is the number of merged entries.
   */
  method ReportViews(ghost merged: seq<Entry>, aggregated: seq<seq<Entry>>, full: bool, text: string, maxSubmit: nat)
    returns (views: seq<seq<Entry>>, batches: seq<seq<string>>, ghost lines: seq<string>,
             ghost unranked: seq<seq<Entry>>, ghost ends: seq<nat>)
    requires |aggregated| == 3 && forall k :: 0 <= k < 3 ==> Aggregated(merged, KindAt(k), aggregated[k])
    requires maxSubmit > 0
    requires full ==> text != []
    ensures |views| == 3 && |unranked| == 3
    ensures forall k :: 0 <= k < 3 ==> Sorting.IsSortOf(RankOrder(KindAt(k)), unranked[k], views[k])
    ensures forall k :: 0 <= k < 3 ==> OccurrenceSum(views[k]) == |merged|
    ensures unranked[1] == aggregated[1] && unranked[2] == aggregated[2]
    ensures IdsPresent(aggregated[0])
    ensures !full ==> unranked[0] == aggregated[0] && batches == []
    ensures full ==>
      && Sorting.IsSortOf(LineOrder(), Lines(text), lines)
      && unranked[0] == Joined(aggregated[0], lines)
      && Batched(Ids(aggregated[0]), maxSubmit, batches, ends)
      && Flatten(batches) == Submitted(Ids(aggregated[0]))
  {
    batches, lines, ends := [], [], [];
    var fullView := aggregated[0];
    var toRank := aggregated;
    AggregatedIds(merged, fullView);
    if full {
      var queries;
      batches, ends, queries := BuildQueries(Ids(fullView), maxSubmit);
      var joinedView, sortedLines := JoinOnlineLists(fullView, text);
      toRank, lines := toRank[0 := joinedView], sortedLines;
      JoinedKeepsCounts(fullView, lines);
    }
    unranked := toRank;
    views := RankViews(toRank);
    forall k | 0 <= k < 3 ensures OccurrenceSum(views[k]) == |merged| {
      AggregatedTotal(merged, KindAt(k), aggregated[k]);
      OccurrenceSumPermutation(unranked[k], views[k]);
    }
  }
}

