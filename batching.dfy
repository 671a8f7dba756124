/**
 * How `retrieveUniprotOnline` groups the identifiers of the full view into
 * requests: only identifiers containing `_` are submitted, in view order, at
 * most `queryCount` per request, where `queryCount` is the smaller of the
 * number of entries and `UNIPROT_MAX_SUBMIT`. Each request's query string is
 * the identifiers, each followed by a space. The network exchange itself is
 * not part of this model.
 */
module Batching {
  import opened CStrings

  /** The identifiers that get submitted, in order. */
  function Submitted(ids: seq<string>): seq<string> {
    if ids == [] then []
    else Submitted(ids[..|ids| - 1]) + (if '_' in ids[|ids| - 1] then [ids[|ids| - 1]] else [])
  }

  /** The batches one after the other. */
  function Flatten(batches: seq<seq<string>>): seq<string> {
    if batches == [] then [] else Flatten(batches[..|batches| - 1]) + batches[|batches| - 1]
  }

  /** The query string `sprintf` builds for one batch. */
  function QueryString(batch: seq<string>): string {
    if batch == [] then [] else QueryString(batch[..|batch| - 1]) + batch[|batch| - 1] + " "
  }

  /** `queryCount`. */
  function QueryCount(entryCount: nat, maxSubmit: nat): nat {
    if entryCount < maxSubmit then entryCount else maxSubmit
  }

  /** Every submitted identifier is one that contains `_`, and every
      identifier with `_` is submitted. */
  lemma {:induction false} SubmittedMeaning(ids: seq<string>)
    ensures forall x :: x in Submitted(ids) <==> x in ids && '_' in x
    ensures |Submitted(ids)| <= |ids|
  {
    if ids != [] {
      var n := |ids| - 1;
      SubmittedMeaning(ids[..n]);
      assert ids == ids[..n] + [ids[n]];
    }
  }

  /** The service reads the query string as words separated by spaces: when
      no identifier holds a space, those words are the batch (and an empty
      word after the trailing space). */
  lemma {:induction false} QueryStringWords(batch: seq<string>)
    requires forall i :: 0 <= i < |batch| ==> ' ' !in batch[i]
    ensures Split(QueryString(batch), ' ') == batch + [[]]
  {
    if batch != [] {
      var n := |batch| - 1;
      var prev := QueryString(batch[..n]);
      var word := batch[n];
      assert Split(prev + word, ' ') == batch[..n] + [word] by {
        QueryStringWords(batch[..n]);
        SplitAppendPlain(prev, word, ' ');
        var ps := batch[..n] + [[]];
        assert ps[..n] == batch[..n] && ps[n] + word == word;
      }
      assert Split(QueryString(batch), ' ') == Split(prev + word, ' ') + [[]] by {
        assert QueryString(batch) == (prev + word) + [' '];
        SplitSnoc(prev + word, ' ', ' ');
      }
      assert batch[..n] + [word] == batch;
    }
  }

  lemma SubmittedStep(ids: seq<string>, i: nat)
    requires i < |ids|
    ensures Submitted(ids[..i + 1]) == Submitted(ids[..i]) + (if '_' in ids[i] then [ids[i]] else [])
  {
    assert ids[..i + 1][..i] == ids[..i];
  }

  lemma FlattenSnoc(batches: seq<seq<string>>, b: seq<string>)
    ensures Flatten(batches + [b]) == Flatten(batches) + b
  {
    assert (batches + [b])[..|batches|] == batches;
  }

  /** Where the round ending at `ends[k]` began: the start of the entries, or
      the end of the round before. */
  function BatchStart(ends: seq<nat>, k: nat): nat
    requires k < |ends|
  {
    if k == 0 then 0 else ends[k - 1]
  }

  /**
   * One round of the request loop over `ids[start..end]`: it takes exactly the
   * identifiers with `_` there, never more than `queryCount` of them; it ends
   * before the last entry only when it is full, and when it is full it ended
   * right after the identifier that filled it.
   */
  predicate Round(ids: seq<string>, queryCount: nat, start: nat, batch: seq<string>, end: nat) {
    && start < end <= |ids|
    && Submitted(ids[..start]) + batch == Submitted(ids[..end])
    && |batch| <= queryCount
    && (end < |ids| ==> |batch| == queryCount)
    && (|batch| == queryCount ==> '_' in ids[end - 1])
  }

  /** Rounds one after the other from the first entry on, each a `Round`
      starting where the one before ended. */
  predicate Rounds(ids: seq<string>, queryCount: nat, batches: seq<seq<string>>, ends: seq<nat>) {
    && |ends| == |batches|
    && forall k :: 0 <= k < |batches| ==> Round(ids, queryCount, BatchStart(ends, k), batches[k], ends[k])
  }

  /** The rounds of the request loop: `Rounds` from the first entry to the
      last; no entries, no round. */
  predicate Batched(ids: seq<string>, maxSubmit: nat, batches: seq<seq<string>>, ends: seq<nat>) {
    && Rounds(ids, QueryCount(|ids|, maxSubmit), batches, ends)
    && (ids == [] <==> batches == [])
    && (batches != [] ==> ends[|ends| - 1] == |ids|)
  }

  /** The inner loop of the request loop: from `entryIdx` on, take
      identifiers with `_` until `queryCount` are taken or the entries run
      out. */
  method FillBatch(ids: seq<string>, entryIdx: nat, queryCount: nat) returns (batch: seq<string>, query: string, next: nat)
    requires entryIdx < |ids| && queryCount > 0
    ensures Round(ids, queryCount, entryIdx, batch, next)
    ensures query == QueryString(batch)
  {
    batch, query := [], [];
    var queryIdx := 0;
    next := entryIdx;
    while queryIdx < queryCount && next < |ids|
      invariant entryIdx <= next <= |ids|
      invariant next == entryIdx ==> queryIdx == 0
      invariant queryIdx == |batch| <= queryCount
      invariant queryIdx == queryCount ==> '_' in ids[next - 1]
      invariant Submitted(ids[..entryIdx]) + batch == Submitted(ids[..next])
      invariant query == QueryString(batch)
      decreases |ids| - next
    {
      SubmittedStep(ids, next);
      var u := FindChar(ids[next], '_');
      if u >= 0 {
        assert (batch + [ids[next]])[..|batch|] == batch;
        query := query + ids[next] + " ";
        batch := batch + [ids[next]];
        queryIdx := queryIdx + 1;
      }
      next := next + 1;
    }
  }

  lemma RoundKept(ids: seq<string>, q: nat, batches: seq<seq<string>>, ends: seq<nat>, batch: seq<string>, next: nat, k: nat)
    requires |ends| == |batches| && k < |batches|
    requires Round(ids, q, BatchStart(ends, k), batches[k], ends[k])
    ensures Round(ids, q, BatchStart(ends + [next], k), (batches + [batch])[k], (ends + [next])[k])
  {
    assert BatchStart(ends + [next], k) == BatchStart(ends, k);
    assert (batches + [batch])[k] == batches[k];
    assert (ends + [next])[k] == ends[k];
  }

  lemma BatchedSnoc(ids: seq<string>, q: nat, batches: seq<seq<string>>, ends: seq<nat>, batch: seq<string>, next: nat)
    requires Rounds(ids, q, batches, ends)
    requires Round(ids, q, if ends == [] then 0 else ends[|ends| - 1], batch, next)
    ensures Rounds(ids, q, batches + [batch], ends + [next])
  {
    forall k | 0 <= k < |batches| + 1
      ensures Round(ids, q, BatchStart(ends + [next], k), (batches + [batch])[k], (ends + [next])[k])
    {
      if k < |batches| {
        RoundKept(ids, q, batches, ends, batch, next, k);
      } else {
        RoundAppended(ids, q, batches, ends, batch, next);
      }
    }
  }

  lemma RoundAppended(ids: seq<string>, q: nat, batches: seq<seq<string>>, ends: seq<nat>, batch: seq<string>, next: nat)
    requires |ends| == |batches|
    requires Round(ids, q, if ends == [] then 0 else ends[|ends| - 1], batch, next)
    ensures Round(ids, q, BatchStart(ends + [next], |batches|), (batches + [batch])[|batches|], (ends + [next])[|batches|])
  {
    assert BatchStart(ends + [next], |batches|) == if ends == [] then 0 else ends[|ends| - 1];
    assert (batches + [batch])[|batches|] == batch;
    assert (ends + [next])[|batches|] == next;
  }

  /**
   * The request loop of `retrieveUniprotOnline`, without the network: the
   * batches it submits, where each round ended, and the query strings. The
   * rounds partition the entries (`Batched`), so every batch holds at most
   * `queryCount` identifiers, all but the last exactly that many, and
   * together exactly the submitted identifiers in order. A round that finds
   * no identifier with `_` still sends an empty query string.
   */
  method BuildQueries(ids: seq<string>, maxSubmit: nat)
    returns (batches: seq<seq<string>>, ends: seq<nat>, queries: seq<string>)
    requires maxSubmit > 0
    ensures Batched(ids, maxSubmit, batches, ends)
    ensures Flatten(batches) == Submitted(ids)
    ensures forall k :: 0 <= k < |batches| - 1 ==> |batches[k]| == QueryCount(|ids|, maxSubmit)
    ensures |queries| == |batches| && forall k :: 0 <= k < |batches| ==> queries[k] == QueryString(batches[k])
  {
    var queryCount := QueryCount(|ids|, maxSubmit);
    batches, ends, queries := [], [], [];
    var entryIdx := 0;
    while entryIdx < |ids|
      invariant entryIdx <= |ids|
      invariant Rounds(ids, queryCount, batches, ends)
      invariant entryIdx == 0 <==> batches == []
      invariant batches != [] ==> ends[|ends| - 1] == entryIdx
      invariant Flatten(batches) == Submitted(ids[..entryIdx])
      invariant QueryStrings(batches, queries)
      decreases |ids| - entryIdx
    {
      var batch, query, next := FillBatch(ids, entryIdx, queryCount);
      FlattenSnoc(batches, batch);
      BatchedSnoc(ids, queryCount, batches, ends, batch, next);
      assert QueryStrings(batches + [batch], queries + [query]);
      batches, ends := batches + [batch], ends + [next];
      queries := queries + [query];
      entryIdx := next;
    }
    assert ids[..entryIdx] == ids;
    RoundsFull(ids, queryCount, batches, ends);
  }

  /** The query string of each batch, in order. */
  predicate QueryStrings(batches: seq<seq<string>>, queries: seq<string>) {
    |queries| == |batches| && forall k :: 0 <= k < |batches| ==> queries[k] == QueryString(batches[k])
  }

  /** Every round but the last one is full, since only a full round ends
      before the entries do. */
  lemma RoundsFull(ids: seq<string>, q: nat, batches: seq<seq<string>>, ends: seq<nat>)
    requires Rounds(ids, q, batches, ends)
    ensures forall k :: 0 <= k < |batches| - 1 ==> |batches[k]| == q
  {
    forall k | 0 <= k < |batches| - 1 ensures |batches[k]| == q {
      assert BatchStart(ends, k + 1) == ends[k];
      assert Round(ids, q, BatchStart(ends, k + 1), batches[k + 1], ends[k + 1]);
    }
  }

  /** When every identifier holds `_`, every one is submitted. */
  lemma {:induction false} SubmittedAll(ids: seq<string>)
    requires forall i :: 0 <= i < |ids| ==> '_' in ids[i]
    ensures Submitted(ids) == ids
  {
    if ids != [] {
      var n := |ids| - 1;
      SubmittedAll(ids[..n]);
      assert ids[..n] + [ids[n]] == ids;
    }
  }

  /** Of four identifiers, the one without `_` is not submitted. */
  lemma SubmittedExample()
    ensures Submitted(["A_HUMAN", "P12345", "B_MOUSE", "C_RAT"]) == ["A_HUMAN", "B_MOUSE", "C_RAT"]
  {
    var ids := ["A_HUMAN", "P12345", "B_MOUSE", "C_RAT"];
    assert '_' in ids[0] by { assert ids[0][1] == '_'; }
    assert '_' !in ids[1];
    assert '_' in ids[2] by { assert ids[2][1] == '_'; }
    assert '_' in ids[3] by { assert ids[3][1] == '_'; }
    assert ids[..0] == [];
    SubmittedStep(ids, 0);
    SubmittedStep(ids, 1);
    SubmittedStep(ids, 2);
    SubmittedStep(ids, 3);
    assert ids[..4] == ids;
  }

  /** The identifiers of the batching example, all holding `_`: every prefix
      is submitted whole. */
  lemma ThreeIdsSubmitted(i: nat)
    requires i <= 3
    ensures Submitted(["A_HUMAN", "B_MOUSE", "C_RAT"][..i]) == ["A_HUMAN", "B_MOUSE", "C_RAT"][..i]
  {
    var ids := ["A_HUMAN", "B_MOUSE", "C_RAT"];
    assert '_' in ids[0] by { assert ids[0][1] == '_'; }
    assert '_' in ids[1] by { assert ids[1][1] == '_'; }
    assert '_' in ids[2] by { assert ids[2][1] == '_'; }
    SubmittedAll(ids[..i]);
  }

  lemma ExampleFirstRound(batch: seq<string>, end: nat)
    requires Round(["A_HUMAN", "B_MOUSE", "C_RAT"], 2, 0, batch, end)
    ensures end == 2 && batch == ["A_HUMAN", "B_MOUSE"]
  {
    var ids := ["A_HUMAN", "B_MOUSE", "C_RAT"];
    ThreeIdsSubmitted(0);
    ThreeIdsSubmitted(end);
    assert batch == ids[..end];
    assert ids[..2] == ["A_HUMAN", "B_MOUSE"];
  }

  lemma ExampleSecondRound(batch: seq<string>, end: nat)
    requires Round(["A_HUMAN", "B_MOUSE", "C_RAT"], 2, 2, batch, end)
    ensures end == 3 && batch == ["C_RAT"]
  {
    var ids := ["A_HUMAN", "B_MOUSE", "C_RAT"];
    ThreeIdsSubmitted(2);
    ThreeIdsSubmitted(3);
    assert ids[..2] + batch == ids;
    assert batch == ids[2..];
  }

  /** Three identifiers with `_` and at most two per request: the only
      outcome the request loop allows is a request of two followed by a
      request of one. */
  lemma BatchingExample(batches: seq<seq<string>>, ends: seq<nat>)
    requires Batched(["A_HUMAN", "B_MOUSE", "C_RAT"], 2, batches, ends)
    ensures batches == [["A_HUMAN", "B_MOUSE"], ["C_RAT"]] && ends == [2, 3]
    ensures QueryString(batches[0]) == "A_HUMAN B_MOUSE "
  {
    assert QueryCount(3, 2) == 2;
    ExampleFirstRound(batches[0], ends[0]);
    assert |batches| >= 2;
    assert BatchStart(ends, 1) == 2;
    ExampleSecondRound(batches[1], ends[1]);
    assert |batches| == 2;
    assert batches == [batches[0], batches[1]] && ends == [ends[0], ends[1]];
    var b := batches[0];
    assert b[..1] == ["A_HUMAN"] && b[..1][..0] == [];
  }

  /** At one identifier per request, a round over entries without `_` still
      happens and sends an empty query string. */
  lemma TrailingEmptyRequest(batches: seq<seq<string>>, ends: seq<nat>)
    requires Batched(["A_X", "P"], 1, batches, ends)
    ensures batches == [["A_X"], []] && ends == [1, 2]
    ensures QueryString(batches[1]) == ""
  {
    var ids := ["A_X", "P"];
    assert '_' in ids[0] by { assert ids[0][1] == '_'; }
    assert '_' !in ids[1];
    assert QueryCount(|ids|, 1) == 1;
    assert ids[..0] == [];
    SubmittedStep(ids, 0);
    SubmittedStep(ids, 1);
    assert Submitted(ids[..1]) == ["A_X"] && Submitted(ids[..2]) == ["A_X"];
    assert Round(ids, 1, 0, batches[0], ends[0]);
    assert batches[0] == ["A_X"];
    assert ends[0] == 1;
    assert |batches| >= 2;
    assert Round(ids, 1, 1, batches[1], ends[1]);
    assert ends[1] == 2;
    assert batches[1] == [];
    assert |batches| == 2;
  }
}
