/** `transferFromMultipleSources`: run the per-source step for every
    source and combine the results. The sources run concurrently, so the
    results arrive in some completion order; the model takes that order as
    an input (`order`, listing every source index once) and proves that
    only the order of the warnings depends on it. */
module MultiSource {
  import opened Browser
  import opened Text
  import opened SyncEngine

  /** The source indexes in configured order: 0, 1, ..., n - 1. */
  function Range(n: nat): (r: seq<nat>)
    ensures |r| == n && forall i :: 0 <= i < n ==> r[i] == i
  {
    if n == 0 then [] else Range(n - 1) + [n - 1]
  }

  predicate InBounds(idx: seq<nat>, n: nat) {
    forall k :: 0 <= k < |idx| ==> idx[k] < n
  }

  /** `order` lists every one of the `n` source indexes exactly once. */
  predicate IsCompletionOrder(order: seq<nat>, n: nat) {
    multiset(order) == multiset(Range(n)) && InBounds(order, n)
  }

  lemma OrderBounds(order: seq<nat>, n: nat)
    requires IsCompletionOrder(order, n)
    ensures |order| == n && InBounds(order, n)
  {
    assert |multiset(order)| == |multiset(Range(n))|;
  }

  /** The sum of `vals` over the indexes `idx`, taken in the order of `idx`. */
  function Sum(vals: seq<nat>, idx: seq<nat>): nat
    requires InBounds(idx, |vals|)
  {
    if idx == [] then 0 else Sum(vals, idx[..|idx| - 1]) + vals[idx[|idx| - 1]]
  }

  /** Taking one index out of the sum takes its value out. */
  lemma {:induction false} SumRemove(vals: seq<nat>, idx: seq<nat>, j: nat)
    requires InBounds(idx, |vals|) && j < |idx|
    ensures InBounds(idx[..j] + idx[j + 1..], |vals|)
    ensures Sum(vals, idx) == Sum(vals, idx[..j] + idx[j + 1..]) + vals[idx[j]]
  {
    var n := |idx|;
    var rest := idx[..j] + idx[j + 1..];
    if j < n - 1 {
      var init := idx[..n - 1];
      SumRemove(vals, init, j);
      assert rest[..|rest| - 1] == init[..j] + init[j + 1..];
      assert rest[|rest| - 1] == idx[n - 1];
    } else {
      assert rest == idx[..n - 1];
    }
  }

  /** Where a value occurs in a sequence it has an index, and taking that
      index out takes one copy out of the multiset. */
  lemma Occurrence(b: seq<nat>, x: nat) returns (j: nat)
    requires x in multiset(b)
    ensures j < |b| && b[j] == x
    ensures multiset(b[..j] + b[j + 1..]) == multiset(b) - multiset{x}
  {
    j :| 0 <= j < |b| && b[j] == x;
    assert b == b[..j] + [x] + b[j + 1..];
  }

  lemma LastOut(a: seq<nat>)
    requires a != []
    ensures multiset(a[..|a| - 1]) == multiset(a) - multiset{a[|a| - 1]}
  {
    assert a == a[..|a| - 1] + [a[|a| - 1]];
  }

  /** A sum does not depend on the order its indexes are listed in. */
  lemma {:induction false} SumPermutation(vals: seq<nat>, a: seq<nat>, b: seq<nat>)
    requires InBounds(a, |vals|) && InBounds(b, |vals|)
    requires multiset(a) == multiset(b)
    ensures Sum(vals, a) == Sum(vals, b)
  {
    if a == [] {
      assert |b| == |multiset(b)| == 0;
    } else {
      var x := a[|a| - 1];
      LastOut(a);
      var j := Occurrence(b, x);
      SumRemove(vals, b, j);
      SumPermutation(vals, a[..|a| - 1], b[..j] + b[j + 1..]);
    }
  }

  /** A sum of values over all sources is zero exactly when every value is. */
  lemma {:induction false} SumZero(vals: seq<nat>, n: nat)
    requires n <= |vals|
    ensures Sum(vals, Range(n)) == 0 <==> forall i :: 0 <= i < n ==> vals[i] == 0
  {
    if n > 0 {
      assert Range(n)[..n - 1] == Range(n - 1);
      SumZero(vals, n - 1);
    }
  }

  /** No source succeeded exactly when every source failed. */
  lemma NoSuccesses(outs: seq<SourceResult>)
    ensures Sum(Column(outs, SucceededOf), Range(|outs|)) == 0 <==> forall i :: 0 <= i < |outs| ==> outs[i].SourceFailed?
  {
    SumZero(Column(outs, SucceededOf), |outs|);
    forall i | 0 <= i < |outs| {
      ColumnsAt(outs, i);
    }
  }

  /** What each source contributes to the totals: its counts when it
      succeeded, nothing when it failed. */
  function CountOf(o: SourceResult): nat { if o.Transferred? then o.count else 0 }
  function CopiedOf(o: SourceResult): nat { if o.Transferred? then o.copied else 0 }
  function UpdatedOf(o: SourceResult): nat { if o.Transferred? then o.updated else 0 }
  function SkippedOf(o: SourceResult): nat { if o.Transferred? then o.skipped else 0 }
  function SucceededOf(o: SourceResult): nat { if o.Transferred? then 1 else 0 }

  function Column(outs: seq<SourceResult>, f: SourceResult -> nat): (col: seq<nat>)
    ensures |col| == |outs|
  {
    seq(|outs|, i requires 0 <= i < |outs| => f(outs[i]))
  }

  /** The `results` array: one (source URL, result) pair per source, in
      completion order. */
  function Completed(urls: seq<string>, outs: seq<SourceResult>, idx: seq<nat>): (rs: seq<(string, SourceResult)>)
    requires |urls| == |outs| && InBounds(idx, |outs|)
    ensures |rs| == |idx|
  {
    seq(|idx|, k requires 0 <= k < |idx| => (urls[idx[k]], outs[idx[k]]))
  }

  /** The error line of one result: `${sourceUrl}: ${error}` when it failed. */
  function LineOf(url: string, o: SourceResult): seq<string> {
    if o.SourceFailed? then [url + ": " + o.error] else []
  }

  /** The error lines of all failed results, in order. */
  function FailureLines(results: seq<(string, SourceResult)>): seq<string> {
    if results == [] then []
    else
      var (url, res) := results[|results| - 1];
      FailureLines(results[..|results| - 1]) + LineOf(url, res)
  }

  /** There is one failure line per source that did not succeed. */
  lemma {:induction false} FailureLineCount(urls: seq<string>, outs: seq<SourceResult>, idx: seq<nat>)
    requires |urls| == |outs| && InBounds(idx, |outs|)
    ensures |FailureLines(Completed(urls, outs, idx))| + Sum(Column(outs, SucceededOf), idx) == |idx|
  {
    if idx != [] {
      var n := |idx|;
      var results := Completed(urls, outs, idx);
      assert results[..n - 1] == Completed(urls, outs, idx[..n - 1]);
      var i := idx[n - 1];
      assert results[n - 1] == (urls[i], outs[i]);
      assert FailureLines(results) == FailureLines(results[..n - 1]) + LineOf(urls[i], outs[i]);
      assert Sum(Column(outs, SucceededOf), idx)
          == Sum(Column(outs, SucceededOf), idx[..n - 1]) + SucceededOf(outs[i]);
      FailureLineCount(urls, outs, idx[..n - 1]);
    }
  }

  function AllFailedMessage(lines: seq<string>): string {
    "Failed to transfer cookies from any source. Errors: " + Join(lines, "; ")
  }

  /** Summing the per-source contributions in completion order gives the
      sums in configured order. */
  lemma TotalsInConfiguredOrder(outs: seq<SourceResult>, order: seq<nat>)
    requires IsCompletionOrder(order, |outs|)
    ensures Sum(Column(outs, CountOf), order) == Sum(Column(outs, CountOf), Range(|outs|))
    ensures Sum(Column(outs, CopiedOf), order) == Sum(Column(outs, CopiedOf), Range(|outs|))
    ensures Sum(Column(outs, UpdatedOf), order) == Sum(Column(outs, UpdatedOf), Range(|outs|))
    ensures Sum(Column(outs, SkippedOf), order) == Sum(Column(outs, SkippedOf), Range(|outs|))
    ensures Sum(Column(outs, SucceededOf), order) == Sum(Column(outs, SucceededOf), Range(|outs|))
  {
    var n := |outs|;
    SumPermutation(Column(outs, CountOf), order, Range(n));
    SumPermutation(Column(outs, CopiedOf), order, Range(n));
    SumPermutation(Column(outs, UpdatedOf), order, Range(n));
    SumPermutation(Column(outs, SkippedOf), order, Range(n));
    SumPermutation(Column(outs, SucceededOf), order, Range(n));
  }

  /** The combined result of a multi-source transfer. */
  datatype MultiResult =
    | TransferFailed(error: string)
    | Aggregated(totalCookies: nat, totalCopied: nat, totalUpdated: nat, totalSkipped: nat,
                 sourceCount: nat, attempted: nat, warnings: seq<string>)

  /** The combination `transferFromMultipleSources` computes when the
      per-source results `outs` of the sources at `urls` complete in
      `order`. Its totals are the sums over the successful sources in
      configured order, whatever the completion order. */
  function Aggregate(urls: seq<string>, outs: seq<SourceResult>, order: seq<nat>): (r: MultiResult)
    requires |urls| == |outs| && IsCompletionOrder(order, |outs|)
    ensures r.TransferFailed? <==> forall i :: 0 <= i < |outs| ==> outs[i].SourceFailed?
    ensures r.TransferFailed? ==> r.error == AllFailedMessage(FailureLines(Completed(urls, outs, order)))
    ensures r.Aggregated? ==>
      && r.totalCookies == Sum(Column(outs, CountOf), Range(|outs|))
      && r.totalCopied == Sum(Column(outs, CopiedOf), Range(|outs|))
      && r.totalUpdated == Sum(Column(outs, UpdatedOf), Range(|outs|))
      && r.totalSkipped == Sum(Column(outs, SkippedOf), Range(|outs|))
      && r.sourceCount == Sum(Column(outs, SucceededOf), Range(|outs|)) > 0
      && r.attempted == |outs|
      && |r.warnings| == r.attempted - r.sourceCount
      && r.warnings == FailureLines(Completed(urls, outs, order))
  {
    OrderBounds(order, |outs|);
    TotalsInConfiguredOrder(outs, order);
    NoSuccesses(outs);
    FailureLineCount(urls, outs, order);
    var lines := FailureLines(Completed(urls, outs, order));
    var successes := Sum(Column(outs, SucceededOf), order);
    if successes == 0 then TransferFailed(AllFailedMessage(lines))
    else Aggregated(Sum(Column(outs, CountOf), order), Sum(Column(outs, CopiedOf), order),
                    Sum(Column(outs, UpdatedOf), order), Sum(Column(outs, SkippedOf), order),
                    successes, |urls|, lines)
  }

  /** Two completion orders of the same runs agree on everything but the
      order of the warnings. */
  lemma {:induction false} CompletionOrderIrrelevant(urls: seq<string>, outs: seq<SourceResult>, o1: seq<nat>, o2: seq<nat>)
    requires |urls| == |outs| && IsCompletionOrder(o1, |outs|) && IsCompletionOrder(o2, |outs|)
    ensures Aggregate(urls, outs, o1).TransferFailed? == Aggregate(urls, outs, o2).TransferFailed?
    ensures Aggregate(urls, outs, o1).Aggregated? ==>
      Aggregate(urls, outs, o1).(warnings := []) == Aggregate(urls, outs, o2).(warnings := [])
    ensures multiset(FailureLines(Completed(urls, outs, o1))) == multiset(FailureLines(Completed(urls, outs, o2)))
  {
    OrderBounds(o1, |outs|);
    OrderBounds(o2, |outs|);
    FailureLinesPermutation(urls, outs, o1, o2);
  }

  /** The failure lines of two completion orders are the same lines. */
  lemma {:induction false} FailureLinesPermutation(urls: seq<string>, outs: seq<SourceResult>, a: seq<nat>, b: seq<nat>)
    requires |urls| == |outs| && InBounds(a, |outs|) && InBounds(b, |outs|)
    requires multiset(a) == multiset(b)
    ensures multiset(FailureLines(Completed(urls, outs, a))) == multiset(FailureLines(Completed(urls, outs, b)))
  {
    if a == [] {
      assert |b| == |multiset(b)| == 0;
    } else {
      var n := |a|;
      var x := a[n - 1];
      LastOut(a);
      var j := Occurrence(b, x);
      FailureLinesPermutation(urls, outs, a[..n - 1], b[..j] + b[j + 1..]);
      FailureLinesLast(urls, outs, a);
      FailureLinesRemove(urls, outs, b, j);
    }
  }

  /** The last completed source contributes the last failure line, if any. */
  lemma FailureLinesLast(urls: seq<string>, outs: seq<SourceResult>, a: seq<nat>)
    requires |urls| == |outs| && InBounds(a, |outs|) && a != []
    ensures InBounds(a[..|a| - 1], |outs|)
    ensures FailureLines(Completed(urls, outs, a))
         == FailureLines(Completed(urls, outs, a[..|a| - 1])) + LineOf(urls[a[|a| - 1]], outs[a[|a| - 1]])
  {
    var n := |a|;
    var ca := Completed(urls, outs, a);
    assert ca[..n - 1] == Completed(urls, outs, a[..n - 1]);
  }

  lemma CompletedAppend(urls: seq<string>, outs: seq<SourceResult>, a: seq<nat>, b: seq<nat>)
    requires |urls| == |outs| && InBounds(a, |outs|) && InBounds(b, |outs|)
    ensures InBounds(a + b, |outs|)
    ensures Completed(urls, outs, a + b) == Completed(urls, outs, a) + Completed(urls, outs, b)
  {
  }

  lemma {:induction false} FailureLinesAppend(a: seq<(string, SourceResult)>, b: seq<(string, SourceResult)>)
    ensures FailureLines(a + b) == FailureLines(a) + FailureLines(b)
  {
    if b == [] {
      assert a + b == a;
    } else {
      assert (a + b)[..|a + b| - 1] == a + b[..|b| - 1];
      FailureLinesAppend(a, b[..|b| - 1]);
    }
  }

  /** The failure lines around position `j`: those before it, its own, and
      those after it. */
  lemma FailureLinesAround(urls: seq<string>, outs: seq<SourceResult>, idx: seq<nat>, j: nat)
    requires |urls| == |outs| && InBounds(idx, |outs|) && j < |idx|
    ensures InBounds(idx[..j], |outs|) && InBounds(idx[j + 1..], |outs|) && InBounds(idx[..j] + idx[j + 1..], |outs|)
    ensures FailureLines(Completed(urls, outs, idx))
         == FailureLines(Completed(urls, outs, idx[..j])) + LineOf(urls[idx[j]], outs[idx[j]])
            + FailureLines(Completed(urls, outs, idx[j + 1..]))
    ensures FailureLines(Completed(urls, outs, idx[..j] + idx[j + 1..]))
         == FailureLines(Completed(urls, outs, idx[..j])) + FailureLines(Completed(urls, outs, idx[j + 1..]))
  {
    var pre, mid, post := idx[..j], [idx[j]], idx[j + 1..];
    assert idx == pre + mid + post;
    CompletedAppend(urls, outs, pre, mid);
    CompletedAppend(urls, outs, pre + mid, post);
    CompletedAppend(urls, outs, pre, post);
    var cp, cm, cq := Completed(urls, outs, pre), Completed(urls, outs, mid), Completed(urls, outs, post);
    FailureLinesAppend(cp, cm);
    FailureLinesAppend(cp + cm, cq);
    FailureLinesAppend(cp, cq);
    assert cm == [] + cm;
    assert FailureLines(cm) == LineOf(urls[idx[j]], outs[idx[j]]);
  }

  lemma FailureLinesRemove(urls: seq<string>, outs: seq<SourceResult>, idx: seq<nat>, j: nat)
    requires |urls| == |outs| && InBounds(idx, |outs|) && j < |idx|
    ensures InBounds(idx[..j] + idx[j + 1..], |outs|)
    ensures multiset(FailureLines(Completed(urls, outs, idx)))
         == multiset(FailureLines(Completed(urls, outs, idx[..j] + idx[j + 1..]))) + multiset(LineOf(urls[idx[j]], outs[idx[j]]))
  {
    FailureLinesAround(urls, outs, idx, j);
    var before := FailureLines(Completed(urls, outs, idx[..j]));
    var after := FailureLines(Completed(urls, outs, idx[j + 1..]));
    var own := LineOf(urls[idx[j]], outs[idx[j]]);
    assert multiset(before + own + after) == multiset(before + after) + multiset(own);
  }

  lemma ColumnsAt(outs: seq<SourceResult>, i: nat)
    requires i < |outs|
    ensures Column(outs, CountOf)[i] == CountOf(outs[i]) && Column(outs, CopiedOf)[i] == CopiedOf(outs[i])
    ensures Column(outs, UpdatedOf)[i] == UpdatedOf(outs[i]) && Column(outs, SkippedOf)[i] == SkippedOf(outs[i])
    ensures Column(outs, SucceededOf)[i] == SucceededOf(outs[i])
  {
  }

  /** One more completed source adds its pair to the results and its
      values to the running totals. */
  lemma CompletionStep(urls: seq<string>, outs: seq<SourceResult>, order: seq<nat>, k: nat)
    requires |urls| == |outs| && InBounds(order, |outs|) && k < |order|
    ensures var i, prefix, next := order[k], order[..k], order[..k + 1];
      && InBounds(prefix, |outs|) && InBounds(next, |outs|) && i < |outs|
      && Completed(urls, outs, next) == Completed(urls, outs, prefix) + [(urls[i], outs[i])]
      && Sum(Column(outs, CountOf), next) == Sum(Column(outs, CountOf), prefix) + CountOf(outs[i])
      && Sum(Column(outs, CopiedOf), next) == Sum(Column(outs, CopiedOf), prefix) + CopiedOf(outs[i])
      && Sum(Column(outs, UpdatedOf), next) == Sum(Column(outs, UpdatedOf), prefix) + UpdatedOf(outs[i])
      && Sum(Column(outs, SkippedOf), next) == Sum(Column(outs, SkippedOf), prefix) + SkippedOf(outs[i])
      && Sum(Column(outs, SucceededOf), next) == Sum(Column(outs, SucceededOf), prefix) + SucceededOf(outs[i])
  {
    assert order[..k + 1][..k] == order[..k];
    ColumnsAt(outs, order[k]);
  }

  function Urls(runs: seq<SourceRun>): (urls: seq<string>)
    ensures |urls| == |runs|
  {
    seq(|runs|, i requires 0 <= i < |runs| => runs[i].url)
  }

  function Outcomes(runs: seq<SourceRun>, target: TargetUrl, sourceStoreId: Option<string>, store: SetDetails -> Attempt): (outs: seq<SourceResult>)
    ensures |outs| == |runs|
  {
    seq(|runs|, i requires 0 <= i < |runs| => Outcome(runs[i], target, sourceStoreId, store))
  }

  /** Sums of values that split into two parts split the same way. */
  lemma {:induction false} CountSplits(outs: seq<SourceResult>, idx: seq<nat>)
    requires InBounds(idx, |outs|)
    requires forall i :: 0 <= i < |outs| && outs[i].Transferred? ==> outs[i].count == outs[i].copied + outs[i].updated
    ensures Sum(Column(outs, CountOf), idx) == Sum(Column(outs, CopiedOf), idx) + Sum(Column(outs, UpdatedOf), idx)
  {
    if idx != [] {
      ColumnsAt(outs, idx[|idx| - 1]);
      CountSplits(outs, idx[..|idx| - 1]);
    }
  }

  /** Every cookie counted as transferred was either copied or updated. */
  lemma TransferredIsCopiedPlusUpdated(runs: seq<SourceRun>, target: TargetUrl, sourceStoreId: Option<string>,
                                       store: SetDetails -> Attempt, order: seq<nat>)
    requires IsCompletionOrder(order, |runs|)
    ensures var r := Aggregate(Urls(runs), Outcomes(runs, target, sourceStoreId, store), order);
      r.Aggregated? ==> r.totalCookies == r.totalCopied + r.totalUpdated
  {
    CountSplits(Outcomes(runs, target, sourceStoreId, store), Range(|runs|));
  }

  /** `transferFromMultipleSources`: the per-source results complete in
      `order`; the running totals only count the successful ones. */
  method TransferFromMultipleSources(runs: seq<SourceRun>, target: TargetUrl, sourceStoreId: Option<string>,
                                     store: SetDetails -> Attempt, order: seq<nat>)
    returns (r: MultiResult)
    requires IsCompletionOrder(order, |runs|)
    ensures r == Aggregate(Urls(runs), Outcomes(runs, target, sourceStoreId, store), order)
  {
    OrderBounds(order, |runs|);
    ghost var urls := Urls(runs);
    ghost var outs := Outcomes(runs, target, sourceStoreId, store);
    var results: seq<(string, SourceResult)> := [];
    var totalCookies, totalCopied, totalUpdated, totalSkipped, successfulSources := 0, 0, 0, 0, 0;
    for k := 0 to |order|
      invariant results == Completed(urls, outs, order[..k])
      invariant totalCookies == Sum(Column(outs, CountOf), order[..k])
      invariant totalCopied == Sum(Column(outs, CopiedOf), order[..k])
      invariant totalUpdated == Sum(Column(outs, UpdatedOf), order[..k])
      invariant totalSkipped == Sum(Column(outs, SkippedOf), order[..k])
      invariant successfulSources == Sum(Column(outs, SucceededOf), order[..k])
    {
      var i := order[k];
      var res, _ := TransferCookiesFromSource(runs[i], target, sourceStoreId, store);
      assert res == outs[i];
      CompletionStep(urls, outs, order, k);
      results := results + [(runs[i].url, res)];
      if res.Transferred? {
        totalCookies := totalCookies + res.count;
        totalCopied := totalCopied + res.copied;
        totalUpdated := totalUpdated + res.updated;
        totalSkipped := totalSkipped + res.skipped;
        successfulSources := successfulSources + 1;
      }
    }
    assert order[..|order|] == order;
    var errors := FailureLines(results);
    if successfulSources == 0 {
      r := TransferFailed(AllFailedMessage(errors));
    } else {
      r := Aggregated(totalCookies, totalCopied, totalUpdated, totalSkipped, successfulSources, |runs|, errors);
    }
  }
}
