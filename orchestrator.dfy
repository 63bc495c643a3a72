/** `performAutoTransfer` and `performManualTransfer`: pick the enabled
    sources, run the multi-source transfer, then record the transfer and
    tell the local tabs how it went. The notifications are modelled as the
    list of messages sent; the id of the start notification, which the
    content script returns, is an input. */
module Orchestrator {
  import opened Browser
  import opened Storage
  import opened History
  import opened SyncEngine
  import opened MultiSource

  /** The URLs of the enabled sources, in configured order. */
  function EnabledUrls(s: seq<SourceEntry>): (urls: seq<string>)
    ensures |urls| <= |s|
    ensures forall u :: u in urls <==> exists i :: 0 <= i < |s| && s[i].enabled && s[i].url == u
  {
    if s == [] then []
    else
      var rest := EnabledUrls(s[..|s| - 1]);
      var last := s[|s| - 1];
      assert forall i :: 0 <= i < |s| - 1 ==> s[..|s| - 1][i] == s[i];
      if last.enabled then rest + [last.url] else rest
  }

  /** The URLs keep the configured order: those of a prefix, then those of
      the rest. */
  lemma {:induction false} EnabledInOrder(a: seq<SourceEntry>, b: seq<SourceEntry>)
    ensures EnabledUrls(a + b) == EnabledUrls(a) + EnabledUrls(b)
  {
    if b == [] {
      assert a + b == a;
    } else {
      var n := |b| - 1;
      assert (a + b)[..|a + b| - 1] == a + b[..n];
      assert (a + b)[|a + b| - 1] == b[n];
      EnabledInOrder(a, b[..n]);
    }
  }

  /** A single entry contributes its URL exactly when it is enabled. */
  lemma EnabledOne(e: SourceEntry)
    ensures EnabledUrls([e]) == if e.enabled then [e.url] else []
  {
    assert [e][..0] == [];
  }

  /** A message to the content scripts of the local tabs. */
  datatype Notice =
    | ShowStart(sourceCount: nat, kind: Trigger)
    | ShowComplete(totalCookies: nat, copied: nat, updated: nat, skipped: nat, sourceCount: nat, id: Option<nat>)
    | ShowError(error: string, id: Option<nat>)
    | Hide(notificationId: nat)

  /** `notificationResponse?.notificationId` is truthy. */
  predicate HasId(handle: Option<nat>) {
    handle.Some? && handle.value != 0
  }

  /** What follows a finished multi-source transfer: the history entry to
      save, if any, and the last notice, if any. */
  datatype Conclusion = Conclusion(record: Option<TransferRecord>, notice: Option<Notice>)

  /** The result branching shared by both triggers. A transfer is recorded
      exactly when it succeeded and moved at least one cookie; a success
      that moved nothing updates the start notice (automatic) or hides it
      (manual), and only when there is one to update. */
  function Conclude(result: MultiResult, kind: Trigger, handle: Option<nat>, now: int): (c: Conclusion)
    ensures c.record.Some? <==> result.Aggregated? && result.totalCookies > 0
    ensures c.record.Some? ==>
      c.record.value == TransferRecord(result.sourceCount, result.totalCookies, result.totalSkipped, now, kind)
    ensures c.record.Some? ==>
      c.notice == Some(ShowComplete(result.totalCookies, result.totalCopied, result.totalUpdated,
                                    result.totalSkipped, result.sourceCount, handle))
    ensures result.TransferFailed? ==>
      c.notice == Some(ShowError(if result.error == "" then "Transfer failed" else result.error, handle))
    ensures c.notice.None? <==> result.Aggregated? && result.totalCookies == 0 && !HasId(handle)
    ensures result.Aggregated? && result.totalCookies == 0 && HasId(handle) ==>
      c.notice == Some(if kind == Auto then ShowComplete(0, 0, 0, result.totalSkipped, result.sourceCount, handle)
                       else Hide(handle.value))
  {
    match result
    case TransferFailed(error) =>
      Conclusion(None, Some(ShowError(if error == "" then "Transfer failed" else error, handle)))
    case Aggregated(totalCookies, totalCopied, totalUpdated, totalSkipped, sourceCount, _, _) =>
      if totalCookies > 0 then
        Conclusion(Some(TransferRecord(sourceCount, totalCookies, totalSkipped, now, kind)),
                   Some(ShowComplete(totalCookies, totalCopied, totalUpdated, totalSkipped, sourceCount, handle)))
      else if HasId(handle) then
        Conclusion(None, Some(if kind == Auto then ShowComplete(0, 0, 0, totalSkipped, sourceCount, handle)
                              else Hide(handle.value)))
      else Conclusion(None, None)
  }

  /** The history after a conclusion. */
  function Recorded(list: seq<TransferRecord>, c: Conclusion): seq<TransferRecord> {
    if c.record.Some? then PushRecent(list, c.record.value) else list
  }

  /** The messages sent after the start notice. */
  function Tail(c: Conclusion): seq<Notice> {
    if c.notice.Some? then [c.notice.value] else []
  }

  const ManualTargetUrl := "http://localhost:3000"
  const NoSourcesMessage := "No enabled source URLs found. Please add some production URLs first."

  /** `performAutoTransfer(localhostUrl, targetStoreId, isIncognitoTarget)`.
      `runs` are what the enabled sources yield, in configured order;
      `order` is the order their transfers complete in. */
  method PerformAutoTransfer(local: LocalStore, localhostUrl: string, parsed: ParsedUrl, targetStoreId: Option<string>,
                             sourceStoreId: Option<string>, store: SetDetails -> Attempt,
                             runs: seq<SourceRun>, order: seq<nat>, handle: Option<nat>, now: int)
    returns (notices: seq<Notice>)
    requires Urls(runs) == EnabledUrls(local.sourceUrls)
    requires IsCompletionOrder(order, |runs|)
    modifies local
    ensures runs == [] ==> notices == [] && local.recentTransfers == old(local.recentTransfers)
    ensures runs != [] ==>
      var c := Conclude(Aggregate(Urls(runs), Outcomes(runs, TargetUrl(localhostUrl, parsed, targetStoreId), sourceStoreId, store), order),
                        Auto, handle, now);
      && notices == [ShowStart(|runs|, Auto)] + Tail(c)
      && local.recentTransfers == Recorded(old(local.recentTransfers), c)
    ensures local.sourceUrls == old(local.sourceUrls)
  {
    if |runs| == 0 {
      return [];
    }
    notices := [ShowStart(|runs|, Auto)];
    var target := TargetUrl(localhostUrl, parsed, targetStoreId);
    var result := TransferFromMultipleSources(runs, target, sourceStoreId, store, order);
    var c := Conclude(result, Auto, handle, now);
    if c.record.Some? {
      SaveRecentTransfer(local, c.record.value);
    }
    if c.notice.Some? {
      notices := notices + [c.notice.value];
    }
  }

  /** `performManualTransfer(targetStoreId, isIncognitoTarget)`: the same
      steps towards the fixed target `http://localhost:3000`, returning
      the multi-source result, or an error when no source is enabled. */
  method PerformManualTransfer(local: LocalStore, targetStoreId: Option<string>,
                               sourceStoreId: Option<string>, store: SetDetails -> Attempt,
                               runs: seq<SourceRun>, order: seq<nat>, handle: Option<nat>, now: int)
    returns (r: MultiResult, notices: seq<Notice>)
    requires Urls(runs) == EnabledUrls(local.sourceUrls)
    requires IsCompletionOrder(order, |runs|)
    modifies local
    ensures runs == [] ==>
      r == TransferFailed(NoSourcesMessage) && notices == [] && local.recentTransfers == old(local.recentTransfers)
    ensures runs != [] ==>
      var target := TargetUrl(ManualTargetUrl, Url("http:", "localhost"), targetStoreId);
      && r == Aggregate(Urls(runs), Outcomes(runs, target, sourceStoreId, store), order)
      && notices == [ShowStart(|runs|, Manual)] + Tail(Conclude(r, Manual, handle, now))
      && local.recentTransfers == Recorded(old(local.recentTransfers), Conclude(r, Manual, handle, now))
    ensures local.sourceUrls == old(local.sourceUrls)
  {
    if |runs| == 0 {
      return TransferFailed(NoSourcesMessage), [];
    }
    notices := [ShowStart(|runs|, Manual)];
    var target := TargetUrl(ManualTargetUrl, Url("http:", "localhost"), targetStoreId);
    r := TransferFromMultipleSources(runs, target, sourceStoreId, store, order);
    var c := Conclude(r, Manual, handle, now);
    if c.record.Some? {
      SaveRecentTransfer(local, c.record.value);
    }
    if c.notice.Some? {
      notices := notices + [c.notice.value];
    }
  }
}
