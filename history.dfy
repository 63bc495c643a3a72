/** `saveRecentTransfer`: the newest transfer goes to the front of the
    history, which keeps at most five entries. */
module History {
  import opened Storage

  /** How many transfers the history keeps. */
  const RecentLimit: nat := 5

  function Min(a: nat, b: nat): nat { if a <= b then a else b }

  /** The history after recording `rec`: `rec` first, then the previous
      entries in order, cut to the limit. */
  function PushRecent(list: seq<TransferRecord>, rec: TransferRecord): (r: seq<TransferRecord>)
    ensures |r| == Min(RecentLimit, |list| + 1)
    ensures r[0] == rec
    ensures r[1..] == list[..|r| - 1]
  {
    ([rec] + list)[..Min(RecentLimit, |list| + 1)]
  }

  function Reverse<T>(s: seq<T>): (r: seq<T>)
    ensures |r| == |s| && forall i :: 0 <= i < |s| ==> r[i] == s[|s| - 1 - i]
  {
    if s == [] then [] else [s[|s| - 1]] + Reverse(s[..|s| - 1])
  }

  /** The history after recording `recs` one after another. */
  function SaveAll(list: seq<TransferRecord>, recs: seq<TransferRecord>): seq<TransferRecord> {
    if recs == [] then list else PushRecent(SaveAll(list, recs[..|recs| - 1]), recs[|recs| - 1])
  }

  /** Starting from a history within the limit, the history always holds
      the latest transfers, newest first, followed by the oldest entries
      that still fit. */
  lemma {:induction false} RecentAreLatest(list: seq<TransferRecord>, recs: seq<TransferRecord>)
    requires |list| <= RecentLimit
    ensures SaveAll(list, recs) == (Reverse(recs) + list)[..Min(RecentLimit, |recs| + |list|)]
  {
    if recs == [] {
      assert Reverse(recs) + list == list;
    } else {
      var n := |recs|;
      var init := recs[..n - 1];
      RecentAreLatest(list, init);
      var prev := SaveAll(list, init);
      var all := Reverse(recs) + list;
      assert Reverse(recs) == [recs[n - 1]] + Reverse(init);
      assert all == [recs[n - 1]] + (Reverse(init) + list);
      assert [recs[n - 1]] + prev == all[..|prev| + 1];
    }
  }

  /** `saveRecentTransfer(transferData)`. */
  method SaveRecentTransfer(local: LocalStore, rec: TransferRecord)
    modifies local
    ensures local.recentTransfers == PushRecent(old(local.recentTransfers), rec)
    ensures local.sourceUrls == old(local.sourceUrls)
  {
    var transfers := local.recentTransfers;
    transfers := [rec] + transfers;
    if |transfers| > RecentLimit {
      transfers := transfers[..RecentLimit];
    }
    local.recentTransfers := transfers;
  }
}
