/** The popup's editing of the source list: adding an origin (typed, or
    taken from the active tab) unless it is already listed, removing one,
    and moving one by drag and drop. */
module Registry {
  import opened Browser
  import opened Text
  import opened Storage

  /** Where `Array.prototype.splice` starts for a `start` argument on an
      array of length `len`: negative values count from the end, values
      past either end are clamped. */
  function SpliceIndex(start: int, len: nat): (k: nat)
    ensures k <= len
    ensures 0 <= start <= len ==> k == start
    ensures start < 0 ==> k == if len + start < 0 then 0 else len + start
    ensures start > len ==> k == len
  {
    if start < 0 then (if len + start < 0 then 0 else len + start)
    else if start > len then len
    else start
  }

  /** `s` with the element at `i` taken out. */
  function Without<T>(s: seq<T>, i: nat): (r: seq<T>)
    requires i < |s|
    ensures |r| == |s| - 1
  {
    s[..i] + s[i + 1..]
  }

  /** `s` with `x` put in at `i`. */
  function Insert<T>(s: seq<T>, i: nat, x: T): (r: seq<T>)
    requires i <= |s|
    ensures |r| == |s| + 1 && r[i] == x
  {
    s[..i] + [x] + s[i..]
  }

  lemma WithoutInsert<T>(s: seq<T>, i: nat, x: T)
    requires i <= |s|
    ensures Without(Insert(s, i, x), i) == s
  {
    var r := Insert(s, i, x);
    assert r[..i] == s[..i] && r[i + 1..] == s[i..];
  }

  lemma InsertWithout<T>(s: seq<T>, i: nat)
    requires i < |s|
    ensures Insert(Without(s, i), i, s[i]) == s
  {
    var w := Without(s, i);
    assert w[..i] == s[..i] && w[i..] == s[i + 1..];
  }

  lemma WithoutCounts<T>(s: seq<T>, i: nat)
    requires i < |s|
    ensures multiset(Without(s, i)) + multiset{s[i]} == multiset(s)
  {
    assert s == s[..i] + [s[i]] + s[i + 1..];
  }

  lemma InsertCounts<T>(s: seq<T>, i: nat, x: T)
    requires i <= |s|
    ensures multiset(Insert(s, i, x)) == multiset(s) + multiset{x}
  {
    assert s == s[..i] + s[i..];
  }

  /** `reorderSources(fromIndex, toIndex)`: the entry at `fromIndex` is
      taken out and put back in at `toIndex` of the shortened list. The
      result holds the same entries, the moved one is at its new place,
      and all others keep their relative order. */
  function Reordered(s: seq<SourceEntry>, from: int, to: int): (r: seq<SourceEntry>)
    requires |s| > 0 && from < |s|
    ensures |r| == |s| && multiset(r) == multiset(s)
    ensures r[SpliceIndex(to, |s| - 1)] == s[SpliceIndex(from, |s|)]
    ensures Without(r, SpliceIndex(to, |s| - 1)) == Without(s, SpliceIndex(from, |s|))
  {
    var f := SpliceIndex(from, |s|);
    var rest := Without(s, f);
    var t := SpliceIndex(to, |rest|);
    WithoutCounts(s, f);
    InsertCounts(rest, t, s[f]);
    WithoutInsert(rest, t, s[f]);
    Insert(rest, t, s[f])
  }

  /** Dragging an entry back to where it came from restores the list. */
  lemma MoveBack(s: seq<SourceEntry>, i: nat, j: nat)
    requires i < |s| && j < |s|
    ensures Reordered(Reordered(s, i, j), j, i) == s
  {
    var r := Reordered(s, i, j);
    InsertWithout(r, j);
    InsertWithout(s, i);
  }

  /** `removeSource(index)`: the entry at `index` is removed when there is
      one; any other index leaves the list as it is. */
  function RemovedAt(s: seq<SourceEntry>, index: int): (r: seq<SourceEntry>)
    ensures 0 <= index < |s| ==> |r| == |s| - 1 && Insert(r, index, s[index]) == s
    ensures !(0 <= index < |s|) ==> r == s
  {
    if 0 <= index < |s| then
      InsertWithout(s, index);
      Without(s, index)
    else s
  }

  /** Whether some entry has this URL. */
  predicate HasUrl(s: seq<SourceEntry>, url: string) {
    exists i :: 0 <= i < |s| && s[i].url == url
  }

  /** No two entries share a URL: what the duplicate check keeps. */
  predicate UniqueUrls(s: seq<SourceEntry>) {
    forall i, j :: 0 <= i < j < |s| ==> s[i].url != s[j].url
  }

  /** The list after the add button's storage step for `url`: unchanged
      when the URL is listed, otherwise with a new enabled entry at the end. */
  function Added(s: seq<SourceEntry>, url: string, now: int): (r: seq<SourceEntry>)
    ensures HasUrl(r, url)
    ensures HasUrl(s, url) ==> r == s
    ensures !HasUrl(s, url) ==> r == s + [SourceEntry(url, true, now)]
  {
    if HasUrl(s, url) then s
    else
      assert (s + [SourceEntry(url, true, now)])[|s|].url == url;
      s + [SourceEntry(url, true, now)]
  }

  /** Adding the same URL twice adds it once. */
  lemma AddTwice(s: seq<SourceEntry>, url: string, now: int, later: int)
    ensures Added(Added(s, url, now), url, later) == Added(s, url, now)
  {
  }

  lemma {:induction false} AddedKeepsUnique(s: seq<SourceEntry>, url: string, now: int)
    requires UniqueUrls(s)
    ensures UniqueUrls(Added(s, url, now))
  {
    if !HasUrl(s, url) {
      var r := Added(s, url, now);
      forall i, j | 0 <= i < j < |r| ensures r[i].url != r[j].url {
        if j == |s| {
          assert r[i] == s[i];
        }
      }
    }
  }

  lemma {:induction false} WithoutKeepsUnique(s: seq<SourceEntry>, k: nat)
    requires UniqueUrls(s) && k < |s|
    ensures UniqueUrls(Without(s, k))
    ensures !HasUrl(Without(s, k), s[k].url)
  {
    var w := Without(s, k);
    assert forall i :: 0 <= i < |w| ==> w[i] == s[if i < k then i else i + 1];
  }

  lemma {:induction false} InsertKeepsUnique(s: seq<SourceEntry>, k: nat, x: SourceEntry)
    requires UniqueUrls(s) && k <= |s| && !HasUrl(s, x.url)
    ensures UniqueUrls(Insert(s, k, x))
  {
    var r := Insert(s, k, x);
    assert forall i :: 0 <= i < |r| && i != k ==> r[i] == s[if i < k then i else i - 1];
  }

  lemma ReorderedKeepsUnique(s: seq<SourceEntry>, from: int, to: int)
    requires UniqueUrls(s) && |s| > 0 && from < |s|
    ensures UniqueUrls(Reordered(s, from, to))
  {
    var f := SpliceIndex(from, |s|);
    WithoutKeepsUnique(s, f);
    InsertKeepsUnique(Without(s, f), SpliceIndex(to, |s| - 1), s[f]);
  }

  lemma RemovedKeepsUnique(s: seq<SourceEntry>, index: int)
    requires UniqueUrls(s)
    ensures UniqueUrls(RemovedAt(s, index))
  {
    if 0 <= index < |s| {
      WithoutKeepsUnique(s, index);
    }
  }

  /** What `chrome.tabs.query` reports for the active tab: the query threw,
      no tab came back, or the tab with its URL (empty when it has none)
      and how that URL parses. */
  datatype TabQuery = TabQueryFailed(message: string) | NoTab | ActiveTab(url: string, parsed: ParsedUrl)

  /** The URL to add, or the status message the add button shows instead. */
  datatype Resolution = Resolved(url: string) | Rejected(message: string)

  const NotWebPageMessage := "Current tab is not a valid web page (must be http or https)"
  const NoTabUrlMessage := "Could not get current tab URL"
  const InvalidUrlMessage := "Please enter a valid URL"
  const DuplicateMessage := "URL already exists in the list"
  const AddedMessage := "Source URL added successfully"

  function TabErrorMessage(message: string): string {
    "Error getting current tab URL: " + message
  }

  /** The candidate URL: the trimmed input, or else the origin of the
      active tab when that is a web page. */
  function Candidate(input: string, tab: TabQuery): Resolution {
    var typed := Trim(input);
    if typed != "" then Resolved(typed)
    else match tab
      case TabQueryFailed(m) => Rejected(TabErrorMessage(m))
      case NoTab => Rejected(NoTabUrlMessage)
      case ActiveTab(url, parsed) =>
        if url == "" then Rejected(NoTabUrlMessage)
        else match parsed
          case Malformed(m) => Rejected(TabErrorMessage(m))
          case Url(protocol, hostname) =>
            if protocol == "http:" || protocol == "https:" then Resolved(protocol + "//" + hostname)
            else Rejected(NotWebPageMessage)
  }

  /** The add button's checks before touching storage: pick the candidate,
      then insist that it parses as a URL (`parse` is `new URL`). */
  function Resolve(input: string, tab: TabQuery, parse: string -> ParsedUrl): (r: Resolution)
    ensures r.Resolved? ==> parse(r.url).Url?
    ensures Trim(input) != "" ==>
      && (r.Resolved? <==> parse(Trim(input)).Url?)
      && (r.Resolved? ==> r.url == Trim(input))
      && (r.Rejected? ==> r.message == InvalidUrlMessage)
    ensures Trim(input) == "" && r.Resolved? ==>
      && tab.ActiveTab? && tab.url != "" && tab.parsed.Url?
      && (tab.parsed.protocol == "http:" || tab.parsed.protocol == "https:")
      && r.url == tab.parsed.protocol + "//" + tab.parsed.hostname
    ensures (Trim(input) == "" && tab.ActiveTab? && tab.url != "" && tab.parsed.Url?
             && tab.parsed.protocol != "http:" && tab.parsed.protocol != "https:") ==> r == Rejected(NotWebPageMessage)
    ensures Trim(input) == "" && (tab.NoTab? || (tab.ActiveTab? && tab.url == "")) ==> r == Rejected(NoTabUrlMessage)
    ensures Trim(input) == "" && tab.TabQueryFailed? ==> r == Rejected(TabErrorMessage(tab.message))
    ensures Trim(input) == "" && tab.ActiveTab? && tab.url != "" && tab.parsed.Malformed? ==>
      r == Rejected(TabErrorMessage(tab.parsed.message))
    ensures (Trim(input) == "" && tab.ActiveTab? && tab.url != "" && tab.parsed.Url?
             && (tab.parsed.protocol == "http:" || tab.parsed.protocol == "https:")) ==>
      var origin := tab.parsed.protocol + "//" + tab.parsed.hostname;
      r == if parse(origin).Url? then Resolved(origin) else Rejected(InvalidUrlMessage)
  {
    match Candidate(input, tab)
    case Rejected(m) => Rejected(m)
    case Resolved(u) => if parse(u).Malformed? then Rejected(InvalidUrlMessage) else Resolved(u)
  }

  /** The duplicate check `sourceUrls.some(...)`: a scan for an entry with
      the URL. */
  method IsListed(s: seq<SourceEntry>, url: string) returns (found: bool)
    ensures found <==> HasUrl(s, url)
  {
    var i := 0;
    while i < |s|
      invariant 0 <= i <= |s|
      invariant forall k :: 0 <= k < i ==> s[k].url != url
    {
      if s[i].url == url {
        return true;
      }
      i := i + 1;
    }
    return false;
  }

  /** The add button: resolve the URL, then add it unless it is listed.
      Returns the status message shown. */
  method AddSource(local: LocalStore, input: string, tab: TabQuery, parse: string -> ParsedUrl, now: int)
    returns (status: string)
    modifies local
    ensures var res := Resolve(input, tab, parse);
      && (res.Rejected? ==> status == res.message && local.sourceUrls == old(local.sourceUrls))
      && (res.Resolved? && HasUrl(old(local.sourceUrls), res.url) ==>
            status == DuplicateMessage && local.sourceUrls == old(local.sourceUrls))
      && (res.Resolved? && !HasUrl(old(local.sourceUrls), res.url) ==> status == AddedMessage)
      && (res.Resolved? ==> local.sourceUrls == Added(old(local.sourceUrls), res.url, now))
    ensures local.recentTransfers == old(local.recentTransfers)
  {
    var res := Resolve(input, tab, parse);
    if res.Rejected? {
      return res.message;
    }
    var url := res.url;
    var sourceUrls := local.sourceUrls;
    var listed := IsListed(sourceUrls, url);
    if listed {
      return DuplicateMessage;
    }
    local.sourceUrls := sourceUrls + [SourceEntry(url, true, now)];
    status := AddedMessage;
  }

  /** `removeSource(index)`; reports whether an entry was removed. */
  method RemoveSource(local: LocalStore, index: int) returns (removed: bool)
    modifies local
    ensures local.sourceUrls == RemovedAt(old(local.sourceUrls), index)
    ensures removed <==> 0 <= index < |old(local.sourceUrls)|
    ensures local.recentTransfers == old(local.recentTransfers)
  {
    var sourceUrls := local.sourceUrls;
    removed := 0 <= index < |sourceUrls|;
    if removed {
      local.sourceUrls := sourceUrls[..index] + sourceUrls[index + 1..];
    }
  }

  /** `reorderSources(fromIndex, toIndex)`. */
  method ReorderSources(local: LocalStore, from: int, to: int)
    requires |local.sourceUrls| > 0 && from < |local.sourceUrls|
    modifies local
    ensures local.sourceUrls == Reordered(old(local.sourceUrls), from, to)
    ensures local.recentTransfers == old(local.recentTransfers)
  {
    var sourceUrls := local.sourceUrls;
    var f := SpliceIndex(from, |sourceUrls|);
    var moved := sourceUrls[f];
    sourceUrls := sourceUrls[..f] + sourceUrls[f + 1..];
    var t := SpliceIndex(to, |sourceUrls|);
    sourceUrls := sourceUrls[..t] + [moved] + sourceUrls[t..];
    local.sourceUrls := sourceUrls;
  }
}
