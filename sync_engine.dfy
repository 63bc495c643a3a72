/** The per-source step of the cookie synchronisation engine
    (`transferCookiesFromSource`): index the target's cookies by
    `name:path`, then sort every source cookie, in source order, into
    skipped, updated, copied or failed, writing the ones that are not
    skipped. The cookie store is an input: the two `getAll` results come in
    a `SourceRun`, and `set` says how the store answers each write. */
module SyncEngine {
  import opened Browser
  import opened TargetCookie

  /** The lookup key `${name}:${path}`. */
  function Key(name: string, path: string): string {
    name + ":" + path
  }

  /** Target cookies are indexed under their raw path. */
  function TargetKey(t: Cookie): string {
    Key(t.name, t.path)
  }

  /** Source cookies look up under `cookie.path || '/'`. */
  function SourceKey(c: Cookie): string {
    Key(c.name, EffectivePath(c.path))
  }

  /** A target cookie with no path never shares a key with a source cookie
      of the same name: the source side always supplies a path. */
  lemma PathlessTargetNeverMatches(t: Cookie, c: Cookie)
    requires t.path == "" && t.name == c.name
    ensures TargetKey(t) != SourceKey(c)
  {
    assert |TargetKey(t)| < |SourceKey(c)|;
  }

  /** `existingCookieMap` after the `forEach` over the target's cookies:
      a later cookie with the same key replaces an earlier one. */
  function Lookup(existing: seq<Cookie>): map<string, Cookie> {
    if existing == [] then map[]
    else
      var last := existing[|existing| - 1];
      Lookup(existing[..|existing| - 1])[TargetKey(last) := last]
  }

  /** Target cookie `i` is the last one indexed under its key. */
  predicate LastWithKey(existing: seq<Cookie>, i: int, k: string) {
    0 <= i < |existing| && TargetKey(existing[i]) == k
    && forall j :: i < j < |existing| ==> TargetKey(existing[j]) != k
  }

  /** The lookup holds exactly the keys of the target's cookies, each bound
      to the last target cookie with that key. */
  lemma {:induction false} LookupLastWins(existing: seq<Cookie>, k: string)
    ensures k in Lookup(existing) <==> exists i :: 0 <= i < |existing| && TargetKey(existing[i]) == k
    ensures k in Lookup(existing) ==> exists i :: LastWithKey(existing, i, k) && Lookup(existing)[k] == existing[i]
  {
    if existing != [] {
      var n := |existing|;
      var init := existing[..n - 1];
      assert forall i :: 0 <= i < n - 1 ==> init[i] == existing[i];
      LookupLastWins(init, k);
      if TargetKey(existing[n - 1]) == k {
        assert LastWithKey(existing, n - 1, k);
      } else {
        assert Lookup(existing) == Lookup(init)[TargetKey(existing[n - 1]) := existing[n - 1]];
        if k in Lookup(init) {
          var i :| LastWithKey(init, i, k) && Lookup(init)[k] == init[i];
          assert LastWithKey(existing, i, k);
        }
      }
    }
  }

  /** Builds the lookup the way the source does, one target cookie at a time. */
  method BuildLookup(existing: seq<Cookie>) returns (m: map<string, Cookie>)
    ensures m == Lookup(existing)
    ensures forall t :: t in existing ==> TargetKey(t) in m
  {
    m := map[];
    for i := 0 to |existing|
      invariant m == Lookup(existing[..i])
    {
      assert existing[..i + 1][..i] == existing[..i];
      m := m[TargetKey(existing[i]) := existing[i]];
    }
    assert existing[..|existing|] == existing;
    forall t | t in existing ensures TargetKey(t) in m {
      LookupLastWins(existing, TargetKey(t));
    }
  }

  /** Where the cookies are written. */
  datatype Target = Target(url: string, host: string, protocol: string, storeId: Option<string>)

  /** The four buckets of a source cookie. */
  datatype Verdict = Skipped | Copied | Updated | Failed(message: string)

  /** The target already holds the key with the same value. */
  predicate AlreadyInSync(c: Cookie, lookup: map<string, Cookie>) {
    SourceKey(c) in lookup && lookup[SourceKey(c)].value == c.value
  }

  function Details(c: Cookie, t: Target): SetDetails {
    Prepare(c, t.url, t.host, t.protocol, t.storeId)
  }

  function FailureMessage(name: string, message: string): string {
    "Failed to set cookie " + name + ": " + message
  }

  /** The bucket of source cookie `c`, given the target lookup and how the
      store answers the write. */
  function Classify(c: Cookie, lookup: map<string, Cookie>, t: Target, store: SetDetails -> Attempt): (v: Verdict)
    ensures v == Skipped <==> AlreadyInSync(c, lookup)
    ensures v.Failed? <==> !AlreadyInSync(c, lookup) && store(Details(c, t)).Threw?
    ensures v == Updated ==> SourceKey(c) in lookup && lookup[SourceKey(c)].value != c.value
    ensures v == Copied ==> SourceKey(c) !in lookup
    ensures v.Failed? ==> v.message == FailureMessage(c.name, store(Details(c, t)).message)
  {
    if AlreadyInSync(c, lookup) then Skipped
    else match store(Details(c, t))
      case Threw(m) => Failed(FailureMessage(c.name, m))
      case Done => if SourceKey(c) in lookup then Updated else Copied
  }

  datatype Tally = Tally(copied: nat, updated: nat, skipped: nat, errors: seq<string>)

  function Count(tally: Tally, v: Verdict): Tally {
    match v
    case Skipped => tally.(skipped := tally.skipped + 1)
    case Copied => tally.(copied := tally.copied + 1)
    case Updated => tally.(updated := tally.updated + 1)
    case Failed(m) => tally.(errors := tally.errors + [m])
  }

  /** The counters after the loop has seen the cookies `cs`: every cookie
      lands in exactly one bucket. */
  function TallyOf(cs: seq<Cookie>, lookup: map<string, Cookie>, t: Target, store: SetDetails -> Attempt): (r: Tally)
    ensures r.copied + r.updated + r.skipped + |r.errors| == |cs|
  {
    if cs == [] then Tally(0, 0, 0, [])
    else Count(TallyOf(cs[..|cs| - 1], lookup, t, store), Classify(cs[|cs| - 1], lookup, t, store))
  }

  /** The `chrome.cookies.set` calls the loop issues: one per cookie that is
      not already in sync, in source order. */
  function Writes(cs: seq<Cookie>, lookup: map<string, Cookie>, t: Target): seq<SetDetails> {
    if cs == [] then []
    else
      var c := cs[|cs| - 1];
      Writes(cs[..|cs| - 1], lookup, t) + if AlreadyInSync(c, lookup) then [] else [Details(c, t)]
  }

  /** Exactly the skipped cookies get no write. */
  lemma {:induction false} WritesAreUnskipped(cs: seq<Cookie>, lookup: map<string, Cookie>, t: Target, store: SetDetails -> Attempt)
    ensures |Writes(cs, lookup, t)| + TallyOf(cs, lookup, t, store).skipped == |cs|
  {
    if cs != [] {
      WritesAreUnskipped(cs[..|cs| - 1], lookup, t, store);
    }
  }

  /** Every write goes to the target host, is never secure on a non-https
      target, always names a sameSite policy and a path, and carries an
      expiration only for a persistent source cookie that has one. */
  lemma {:induction false} WritesFitTarget(cs: seq<Cookie>, lookup: map<string, Cookie>, t: Target)
    ensures forall d :: d in Writes(cs, lookup, t) ==>
      && d.domain == t.host && d.url == t.url && d.storeId == t.storeId
      && (t.protocol != "https:" ==> !d.secure)
      && d.sameSite != "" && d.path != ""
      && (d.expirationDate.Some? ==> exists c :: c in cs && !c.session && c.expirationDate == d.expirationDate)
  {
    if cs != [] {
      var init := cs[..|cs| - 1];
      WritesFitTarget(init, lookup, t);
      forall d | d in Writes(cs, lookup, t) && d.expirationDate.Some?
        ensures exists c :: c in cs && !c.session && c.expirationDate == d.expirationDate
      {
        if d in Writes(init, lookup, t) {
          var c :| c in init && !c.session && c.expirationDate == d.expirationDate;
          assert c in cs;
        } else {
          assert cs[|cs| - 1] in cs;
        }
      }
    }
  }

  /** The target as it reads back after the run: every successful write
      stores the written cookie under the key it was looked up by. */
  function Stored(d: SetDetails): Cookie {
    Cookie(d.name, d.value, d.domain, d.path, d.secure, d.httpOnly, d.sameSite,
           d.expirationDate.None?, d.expirationDate)
  }

  function After(cs: seq<Cookie>, lookup: map<string, Cookie>, t: Target, store: SetDetails -> Attempt): map<string, Cookie> {
    if cs == [] then lookup
    else
      var c := cs[|cs| - 1];
      var m := After(cs[..|cs| - 1], lookup, t, store);
      if !AlreadyInSync(c, lookup) && store(Details(c, t)) == Done then m[SourceKey(c) := Stored(Details(c, t))]
      else m
  }

  /** No two source cookies share a lookup key. */
  predicate DistinctKeys(cs: seq<Cookie>) {
    forall i, j :: 0 <= i < j < |cs| ==> SourceKey(cs[i]) != SourceKey(cs[j])
  }

  /** When every write succeeded, each source cookie's key holds its value
      afterwards, unless a later cookie with the same key overwrote it. */
  lemma {:induction false} AfterHoldsSourceValues(cs: seq<Cookie>, lookup: map<string, Cookie>, t: Target, store: SetDetails -> Attempt, i: int)
    requires DistinctKeys(cs) && 0 <= i < |cs|
    requires forall c :: c in cs && !AlreadyInSync(c, lookup) ==> store(Details(c, t)) == Done
    ensures AlreadyInSync(cs[i], After(cs, lookup, t, store))
  {
    var n := |cs|;
    var init := cs[..n - 1];
    var c := cs[n - 1];
    assert forall j :: 0 <= j < n - 1 ==> init[j] == cs[j];
    var m := After(init, lookup, t, store);
    var written := !AlreadyInSync(c, lookup) && store(Details(c, t)) == Done;
    assert After(cs, lookup, t, store) == if written then m[SourceKey(c) := Stored(Details(c, t))] else m;
    if i < n - 1 {
      assert DistinctKeys(init);
      assert forall d :: d in init ==> d in cs;
      AfterHoldsSourceValues(init, lookup, t, store, i);
      assert SourceKey(cs[i]) != SourceKey(c);
    } else if AlreadyInSync(c, lookup) {
      AfterKeepsUntouched(init, lookup, t, store, SourceKey(c));
    } else {
      assert c in cs;
      assert Stored(Details(c, t)).value == c.value;
    }
  }

  /** Keys that no source cookie looks up keep their target cookie. */
  lemma {:induction false} AfterKeepsUntouched(cs: seq<Cookie>, lookup: map<string, Cookie>, t: Target, store: SetDetails -> Attempt, k: string)
    requires forall c :: c in cs ==> SourceKey(c) != k
    ensures k in lookup ==> k in After(cs, lookup, t, store) && After(cs, lookup, t, store)[k] == lookup[k]
  {
    if cs != [] {
      var init := cs[..|cs| - 1];
      assert forall c :: c in init ==> c in cs;
      assert cs[|cs| - 1] in cs;
      AfterKeepsUntouched(init, lookup, t, store, k);
    }
  }

  /** Running against a target where every source cookie is already in
      sync skips them all and writes nothing. */
  lemma {:induction false} InSyncSkipsAll(cs: seq<Cookie>, lookup: map<string, Cookie>, t: Target, store: SetDetails -> Attempt)
    requires forall c :: c in cs ==> AlreadyInSync(c, lookup)
    ensures TallyOf(cs, lookup, t, store) == Tally(0, 0, |cs|, [])
    ensures Writes(cs, lookup, t) == []
  {
    if cs != [] {
      var init := cs[..|cs| - 1];
      assert forall c :: c in init ==> c in cs;
      assert cs[|cs| - 1] in cs;
      InSyncSkipsAll(init, lookup, t, store);
    }
  }

  /** Idempotence: when the source has no repeated key and every write of
      a run succeeded, a second run against the resulting target copies and
      updates nothing, skips every cookie and issues no write. */
  lemma SecondRunSkipsAll(cs: seq<Cookie>, lookup: map<string, Cookie>, t: Target, store: SetDetails -> Attempt, store2: SetDetails -> Attempt)
    requires DistinctKeys(cs)
    requires forall c :: c in cs && !AlreadyInSync(c, lookup) ==> store(Details(c, t)) == Done
    ensures TallyOf(cs, After(cs, lookup, t, store), t, store2) == Tally(0, 0, |cs|, [])
    ensures Writes(cs, After(cs, lookup, t, store), t) == []
  {
    var after := After(cs, lookup, t, store);
    forall c | c in cs ensures AlreadyInSync(c, after) {
      var i :| 0 <= i < |cs| && cs[i] == c;
      AfterHoldsSourceValues(cs, lookup, t, store, i);
    }
    InSyncSkipsAll(cs, after, t, store2);
  }

  /** Without distinct keys the second run is not idle: of two source
      cookies under one key with different values, the later one's value
      ends up stored, so the second run updates the earlier one again. */
  lemma SharedKeyRewritten(c1: Cookie, c2: Cookie, t: Target, store: SetDetails -> Attempt, store2: SetDetails -> Attempt)
    requires SourceKey(c1) == SourceKey(c2) && c1.value != c2.value
    requires store(Details(c1, t)) == Done && store(Details(c2, t)) == Done && store2(Details(c1, t)) == Done
    ensures TallyOf([c1, c2], After([c1, c2], map[], t, store), t, store2) == Tally(0, 1, 1, [])
    ensures Writes([c1, c2], After([c1, c2], map[], t, store), t) == [Details(c1, t)]
  {
    var cs := [c1, c2];
    var k := SourceKey(c1);
    assert cs[..1] == [c1] && [c1][..0] == [];
    assert !AlreadyInSync(c1, map[]) && !AlreadyInSync(c2, map[]);
    var first := After([c1], map[], t, store);
    assert After([c1][..0], map[], t, store) == map[];
    assert first == map[k := Stored(Details(c1, t))];
    var after := After(cs, map[], t, store);
    assert after == first[k := Stored(Details(c2, t))];
    assert after[k].value == c2.value;
    assert !AlreadyInSync(c1, after) && AlreadyInSync(c2, after);
    assert Writes([c1][..0], after, t) == [];
    assert Writes([c1], after, t) == [Details(c1, t)];
  }

  /** What one source contributes: its URL, how that URL parses, and what
      the two `getAll` calls return. */
  datatype SourceRun = SourceRun(url: string, parsed: ParsedUrl, sourceCookies: Fetch, targetCookies: Fetch)

  /** The target URL as given, how it parses, and the target store id. */
  datatype TargetUrl = TargetUrl(url: string, parsed: ParsedUrl, storeId: Option<string>)

  datatype SourceResult =
    | Transferred(count: nat, total: nat, skipped: nat, copied: nat, updated: nat, warnings: seq<string>)
    | SourceFailed(error: string)

  function NoCookiesMessage(host: string, sourceStoreId: Option<string>): string {
    "No cookies found for " + host + (if sourceStoreId.Some? then " in incognito mode" else "")
  }

  /** The result `transferCookiesFromSource` returns. */
  function Outcome(run: SourceRun, target: TargetUrl, sourceStoreId: Option<string>, store: SetDetails -> Attempt): (r: SourceResult)
    ensures r.Transferred? ==>
      && run.sourceCookies.Fetched? && r.total == |run.sourceCookies.cookies| > 0
      && r.count == r.copied + r.updated
      && r.copied + r.updated + r.skipped + |r.warnings| == r.total
    ensures run.sourceCookies == Fetched([]) ==> r.SourceFailed?
    ensures run.parsed.Url? && target.parsed.Url? && run.sourceCookies == Fetched([]) ==>
      r == SourceFailed(NoCookiesMessage(run.parsed.hostname, sourceStoreId))
    ensures r.SourceFailed? <==>
      run.parsed.Malformed? || target.parsed.Malformed? || run.sourceCookies.FetchFailed?
      || run.sourceCookies == Fetched([]) || run.targetCookies.FetchFailed?
  {
    match run.parsed
    case Malformed(m) => SourceFailed(m)
    case Url(_, sourceHost) =>
      match target.parsed
      case Malformed(m) => SourceFailed(m)
      case Url(protocol, host) =>
        match run.sourceCookies
        case FetchFailed(m) => SourceFailed(m)
        case Fetched(cs) =>
          if cs == [] then SourceFailed(NoCookiesMessage(sourceHost, sourceStoreId))
          else match run.targetCookies
            case FetchFailed(m) => SourceFailed(m)
            case Fetched(existing) =>
              var tally := TallyOf(cs, Lookup(existing), Target(target.url, host, protocol, target.storeId), store);
              Transferred(tally.copied + tally.updated, |cs|, tally.skipped, tally.copied, tally.updated, tally.errors)
  }

  /** The `chrome.cookies.set` calls `transferCookiesFromSource` issues. */
  function IssuedWrites(run: SourceRun, target: TargetUrl): (w: seq<SetDetails>)
    ensures run.sourceCookies == Fetched([]) ==> w == []
  {
    match (run.parsed, target.parsed, run.sourceCookies, run.targetCookies)
    case (Url(_, _), Url(protocol, host), Fetched(cs), Fetched(existing)) =>
      if cs == [] then [] else Writes(cs, Lookup(existing), Target(target.url, host, protocol, target.storeId))
    case _ => []
  }

  /** A source with no cookies fails and writes nothing to the target. */
  lemma EmptySourceWritesNothing(run: SourceRun, target: TargetUrl, sourceStoreId: Option<string>, store: SetDetails -> Attempt)
    requires run.sourceCookies == Fetched([])
    ensures Outcome(run, target, sourceStoreId, store).SourceFailed?
    ensures IssuedWrites(run, target) == []
  {
  }

  /** `transferCookiesFromSource`: returns the result and the writes it
      issued, in order. */
  method TransferCookiesFromSource(run: SourceRun, target: TargetUrl, sourceStoreId: Option<string>, store: SetDetails -> Attempt)
    returns (r: SourceResult, writes: seq<SetDetails>)
    ensures r == Outcome(run, target, sourceStoreId, store)
    ensures writes == IssuedWrites(run, target)
    ensures r.Transferred? ==> |writes| + r.skipped == r.total
  {
    writes := [];
    if run.parsed.Malformed? {
      return SourceFailed(run.parsed.message), writes;
    }
    if target.parsed.Malformed? {
      return SourceFailed(target.parsed.message), writes;
    }
    if run.sourceCookies.FetchFailed? {
      return SourceFailed(run.sourceCookies.message), writes;
    }
    var cs := run.sourceCookies.cookies;
    if |cs| == 0 {
      return SourceFailed(NoCookiesMessage(run.parsed.hostname, sourceStoreId)), writes;
    }
    if run.targetCookies.FetchFailed? {
      return SourceFailed(run.targetCookies.message), writes;
    }
    var lookup := BuildLookup(run.targetCookies.cookies);
    var t := Target(target.url, target.parsed.hostname, target.parsed.protocol, target.storeId);
    var tally;
    tally, writes := TransferEach(cs, lookup, t, store);
    r := Transferred(tally.copied + tally.updated, |cs|, tally.skipped, tally.copied, tally.updated, tally.errors);
  }

  /** The loop of `transferCookiesFromSource`: each source cookie in order
      is skipped, or written and counted as updated, copied or failed. */
  method TransferEach(cs: seq<Cookie>, lookup: map<string, Cookie>, t: Target, store: SetDetails -> Attempt)
    returns (tally: Tally, writes: seq<SetDetails>)
    ensures tally == TallyOf(cs, lookup, t, store)
    ensures writes == Writes(cs, lookup, t)
    ensures |writes| + tally.skipped == |cs|
  {
    var copied, updated, skipped := 0, 0, 0;
    var errors: seq<string> := [];
    writes := [];
    for i := 0 to |cs|
      invariant TallyOf(cs[..i], lookup, t, store) == Tally(copied, updated, skipped, errors)
      invariant writes == Writes(cs[..i], lookup, t)
    {
      assert cs[..i + 1][..i] == cs[..i];
      var c := cs[i];
      var key := SourceKey(c);
      if key in lookup && lookup[key].value == c.value {
        skipped := skipped + 1;
      } else {
        var d := Prepare(c, t.url, t.host, t.protocol, t.storeId);
        writes := writes + [d];
        var attempt := store(d);
        match attempt
        case Threw(m) =>
          errors := errors + [FailureMessage(c.name, m)];
        case Done =>
          if key in lookup {
            updated := updated + 1;
          } else {
            copied := copied + 1;
          }
      }
    }
    assert cs[..|cs|] == cs;
    WritesAreUnskipped(cs, lookup, t, store);
    tally := Tally(copied, updated, skipped, errors);
  }
}
