/** The first-generation engine: `transferCookies` copies the cookies of
    one source, optionally narrowed by a comma-separated name filter, to a
    target without comparing with what the target holds; `clearCookies`
    removes every cookie of a host. */
module Legacy {
  import opened Browser
  import opened Text
  import opened TargetCookie
  import opened SyncEngine

  /** The filter terms: each comma-separated part, trimmed and lower-cased. */
  function FilterParts(filter: string): (parts: seq<string>)
    ensures |parts| == |Split(filter, ',')| >= 1
    ensures forall i :: 0 <= i < |parts| ==> parts[i] == Lower(Trim(Split(filter, ',')[i]))
  {
    var raw := Split(filter, ',');
    seq(|raw|, i requires 0 <= i < |raw| => Lower(Trim(raw[i])))
  }

  /** Some term occurs in the lower-cased cookie name. */
  predicate Matches(name: string, parts: seq<string>) {
    exists i :: 0 <= i < |parts| && Contains(Lower(name), parts[i])
  }

  /** The cookies whose names match, in source order. */
  function Keep(cs: seq<Cookie>, parts: seq<string>): (r: seq<Cookie>)
    ensures |r| <= |cs|
    ensures forall c :: c in r <==> c in cs && Matches(c.name, parts)
  {
    if cs == [] then []
    else
      var last := cs[|cs| - 1];
      assert cs == cs[..|cs| - 1] + [last];
      Keep(cs[..|cs| - 1], parts) + if Matches(last.name, parts) then [last] else []
  }

  /** The cookies `transferCookies` goes on with: all of them when the
      filter is empty, otherwise those whose name contains some term. */
  function Selected(cs: seq<Cookie>, filter: string): (r: seq<Cookie>)
    ensures |r| <= |cs|
    ensures filter == "" ==> r == cs
    ensures forall c :: c in r <==> c in cs && (filter == "" || Matches(c.name, FilterParts(filter)))
  {
    if filter == "" then cs else Keep(cs, FilterParts(filter))
  }

  /** Keeping from a longer list: the last cookie is kept after the rest
      when it matches. */
  lemma KeepSnoc(cs: seq<Cookie>, parts: seq<string>)
    requires cs != []
    ensures Keep(cs, parts) == Keep(cs[..|cs| - 1], parts) + (if Matches(cs[|cs| - 1].name, parts) then [cs[|cs| - 1]] else [])
  {
  }

  /** The kept cookies stay in source order: those of a prefix, then those
      of the rest. */
  lemma {:induction false} KeepInOrder(a: seq<Cookie>, b: seq<Cookie>, parts: seq<string>)
    ensures Keep(a + b, parts) == Keep(a, parts) + Keep(b, parts)
  {
    if b == [] {
      assert a + b == a;
    } else {
      var n := |b| - 1;
      var ab := a + b;
      assert ab[..|ab| - 1] == a + b[..n] && ab[|ab| - 1] == b[n];
      var tail := if Matches(b[n].name, parts) then [b[n]] else [];
      var ka, kb := Keep(a, parts), Keep(b[..n], parts);
      KeepInOrder(a, b[..n], parts);
      KeepSnoc(ab, parts);
      KeepSnoc(b, parts);
      assert ka + kb + tail == ka + (kb + tail);
    }
  }

  /** A single cookie is kept exactly when its name matches. */
  lemma KeepOne(c: Cookie, parts: seq<string>)
    ensures Keep([c], parts) == if Matches(c.name, parts) then [c] else []
  {
    assert [c][..0] == [];
  }

  /** The filter ignores the case of cookie names. */
  lemma NameCaseIgnored(name: string, parts: seq<string>)
    ensures Matches(Lower(name), parts) == Matches(name, parts)
  {
    LowerIdempotent(name);
  }

  lemma {:induction false} KeepAll(cs: seq<Cookie>, parts: seq<string>)
    requires forall c :: c in cs ==> Matches(c.name, parts)
    ensures Keep(cs, parts) == cs
  {
    if cs != [] {
      assert cs == cs[..|cs| - 1] + [cs[|cs| - 1]];
      KeepAll(cs[..|cs| - 1], parts);
    }
  }

  /** A blank term (an all-blank filter, or a stray comma) occurs in every
      name, so it lets every cookie through. */
  lemma BlankTermKeepsAll(cs: seq<Cookie>, filter: string, k: nat)
    requires k < |Split(filter, ',')| && Trim(Split(filter, ',')[k]) == ""
    ensures Selected(cs, filter) == cs
  {
    var parts := FilterParts(filter);
    assert parts[k] == "";
    forall c | c in cs ensures Matches(c.name, parts) {
      assert OccursAt(Lower(c.name), parts[k], 0);
    }
    KeepAll(cs, parts);
  }

  /** A separator-free suffix of a string that ends in the separator is empty. */
  lemma EmptyLastPart(s: string, p: string, sep: char)
    requires |p| <= |s| && s[|s| - |p|..] == p && sep !in p
    requires |s| > 0 && s[|s| - 1] == sep
    ensures p == ""
  {
    assert forall i :: |s| - |p| <= i < |s| ==> s[i] == p[i - (|s| - |p|)];
  }

  /** In particular a filter ending in a comma lets every cookie through. */
  lemma TrailingCommaKeepsAll(cs: seq<Cookie>, filter: string)
    ensures Selected(cs, filter + ",") == cs
  {
    var s := filter + ",";
    var parts := Split(s, ',');
    SplitLast(s, ',');
    var p := parts[|parts| - 1];
    assert p in parts;
    EmptyLastPart(s, p, ',');
    assert Trim(p) == "";
    BlankTermKeepsAll(cs, s, |parts| - 1);
  }

  /** The `chrome.cookies.set` calls for `cs`: one per cookie, in order. */
  function LegacyWrites(cs: seq<Cookie>, t: Target): (w: seq<SetDetails>)
    ensures |w| == |cs|
    ensures forall i :: 0 <= i < |cs| ==> w[i] == Prepare(cs[i], t.url, t.host, t.protocol, t.storeId)
  {
    if cs == [] then []
    else LegacyWrites(cs[..|cs| - 1], t) + [Details(cs[|cs| - 1], t)]
  }

  /** The positions of the calls that threw, and of those that completed. */
  function FailedCalls(attempts: seq<Attempt>): set<nat> {
    set i: nat | i < |attempts| && attempts[i].Threw?
  }

  function CompletedCalls(attempts: seq<Attempt>): set<nat> {
    set i: nat | i < |attempts| && attempts[i] == Done
  }

  /** One more call adds its position to one of the two sets. */
  lemma CallsSnoc(attempts: seq<Attempt>, a: Attempt)
    ensures |FailedCalls(attempts + [a])| == |FailedCalls(attempts)| + (if a == Done then 0 else 1)
    ensures |CompletedCalls(attempts + [a])| == |CompletedCalls(attempts)| + (if a == Done then 1 else 0)
  {
    var n := |attempts|;
    var all := attempts + [a];
    var failed := FailedCalls(attempts);
    var completed := CompletedCalls(attempts);
    assert n !in failed && n !in completed;
    var failedAll := if a == Done then failed else failed + {n};
    var completedAll := if a == Done then completed + {n} else completed;
    forall i: nat
      ensures i in FailedCalls(all) <==> i in failedAll
      ensures i in CompletedCalls(all) <==> i in completedAll
    {
      if i < n {
        assert all[i] == attempts[i];
      }
    }
    assert FailedCalls(all) == failedAll;
    assert CompletedCalls(all) == completedAll;
  }

  /** Every call either throws or completes. */
  lemma {:induction false} CallCounts(attempts: seq<Attempt>)
    ensures |FailedCalls(attempts)| + |CompletedCalls(attempts)| == |attempts|
  {
    if attempts == [] {
      assert FailedCalls(attempts) == {};
      assert CompletedCalls(attempts) == {};
    } else {
      var n := |attempts| - 1;
      assert attempts == attempts[..n] + [attempts[n]];
      CallCounts(attempts[..n]);
      CallsSnoc(attempts[..n], attempts[n]);
    }
  }

  /** How each `chrome.cookies.set` call for `cs` ends, in order. */
  function WriteAttempts(cs: seq<Cookie>, t: Target, store: SetDetails -> Attempt): (r: seq<Attempt>)
    ensures |r| == |cs|
    ensures forall i :: 0 <= i < |cs| ==> r[i] == store(Details(cs[i], t))
  {
    if cs == [] then []
    else WriteAttempts(cs[..|cs| - 1], t, store) + [store(Details(cs[|cs| - 1], t))]
  }

  /** The error messages of the writes that threw, in order. */
  function SetErrors(cs: seq<Cookie>, t: Target, store: SetDetails -> Attempt): (errors: seq<string>)
    ensures |errors| <= |cs|
  {
    if cs == [] then []
    else
      var c := cs[|cs| - 1];
      SetErrors(cs[..|cs| - 1], t, store) + match store(Details(c, t))
        case Threw(m) => [FailureMessage(c.name, m)]
        case Done => []
  }

  /** There is one message per write that throws. */
  lemma {:induction false} SetErrorsCount(cs: seq<Cookie>, t: Target, store: SetDetails -> Attempt)
    ensures |SetErrors(cs, t, store)| == |FailedCalls(WriteAttempts(cs, t, store))|
  {
    if cs == [] {
      assert FailedCalls([]) == {};
    } else {
      var n := |cs| - 1;
      SetErrorsCount(cs[..n], t, store);
      CallsSnoc(WriteAttempts(cs[..n], t, store), store(Details(cs[n], t)));
    }
  }

  /** The messages come in source order: those of a prefix, then those of
      the rest. */
  lemma {:induction false} SetErrorsInOrder(a: seq<Cookie>, b: seq<Cookie>, t: Target, store: SetDetails -> Attempt)
    ensures SetErrors(a + b, t, store) == SetErrors(a, t, store) + SetErrors(b, t, store)
  {
    if b == [] {
      assert a + b == a;
    } else {
      var n := |b| - 1;
      assert (a + b)[..|a + b| - 1] == a + b[..n];
      assert (a + b)[|a + b| - 1] == b[n];
      SetErrorsInOrder(a, b[..n], t, store);
    }
  }

  /** A single cookie reports its own message exactly when its write throws. */
  lemma SetErrorsOfOne(c: Cookie, t: Target, store: SetDetails -> Attempt)
    ensures SetErrors([c], t, store) ==
      match store(Details(c, t))
      case Threw(m) => [FailureMessage(c.name, m)]
      case Done => []
  {
    assert [c][..0] == [];
  }

  /** On a target that holds none of the keys, the newer engine writes the
      same cookies the same way, fails on the same ones and neither skips
      nor updates any. */
  lemma {:induction false} LegacyIsFreshSync(cs: seq<Cookie>, lookup: map<string, Cookie>, t: Target, store: SetDetails -> Attempt)
    requires forall c :: c in cs ==> SourceKey(c) !in lookup
    ensures LegacyWrites(cs, t) == Writes(cs, lookup, t)
    ensures SetErrors(cs, t, store) == TallyOf(cs, lookup, t, store).errors
    ensures TallyOf(cs, lookup, t, store).updated == 0 && TallyOf(cs, lookup, t, store).skipped == 0
  {
    if cs != [] {
      LegacyIsFreshSync(cs[..|cs| - 1], lookup, t, store);
    }
  }

  /** On such a target every completed write counts as a copy. */
  lemma {:induction false} FreshCopiesAreCompleted(cs: seq<Cookie>, lookup: map<string, Cookie>, t: Target, store: SetDetails -> Attempt)
    requires forall c :: c in cs ==> SourceKey(c) !in lookup
    ensures TallyOf(cs, lookup, t, store).copied == |CompletedCalls(WriteAttempts(cs, t, store))|
  {
    if cs == [] {
      assert CompletedCalls([]) == {};
    } else {
      var n := |cs| - 1;
      var c := cs[n];
      assert c in cs && forall d :: d in cs[..n] ==> d in cs;
      CallsSnoc(WriteAttempts(cs[..n], t, store), store(Details(c, t)));
      FreshCopiesAreCompleted(cs[..n], lookup, t, store);
      var v := Classify(c, lookup, t, store);
      assert v == Copied <==> store(Details(c, t)) == Done;
      assert TallyOf(cs, lookup, t, store) == Count(TallyOf(cs[..n], lookup, t, store), v);
    }
  }

  /** The arguments of one `transferCookies` call, as the browser sees them. */
  datatype LegacyRun = LegacyRun(sourceParsed: ParsedUrl, targetUrl: string, targetParsed: ParsedUrl,
                                 sourceCookies: Fetch, filter: string)

  datatype LegacyResult = Moved(count: nat, total: nat, warnings: seq<string>) | LegacyFailed(error: string)

  const NoMatchMessage := "No cookies match the specified filter"

  function NothingTransferredMessage(errors: seq<string>): string {
    "Failed to transfer any cookies. Errors: " + Join(errors, "; ")
  }

  /** The target a legacy transfer writes to: the default cookie store. */
  function LegacyTarget(run: LegacyRun): (t: Target)
    requires run.targetParsed.Url?
    ensures t.url == run.targetUrl && t.host == run.targetParsed.hostname
    ensures t.protocol == run.targetParsed.protocol && t.storeId.None?
  {
    Target(run.targetUrl, run.targetParsed.hostname, run.targetParsed.protocol, None)
  }

  /** The result `transferCookies` returns. */
  function LegacyOutcome(run: LegacyRun, store: SetDetails -> Attempt): (r: LegacyResult)
    ensures r.Moved? ==>
      && run.sourceParsed.Url? && run.targetParsed.Url? && run.sourceCookies.Fetched?
      && (var sel := Selected(run.sourceCookies.cookies, run.filter);
          && r.total == |sel| > 0
          && r.count == |CompletedCalls(WriteAttempts(sel, LegacyTarget(run), store))| > 0
          && r.warnings == SetErrors(sel, LegacyTarget(run), store)
          && r.count + |r.warnings| == r.total)
    ensures r.LegacyFailed? <==>
      || run.sourceParsed.Malformed? || run.targetParsed.Malformed? || run.sourceCookies.FetchFailed?
      || Selected(run.sourceCookies.cookies, run.filter) == []
      || CompletedCalls(WriteAttempts(Selected(run.sourceCookies.cookies, run.filter), LegacyTarget(run), store)) == {}
    ensures run.sourceParsed.Malformed? ==> r == LegacyFailed(run.sourceParsed.message)
    ensures run.sourceParsed.Url? && run.targetParsed.Malformed? ==> r == LegacyFailed(run.targetParsed.message)
    ensures run.sourceParsed.Url? && run.targetParsed.Url? && run.sourceCookies.FetchFailed? ==>
      r == LegacyFailed(run.sourceCookies.message)
    ensures run.sourceParsed.Url? && run.targetParsed.Url? && run.sourceCookies == Fetched([]) ==>
      r == LegacyFailed("No cookies found for " + run.sourceParsed.hostname)
    ensures (run.sourceParsed.Url? && run.targetParsed.Url? && run.sourceCookies.Fetched? && run.sourceCookies.cookies != []
             && Selected(run.sourceCookies.cookies, run.filter) == []) ==> r == LegacyFailed(NoMatchMessage)
    ensures (run.sourceParsed.Url? && run.targetParsed.Url? && run.sourceCookies.Fetched?
             && Selected(run.sourceCookies.cookies, run.filter) != []
             && CompletedCalls(WriteAttempts(Selected(run.sourceCookies.cookies, run.filter), LegacyTarget(run), store)) == {}) ==>
      r == LegacyFailed(NothingTransferredMessage(SetErrors(Selected(run.sourceCookies.cookies, run.filter), LegacyTarget(run), store)))
  {
    match run.sourceParsed
    case Malformed(m) => LegacyFailed(m)
    case Url(_, sourceHost) =>
      match run.targetParsed
      case Malformed(m) => LegacyFailed(m)
      case Url(protocol, host) =>
        match run.sourceCookies
        case FetchFailed(m) => LegacyFailed(m)
        case Fetched(cs) =>
          if cs == [] then LegacyFailed("No cookies found for " + sourceHost)
          else
            var sel := Selected(cs, run.filter);
            if sel == [] then LegacyFailed(NoMatchMessage)
            else
              var t := Target(run.targetUrl, host, protocol, None);
              var errors := SetErrors(sel, t, store);
              SetErrorsCount(sel, t, store);
              CallCounts(WriteAttempts(sel, t, store));
              if |errors| == |sel| then LegacyFailed(NothingTransferredMessage(errors))
              else Moved(|sel| - |errors|, |sel|, errors)
  }

  /** The `chrome.cookies.set` calls `transferCookies` issues. */
  function LegacyIssued(run: LegacyRun): (w: seq<SetDetails>)
    ensures run.sourceCookies == Fetched([]) ==> w == []
  {
    match (run.sourceParsed, run.targetParsed, run.sourceCookies)
    case (Url(_, _), Url(protocol, host), Fetched(cs)) =>
      LegacyWrites(Selected(cs, run.filter), Target(run.targetUrl, host, protocol, None))
    case _ => []
  }

  /** `transferCookies(sourceUrl, targetUrl, cookieFilter)`. */
  method TransferCookies(run: LegacyRun, store: SetDetails -> Attempt) returns (r: LegacyResult, writes: seq<SetDetails>)
    ensures r == LegacyOutcome(run, store)
    ensures writes == LegacyIssued(run)
  {
    writes := [];
    if run.sourceParsed.Malformed? {
      return LegacyFailed(run.sourceParsed.message), writes;
    }
    if run.targetParsed.Malformed? {
      return LegacyFailed(run.targetParsed.message), writes;
    }
    if run.sourceCookies.FetchFailed? {
      return LegacyFailed(run.sourceCookies.message), writes;
    }
    var cs := run.sourceCookies.cookies;
    if |cs| == 0 {
      return LegacyFailed("No cookies found for " + run.sourceParsed.hostname), writes;
    }
    var sel := Selected(cs, run.filter);
    if |sel| == 0 {
      return LegacyFailed(NoMatchMessage), writes;
    }
    var t := Target(run.targetUrl, run.targetParsed.hostname, run.targetParsed.protocol, None);
    var transferred, errors;
    transferred, errors, writes := SetEach(sel, t, store);
    if transferred == 0 {
      return LegacyFailed(NothingTransferredMessage(errors)), writes;
    }
    r := Moved(transferred, |sel|, errors);
  }

  /** The loop of `transferCookies`: every selected cookie is written; the
      ones whose write throws are reported. */
  method SetEach(sel: seq<Cookie>, t: Target, store: SetDetails -> Attempt)
    returns (transferred: nat, errors: seq<string>, writes: seq<SetDetails>)
    ensures errors == SetErrors(sel, t, store)
    ensures writes == LegacyWrites(sel, t)
    ensures transferred + |errors| == |sel|
  {
    transferred := 0;
    errors := [];
    writes := [];
    for i := 0 to |sel|
      invariant errors == SetErrors(sel[..i], t, store)
      invariant transferred + |errors| == i
      invariant writes == LegacyWrites(sel[..i], t)
    {
      assert sel[..i + 1][..i] == sel[..i];
      var d := Prepare(sel[i], t.url, t.host, t.protocol, t.storeId);
      writes := writes + [d];
      match store(d)
      case Threw(m) =>
        errors := errors + [FailureMessage(sel[i].name, m)];
      case Done =>
        transferred := transferred + 1;
    }
    assert sel[..|sel|] == sel;
  }

  /** The URL a cookie is removed under. */
  function RemovalUrl(c: Cookie): string {
    (if c.secure then "https" else "http") + "://" + c.domain + c.path
  }

  /** A cookie is removed over https exactly when it is secure. */
  lemma RemovalScheme(c: Cookie)
    ensures StartsWith(RemovalUrl(c), "https://") <==> c.secure
  {
    if !c.secure {
      assert RemovalUrl(c)[4] == ':';
    }
  }

  /** The arguments of one `chrome.cookies.remove` call. */
  datatype Removal = Removal(url: string, name: string)

  datatype ClearRun = ClearRun(targetParsed: ParsedUrl, targetCookies: Fetch)

  datatype ClearResult = Cleared(count: nat, total: nat, warnings: seq<string>) | NothingToClear | ClearFailed(error: string)

  function RemoveMessage(name: string, message: string): string {
    "Failed to remove cookie " + name + ": " + message
  }

  /** The removal `clearCookies` issues for `c`. */
  function RemovalOf(c: Cookie): Removal {
    Removal(RemovalUrl(c), c.name)
  }

  /** How each `chrome.cookies.remove` call for `cs` ends, in order. */
  function RemovalAttempts(cs: seq<Cookie>, remove: Removal -> Attempt): (r: seq<Attempt>)
    ensures |r| == |cs|
    ensures forall i :: 0 <= i < |cs| ==> r[i] == remove(RemovalOf(cs[i]))
  {
    if cs == [] then []
    else RemovalAttempts(cs[..|cs| - 1], remove) + [remove(RemovalOf(cs[|cs| - 1]))]
  }

  /** The error messages of the removals that threw, in order. */
  function RemoveErrors(cs: seq<Cookie>, remove: Removal -> Attempt): (errors: seq<string>)
    ensures |errors| <= |cs|
  {
    if cs == [] then []
    else
      var c := cs[|cs| - 1];
      RemoveErrors(cs[..|cs| - 1], remove) + match remove(RemovalOf(c))
        case Threw(m) => [RemoveMessage(c.name, m)]
        case Done => []
  }

  /** There is one message per removal that throws. */
  lemma {:induction false} RemoveErrorsCount(cs: seq<Cookie>, remove: Removal -> Attempt)
    ensures |RemoveErrors(cs, remove)| == |FailedCalls(RemovalAttempts(cs, remove))|
  {
    if cs == [] {
      assert FailedCalls([]) == {};
    } else {
      var n := |cs| - 1;
      RemoveErrorsCount(cs[..n], remove);
      CallsSnoc(RemovalAttempts(cs[..n], remove), remove(RemovalOf(cs[n])));
    }
  }

  /** The messages come in source order: those of a prefix, then those of
      the rest. */
  lemma {:induction false} RemoveErrorsInOrder(a: seq<Cookie>, b: seq<Cookie>, remove: Removal -> Attempt)
    ensures RemoveErrors(a + b, remove) == RemoveErrors(a, remove) + RemoveErrors(b, remove)
  {
    if b == [] {
      assert a + b == a;
    } else {
      var n := |b| - 1;
      assert (a + b)[..|a + b| - 1] == a + b[..n];
      assert (a + b)[|a + b| - 1] == b[n];
      RemoveErrorsInOrder(a, b[..n], remove);
    }
  }

  /** A single cookie reports its own message exactly when its removal throws. */
  lemma RemoveErrorsOfOne(c: Cookie, remove: Removal -> Attempt)
    ensures RemoveErrors([c], remove) ==
      match remove(RemovalOf(c))
      case Threw(m) => [RemoveMessage(c.name, m)]
      case Done => []
  {
    assert [c][..0] == [];
  }

  /** The result `clearCookies` returns. A host without cookies is a
      success with nothing cleared. */
  function ClearOutcome(run: ClearRun, remove: Removal -> Attempt): (r: ClearResult)
    ensures r.Cleared? ==>
      && run.targetCookies.Fetched?
      && r.count + |r.warnings| == r.total == |run.targetCookies.cookies| > 0
      && r.count == |CompletedCalls(RemovalAttempts(run.targetCookies.cookies, remove))|
      && r.warnings == RemoveErrors(run.targetCookies.cookies, remove)
    ensures r.NothingToClear? <==> run.targetParsed.Url? && run.targetCookies == Fetched([])
    ensures r.ClearFailed? <==> run.targetParsed.Malformed? || run.targetCookies.FetchFailed?
    ensures run.targetParsed.Malformed? ==> r == ClearFailed(run.targetParsed.message)
    ensures run.targetParsed.Url? && run.targetCookies.FetchFailed? ==> r == ClearFailed(run.targetCookies.message)
    ensures r.Cleared? && (forall c :: c in run.targetCookies.cookies ==> remove(RemovalOf(c)) == Done) ==>
      r.count == r.total && r.warnings == []
  {
    match run.targetParsed
    case Malformed(m) => ClearFailed(m)
    case Url(_, _) =>
      match run.targetCookies
      case FetchFailed(m) => ClearFailed(m)
      case Fetched(cs) =>
        if cs == [] then NothingToClear
        else
          var errors := RemoveErrors(cs, remove);
          RemoveErrorsCount(cs, remove);
          CallCounts(RemovalAttempts(cs, remove));
          AllRemoved(cs, remove);
          Cleared(|cs| - |errors|, |cs|, errors)
  }

  lemma {:induction false} AllRemoved(cs: seq<Cookie>, remove: Removal -> Attempt)
    ensures (forall c :: c in cs ==> remove(RemovalOf(c)) == Done) ==> RemoveErrors(cs, remove) == []
  {
    if cs != [] {
      assert cs == cs[..|cs| - 1] + [cs[|cs| - 1]];
      AllRemoved(cs[..|cs| - 1], remove);
    }
  }

  /** `clearCookies(targetUrl)`: one removal per cookie of the host, in order. */
  method ClearCookies(run: ClearRun, remove: Removal -> Attempt) returns (r: ClearResult, removals: seq<Removal>)
    ensures r == ClearOutcome(run, remove)
    ensures run.targetCookies.Fetched? && run.targetParsed.Url? ==>
      |removals| == |run.targetCookies.cookies| &&
      forall i :: 0 <= i < |removals| ==> removals[i] == RemovalOf(run.targetCookies.cookies[i])
    ensures !(run.targetCookies.Fetched? && run.targetParsed.Url?) ==> removals == []
  {
    removals := [];
    if run.targetParsed.Malformed? {
      return ClearFailed(run.targetParsed.message), removals;
    }
    if run.targetCookies.FetchFailed? {
      return ClearFailed(run.targetCookies.message), removals;
    }
    var cookies := run.targetCookies.cookies;
    if |cookies| == 0 {
      return NothingToClear, removals;
    }
    var clearedCount, errors;
    clearedCount, errors, removals := RemoveEach(cookies, remove);
    r := Cleared(clearedCount, |cookies|, errors);
  }

  /** The loop of `clearCookies`: every cookie is removed; the ones whose
      removal throws are reported. */
  method RemoveEach(cookies: seq<Cookie>, remove: Removal -> Attempt)
    returns (clearedCount: nat, errors: seq<string>, removals: seq<Removal>)
    ensures errors == RemoveErrors(cookies, remove)
    ensures clearedCount + |errors| == |cookies|
    ensures |removals| == |cookies|
    ensures forall i :: 0 <= i < |cookies| ==> removals[i] == RemovalOf(cookies[i])
  {
    clearedCount := 0;
    errors := [];
    removals := [];
    for i := 0 to |cookies|
      invariant errors == RemoveErrors(cookies[..i], remove)
      invariant clearedCount + |errors| == i
      invariant |removals| == i
      invariant forall k :: 0 <= k < i ==> removals[k] == RemovalOf(cookies[k])
    {
      assert cookies[..i + 1][..i] == cookies[..i];
      var cookie := cookies[i];
      var removal := RemovalOf(cookie);
      removals := removals + [removal];
      match remove(removal)
      case Threw(m) =>
        errors := errors + [RemoveMessage(cookie.name, m)];
      case Done =>
        clearedCount := clearedCount + 1;
    }
    assert cookies[..|cookies|] == cookies;
  }
}
