# Cookie sync — a verified model

This project models the synchronisation core of a browser extension. The extension copies cookies from configured production origins ("sources") into a local development origin ("target", such as `http://localhost:3000`). The model covers:

- **the hostname rule** that decides whether a URL is local and so starts an automatic transfer;
- **the per-source engine**, which indexes the target's cookies by `name:path` and puts every source cookie in exactly one bucket: skipped, copied, updated or failed. It rewrites the cookie's attributes for the target;
- **the multi-source aggregation**, whose totals do not depend on the order in which the concurrent per-source transfers complete;
- **the bounded recent-transfer history**, which keeps at most five entries, newest first;
- **the result branching of the automatic and manual transfers**: what is recorded and which notices are sent;
- **the popup's source list**: add with duplicate rejection, remove by index, and reorder by drag and drop;
- **the first-generation engine**: a copy with a comma-separated name filter, and a clear-all loop.

The browser is not modelled. Everything the code learns from it is an input:

- how a URL parses (`ParsedUrl`);
- what `chrome.cookies.getAll` returns (`Fetch`);
- whether each `chrome.cookies.set` or `remove` call completes or throws, as a function from the call's arguments to an `Attempt`;
- the active tab;
- the id the content script gives the start notice;
- the current time.

Storage is a class, `Storage.LocalStore`, whose two fields the operations rewrite. The per-cookie loops and the multi-source loop are methods. Each is proved equal to a specification function, and the properties are proved about those functions.

Some of the code's behaviour is easy to misread, and the model keeps it as written:

- **Localhost prefix.** A hostname that starts with `localhost.` (e.g. `localhost.example.com`) counts as local, like `localhost` itself (`Origin.LocalhostDotPrefix`).
- **Raw target paths.** Target cookies are indexed under their raw path, while source cookies are looked up under their path defaulted to `/`. So a target cookie without a path is never matched (`SyncEngine.PathlessTargetNeverMatches`).
- **Aggregate totals.** The aggregate `totalCookies` is the sum of copied + updated over the successful sources. No sum of the per-source `total` is kept.
- **Manual run with nothing to move.** A manual transfer that moved nothing hides the start notice; an automatic one shows a completion with zero counts.

## Model

| member | source | states |
|---|---|---|
| Text.Lower | src/background/background.js:93 | `toLowerCase`: same length, each character lower-cased |
| Text.Contains | background.js:38 | `includes`: true exactly when the term occurs at some position |
| Text.Trim | background.js:36 | `trim`: the result is a contiguous slice of the input with only whitespace before and after it, and it neither starts nor ends with whitespace; blank strings become empty |
| Text.Split | background.js:36 | `split(',')`: at least one part, no part contains the separator |
| Text.SplitJoin | background.js:36 | joining the parts of a split with the separator gives back the string |
| Origin.IsLocalhostUrl | src/background/background.js:90-101 | a malformed URL is not local; a parsed one is local exactly when its lower-cased hostname is `127.0.0.1` or has `localhost` as its first or last dot-separated label |
| Origin.LabelReading | src/background/background.js:94-97 | the four-way test (`localhost`, `127.0.0.1`, `.localhost` suffix, `localhost.` prefix) is equivalent to the label reading |
| Origin.FirstLabelRule | src/background/background.js:94-97 | the first label is `localhost` iff the hostname is `localhost` or starts with `localhost.` |
| Origin.LastLabelRule | src/background/background.js:94-96 | the last label is `localhost` iff the hostname is `localhost` or ends with `.localhost` |
| Origin.LocalhostDotPrefix | src/background/background.js:97 | every hostname `localhost.` + anything is local, whatever the case of the rest |
| Origin.CaseInsensitive | src/background/background.js:93 | the rule gives the same answer for a hostname and its lower-cased form |
| TargetCookie.EffectivePath | src/background/background.js:383 | `path \|\| '/'` is never empty and keeps a present path |
| TargetCookie.Prepare | src/background/background.js:393-412 | the written cookie has the following attributes: target url and domain; name and value copied; path defaulted; secure only on an https target; httpOnly kept; sameSite defaulting to `lax`; an expiry exactly for persistent cookies with a (non-zero) expiry; the target store id |
| SyncEngine.PathlessTargetNeverMatches | src/background/background.js:371-383 | a target cookie without a path is never matched by a source cookie of the same name |
| SyncEngine.LookupLastWins | src/background/background.js:369-373 | a key is in the lookup iff some target cookie has it, and it maps to the last such cookie |
| SyncEngine.BuildLookup | src/background/background.js:369-373 | the `forEach` loop builds exactly the lookup, holding every target cookie's key |
| SyncEngine.Classify | src/background/background.js:383-428 | skipped iff the key holds the same value; failed iff not skipped and the write throws, with the message `Failed to set cookie <name>: <error>`; updated only over an existing key, copied only for a new key |
| SyncEngine.TallyOf | src/background/background.js:376-429 | every source cookie lands in exactly one bucket: copied + updated + skipped + errors = number of cookies |
| SyncEngine.WritesAreUnskipped | src/background/background.js:386-414 | exactly the non-skipped cookies are written: writes + skipped = number of cookies |
| SyncEngine.WritesFitTarget | src/background/background.js:393-414 | every write goes to the target url, domain and store, never secure on a non-https target, with non-empty path and sameSite, and an expiry only when a persistent source cookie carried that expiry |
| SyncEngine.AfterHoldsSourceValues | src/background/background.js:381-429 | with distinct keys and all writes succeeding, every source cookie is in sync with the target afterwards |
| SyncEngine.AfterKeepsUntouched | src/background/background.js:381-429 | target cookies under keys no source cookie has are left alone |
| SyncEngine.InSyncSkipsAll | src/background/background.js:386-390 | when every cookie is already in sync, all are skipped and nothing is written |
| SyncEngine.SecondRunSkipsAll | src/background/background.js:381-429 | idempotence: after a run whose writes all succeed, a second run copies and updates nothing, skips all and writes nothing (for source cookies with distinct keys) |
| SyncEngine.SharedKeyRewritten | src/background/background.js:381-429 | two source cookies under one key with different values: after a fully successful run the second run still updates one and writes it again |
| SyncEngine.Outcome | src/background/background.js:343-454 | on success: total = number of source cookies > 0, count = copied + updated, buckets sum to total. An empty source fails with `No cookies found for <host>[ in incognito mode]`. The run fails exactly when a URL is malformed, a fetch throws or the source is empty |
| SyncEngine.IssuedWrites | src/background/background.js:355-414 | an empty source issues no write |
| SyncEngine.EmptySourceWritesNothing | src/background/background.js:357-359 | a source with no cookies fails and writes nothing |
| SyncEngine.TransferCookiesFromSource | src/background/background.js:343-454 | the method returns `Outcome` and issues exactly `IssuedWrites`; on success, writes + skipped = total |
| SyncEngine.TransferEach | src/background/background.js:376-429 | the loop computes `TallyOf` and issues `Writes`; writes + skipped = number of cookies |
| MultiSource.SumPermutation | src/background/background.js:297-315 | a sum over source indexes does not depend on the order they complete in |
| MultiSource.SumRemove | src/background/background.js:297-315 | taking one source out of a sum takes out its value |
| MultiSource.SumZero | src/background/background.js:319 | a sum over all sources is zero iff every term is |
| MultiSource.NoSuccesses | src/background/background.js:319 | no source succeeded iff every source failed |
| MultiSource.FailureLineCount | src/background/background.js:317 | there is one error line per failed source |
| MultiSource.FailureLinesPermutation | src/background/background.js:317-337 | two completion orders produce the same error lines, possibly reordered |
| MultiSource.TotalsInConfiguredOrder | src/background/background.js:301-306 | totals summed in completion order equal the sums in configured order |
| MultiSource.Aggregate | src/background/background.js:297-340 | fails iff every source failed, with `Failed to transfer cookies from any source. Errors: ` and the `url: error` lines joined by `; `. Otherwise the totals are sums over the successful sources, sourceCount = successes > 0, attempted = number of sources, and warnings = attempted − sourceCount lines |
| MultiSource.CompletionOrderIrrelevant | src/background/background.js:297-315 | two completion orders give the same verdict and totals; the warnings differ only in order |
| MultiSource.CountSplits | src/background/background.js:302-304 | summed counts split into summed copied plus summed updated |
| MultiSource.TransferredIsCopiedPlusUpdated | src/background/background.js:302-304 | the aggregate total is copied + updated |
| MultiSource.TransferFromMultipleSources | src/background/background.js:255-341 | the loop over the completion order returns `Aggregate` of the per-source outcomes |
| History.PushRecent | src/background/background.js:563-573 | the new record first, then the previous records in order, at most five |
| History.RecentAreLatest | src/background/background.js:568-571 | after any number of saves, the history is the latest records newest first, then the oldest survivors, cut to five |
| History.SaveRecentTransfer | src/background/background.js:563-577 | the stored history becomes `PushRecent` of the old one; the source list is untouched |
| Orchestrator.EnabledUrls | src/background/background.js:110 | the URLs of exactly the enabled entries, no more than there are entries |
| Orchestrator.EnabledInOrder | src/background/background.js:110 | `filter` keeps configured order: the URLs of a concatenation are those of the prefix followed by those of the rest |
| Orchestrator.EnabledOne | src/background/background.js:110 | a single entry yields its URL exactly when it is enabled |
| Orchestrator.Conclude | src/background/background.js:132-174 | a record is saved iff the run succeeded and moved a cookie; on failure the error notice carries the error (`Transfer failed` if empty); with nothing moved and a start notice to update, automatic runs show zero counts and manual runs hide it; otherwise no notice |
| Orchestrator.PerformAutoTransfer | src/background/background.js:103-184 | no enabled source: no notice, no history change. Otherwise a start notice, the multi-source result concluded as automatic, and the history updated accordingly |
| Orchestrator.PerformManualTransfer | src/background/background.js:186-253 | no enabled source: `No enabled source URLs found. Please add some production URLs first.` Otherwise it transfers to `http://localhost:3000`, returns the aggregate, and concludes as manual |
| Registry.Reordered | src/popup/popup.js:145-157 | same length and same entries; the moved entry sits at the splice index of `toIndex`; with it taken out, the others are in their original order |
| Registry.MoveBack | src/popup/popup.js:151-154 | dragging an entry back to where it came from restores the list |
| Registry.ReorderedKeepsUnique | src/popup/popup.js:151-154 | a reorder keeps URLs unique |
| Registry.ReorderSources | src/popup/popup.js:145-166 | the stored list becomes `Reordered` of the old one |
| Registry.RemovedAt | src/popup/popup.js:168-178 | an index in range removes exactly that entry and putting it back restores the list; any other index changes nothing |
| Registry.RemovedKeepsUnique | src/popup/popup.js:173-174 | a removal keeps URLs unique |
| Registry.RemoveSource | src/popup/popup.js:168-182 | the stored list becomes `RemovedAt`; it reports a removal exactly for an index in range |
| Registry.Resolve | src/popup/popup.js:201-231 | typed input is trimmed and accepted iff it parses. Empty input takes `protocol//hostname` of the active tab exactly when its protocol is `http:` or `https:` and that origin parses. A failed tab query or an unparsable tab URL is reported as `Error getting current tab URL: <message>`, a missing tab or tab URL, and a non-web protocol, each get their own message |
| Registry.Added | src/popup/popup.js:233-248 | a listed URL leaves the list unchanged; otherwise one enabled entry is appended; the URL is listed afterwards |
| Registry.AddTwice | src/popup/popup.js:237-240 | adding the same URL twice adds it once |
| Registry.AddedKeepsUnique | src/popup/popup.js:237-246 | the duplicate check keeps URLs unique |
| Registry.IsListed | src/popup/popup.js:237 | the `some` scan finds an entry exactly when one has the URL |
| Registry.AddSource | src/popup/popup.js:199-255 | the status is the rejection message, `URL already exists in the list` or `Source URL added successfully`; the list changes only by `Added` |
| Legacy.FilterParts | background.js:36 | one term per comma-separated part, trimmed and lower-cased |
| Legacy.Keep | background.js:37-39 | a cookie is kept iff some term occurs in its lower-cased name |
| Legacy.KeepInOrder | background.js:37-39 | `filter` keeps source order: the cookies kept from a concatenation are those kept from the prefix followed by those kept from the rest |
| Legacy.KeepOne | background.js:37-39 | a single cookie is kept exactly when its name matches |
| Legacy.Selected | background.js:34-40 | no filter returns the cookies unchanged; otherwise exactly the cookies whose lower-cased name contains a term |
| Legacy.NameCaseIgnored | background.js:38 | matching ignores the case of the name |
| Legacy.BlankTermKeepsAll | background.js:36-38 | a blank term lets every cookie through |
| Legacy.TrailingCommaKeepsAll | background.js:36-38 | a filter ending in a comma lets every cookie through |
| Legacy.LegacyWrites | background.js:50-69 | one write per selected cookie, in order, each the prepared target cookie |
| Legacy.CallCounts | background.js:50-75 | every `set` (or `remove`) call either throws or completes: the positions of the calls that threw and of those that completed together number the calls |
| Legacy.WriteAttempts | background.js:69-74 | how each `chrome.cookies.set` call ends, one per selected cookie, in order |
| Legacy.SetErrors | background.js:50-75 | the error messages of the writes that threw, at most one per cookie |
| Legacy.SetErrorsCount | background.js:50-75 | there is exactly one message per write that throws |
| Legacy.SetErrorsInOrder | background.js:50-75 | the messages come in cookie order: those of a prefix, then those of the rest |
| Legacy.SetErrorsOfOne | background.js:71-73 | a single cookie yields `Failed to set cookie <name>: <error>` exactly when its write throws |
| Legacy.LegacyIsFreshSync | background.js:50-75 | on a target holding none of the source keys, the newer engine issues the same writes, reports the same errors, and neither skips nor updates |
| Legacy.FreshCopiesAreCompleted | background.js:50-75 | on such a target the newer engine's copied count is the legacy engine's count of completed writes |
| Legacy.LegacyOutcome | background.js:18-100 | on success the count is the number of completed writes (positive), the warnings are `SetErrors` of the selected cookies, and count + warnings = total = number selected. Fails exactly on a malformed URL, a throwing fetch, nothing selected, or no write completing, each with its own message: the URL's or fetch's error, `No cookies found for <host>`, `No cookies match the specified filter`, or `Failed to transfer any cookies. Errors: ` and the errors joined by `; ` |
| Legacy.LegacyIssued | background.js:27-69 | an empty source issues no write |
| Legacy.TransferCookies | background.js:18-100 | the method returns `LegacyOutcome` and issues exactly `LegacyIssued` |
| Legacy.SetEach | background.js:47-75 | the loop writes every selected cookie; successes + errors = number of cookies |
| Legacy.RemovalScheme | background.js:119 | a cookie is removed over https exactly when it is secure |
| Legacy.RemovalAttempts | background.js:117-129 | how each `chrome.cookies.remove` call ends, one per cookie, in order |
| Legacy.RemoveErrors | background.js:117-129 | the error messages of the removals that threw, at most one per cookie |
| Legacy.RemoveErrorsCount | background.js:117-129 | there is exactly one message per removal that throws |
| Legacy.RemoveErrorsInOrder | background.js:117-129 | the messages come in cookie order: those of a prefix, then those of the rest |
| Legacy.RemoveErrorsOfOne | background.js:125-127 | a single cookie yields `Failed to remove cookie <name>: <error>` exactly when its removal throws |
| Legacy.AllRemoved | background.js:117-129 | when every removal completes there are no errors |
| Legacy.ClearOutcome | background.js:102-147 | no cookies: success with nothing cleared. Otherwise the count is the number of completed removals, the warnings are `RemoveErrors` of the cookies, count + warnings = total = number of cookies, and all are cleared when no removal throws. Fails exactly on a malformed URL or a throwing fetch, with its error |
| Legacy.RemoveEach | background.js:117-129 | the loop removes every cookie, in order, at `http(s)://domain+path`; its errors are `RemoveErrors`, and cleared + errors = number of cookies |
| Legacy.ClearCookies | background.js:102-147 | the method returns `ClearOutcome` and issues one removal per cookie, in order, at `http(s)://domain+path` |

## Left out

- `chrome.*` calls (`cookies.getAll/set/remove`, `storage.local`, `tabs.query/sendMessage`) are not modelled. Their results are inputs to the model, or functions from a call's arguments to its outcome.
- URL parsing (`new URL`) is an input, `ParsedUrl`. The model never derives a hostname from a string. The manual transfer's fixed target is given its parsed form directly.
- `Promise.all` concurrency and the shared counters are modelled as a sequential loop in a given completion order. A run that interleaves inside one source's transfer is not modelled.
- The incognito store-detection heuristic (`src/background/background.js:264-294`) is not modelled. The source store id is an input.
- Store ids are `Option<string>`; an empty-string store id, which JavaScript would treat as absent, is not distinguished.
- Cookie paths and `sameSite` are strings, and an empty string stands for a missing property. A target cookie with no path is keyed `name:undefined` in JavaScript and `name:` in the model. The keys can collide with different source cookies in the two: in JavaScript a source cookie with the same name and the literal path `undefined` matches; in the model a pathless target cookie named `a:b` matches a source cookie named `a` with path `b:`.
- Text.Lower lower-cases ASCII letters only; JavaScript's `toLowerCase` also maps other Unicode letters.
- Exceptions from `chrome.storage` (the `catch` branches of the popup handlers and of `saveRecentTransfer`) are not modelled.
- The exception branches of `performAutoTransfer` and `performManualTransfer` are not modelled, because nothing in the model throws there.
- Notification delivery is not modelled. A notice is recorded as sent; which tabs receive it is not modelled.
- `Date.now()` is an input (`now`).
- Registry.Reordered: requires a non-empty list and `fromIndex` below its length. A negative `fromIndex` is clamped as `splice` does. For `fromIndex` at or past the end, or on an empty list, JavaScript would insert `undefined`; the drag handlers only pass indexes of rendered rows.
- SyncEngine.SecondRunSkipsAll: requires the source cookies to have distinct `name:path` keys. `getAll({domain})` can return cookies of a parent domain and of subdomains that share a key; the later one's value then wins, and a second run updates the earlier one again (`SyncEngine.SharedKeyRewritten`).
- A `NaN` drop index (`parseInt` of a missing attribute) is not modelled.
- Registry.AddSource models one click at a time. Two overlapping clicks can race on the stored list and lose an update; that race is not modelled.
- There is no literal truth-table example for the localhost rule; the general lemmas cover those hostnames. Dafny unfolds the split of a literal hostname too far for the resource limit.
- `clearLocalhostCookies` (`src/background/background.js:456-517`) and `getCookiesForDomain` are not part of this model.
- The content scripts, the root `popup.js` and the listeners that wire messages to operations are not part of this model.
- Enabling and disabling a source is not part of this model; it has no operation in the popup code.
