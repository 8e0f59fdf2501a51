# UserScripts core: link rewriter and bottom-area resizer

This project models two browser user scripts and proves properties of the models.

**Link rewriter** (`Link_Rewriter_v0.02.js`). The script decides two things:
- whether the current page qualifies: every `baseMatch` rule must accept `location.href`;
- whether an anchor's `href` qualifies: external-only, plus the include and exclude substring lists.

For a qualifying link it runs an ordered list of URL actions:
- remove a query parameter, optionally only when it has a given value;
- add or overwrite a query parameter;
- remove a raw substring;
- add a suffix, either as a query join or as a path suffix;
- add a prefix;
- an unknown action type is a no-op.

It then recomposes the URL as origin + path + search + hash. An anchor's attribute is written only when the result differs from the original.

The browser's URL parser, `encodeURIComponent`, the form encoder and `RegExp.prototype.test` are parameters (`LinkRewriter.Env`). Three parts are modelled as defined by the WHATWG URL Standard:
- the URLSearchParams methods `has`, `get`, `delete` and `set` (section 6.2);
- their "update steps", which reserialize `search`;
- the application/x-www-form-urlencoded serializer and parser (sections 5.1 and 5.2).

The models are supported by two foundations:
- string search (`indexOf`, `includes`, `replace` with a string pattern, `split`);
- `parseInt(s, 10)` over unbounded integers together with `String(n)`.

The main results are:
- the query round trip;
- the per-action contracts;
- `transformUrlString`'s loop proved against the pipeline function;
- idempotence of removal-only pipelines: when the parser reads the transform's result back as the URL it came from, re-sanitizing an anchor after the observer fires writes at most once.

**Bottom-area resizer** (`ChatGPT_Bottom_Area_Resizer_v0.06.js`). The model covers:
- the clamp to `[120, round(0.8 * innerHeight)]`;
- the stored-height fallback to 420;
- the drag state machine, whose fields live in class `Resizer.Resizer`: mouse down sets the start point, mouse move sets a pending height, a throttled save and at most one scheduled frame, the frame flush applies it, mouse up flushes and persists, and double click resets;
- the mutation observer's guard and its debounce timer on an integer millisecond clock;
- the bounded `init` retry loop.

## Model

| member | source | states |
|---|---|---|
| LinkRewriter.PageMatchesEvery | Link_Rewriter_v0.02.js:51-55 | the page qualifies iff every RegExp rule tests true on `location.href` and every string rule is a substring of it |
| LinkRewriter.AnyIncludedSpec | Link_Rewriter_v0.02.js:62 | `arr.some(s => href.includes(s))` holds iff some entry occurs in the link |
| LinkRewriter.IncludesAnySpec | Link_Rewriter_v0.02.js:61-63 | `includesAny` is true for an empty list, otherwise iff some entry is a substring of the link |
| LinkRewriter.ExcludesAnySpec | Link_Rewriter_v0.02.js:64-66 | `excludesAny` is true for an empty list, otherwise iff no entry is a substring of the link |
| LinkRewriter.ShouldProcessHref | Link_Rewriter_v0.02.js:132-138 | a missing or empty href never qualifies; with `onlyExternal` a qualifying link parses against the page and has a different host (an unparsable link is not external) |
| LinkRewriter.ShouldProcessHrefSpec | Link_Rewriter_v0.02.js:132-138 | a link qualifies iff it is non-empty, external when required, contains an included entry (if any) and no excluded entry |
| LinkRewriter.TransformUrlString | Link_Rewriter_v0.02.js:69-130 | the loop over the actions computes exactly the action-by-action fold `TransformUrl`; a link that does not parse is returned unchanged |
| LinkRewriter.StripSeparator | Link_Rewriter_v0.02.js:106 | `v.replace(/^[?&]/, '')` drops exactly one leading `?` or `&` and otherwise leaves `v` alone |
| LinkRewriter.Anchor.Sanitize | Link_Rewriter_v0.02.js:140-145 | the attribute is rewritten (one write) exactly when the link qualifies and the transform changes it; otherwise nothing changes |
| LinkRewriter.Anchor.constructor | Link_Rewriter_v0.02.js:141 | an anchor starts with its `href` attribute and no writes |
| ActionProperties.RemoveQueryParamSpec | Link_Rewriter_v0.02.js:76-82 | with a key: without `ifValueIs` every pair of the key is deleted; with it, deletion happens iff the first value equals it. Other pairs keep multiplicity and order; origin, host, path and hash stay. Otherwise the URL is unchanged |
| ActionProperties.FirstIndexOfHas | Link_Rewriter_v0.02.js:78 | a key that `has` reports has a first position, whose value is what `get` returns |
| ActionProperties.AddQueryParamSpec | Link_Rewriter_v0.02.js:83-90 | a present key is left alone unless `overwrite`; otherwise `get` yields the value (or "" when none is given), the key occurs once and the other pairs are kept; origin, host, path and hash stay; an absent key is appended at the end |
| ActionProperties.AddQueryParamIdempotent | Link_Rewriter_v0.02.js:83-90 | applying the same `addQueryParam` twice equals applying it once |
| ActionProperties.NoOpActions | Link_Rewriter_v0.02.js:76-124 | an action with a falsy key or value, or of an unknown type, leaves the URL unchanged |
| ActionProperties.ReparseFallback | Link_Rewriter_v0.02.js:91-121 | when the rebuilt string does not parse the URL is kept; otherwise it is replaced by the parse |
| ActionProperties.RemoveSubstringSpec | Link_Rewriter_v0.02.js:91-97 | `removeSubstring` re-parses the serialized URL with the first occurrence of the value cut out, shorter by the length of the value, and keeps the URL when that does not parse |
| ActionProperties.RemoveSubstringAbsent | Link_Rewriter_v0.02.js:91-97 | without an occurrence the serialized URL is re-parsed as it is |
| ActionProperties.SuffixedSpec | Link_Rewriter_v0.02.js:98-114 | a non-query suffix extends the path before the search; a query-like suffix joins the search |
| ActionProperties.JoinQueryAppendsPairs | Link_Rewriter_v0.02.js:102-107 | the corrected join gives a search starting with `?` whose pairs are the old pairs followed by the suffix's pairs |
| ActionProperties.JoinQueryAsWrittenDropsSeparator | Link_Rewriter_v0.02.js:104-106 | the source's join differs from the corrected one iff the suffix starts with the separator that would be needed, and then that separator is missing |
| ActionProperties.AsWrittenMergesPairs | Link_Rewriter_v0.02.js:104-106 | `addSuffix('&b=2')` on `?a=1` builds `?a=1b=2`, one pair, where two were intended |
| ActionProperties.AsWrittenAgreesWithoutLeadingSeparator | Link_Rewriter_v0.02.js:69-130 | the source's `transformUrlString` and the corrected pipeline agree on every URL when no `addSuffix` value starts with `?` or `&` |
| ActionProperties.TransformAgreesWithoutLeadingSeparator | Link_Rewriter_v0.02.js:69-130 | the source's `transformUrlString` returns what the corrected one returns on every link when no `addSuffix` value starts with `?` or `&` |
| ActionProperties.ShippedConfigAgreesAsWritten | Link_Rewriter_v0.02.js:33-46 | under the shipped configuration the source's transform and the corrected one return the same string |
| ActionProperties.AsWrittenTransformMergesPairs | Link_Rewriter_v0.02.js:98-114 | on a URL with search `?a=1`, the source's transform with `addSuffix('&b=2')` re-parses `...?a=1b=2...`, the corrected one `...?a=1&b=2...` |
| ActionProperties.AsWrittenLosesQueryMark | Link_Rewriter_v0.02.js:104-106 | `addSuffix('?b=2')` on a URL without a search builds `b=2` with no `?` |
| ActionProperties.ApplyActionsAppend | Link_Rewriter_v0.02.js:74-126 | running two action lists in a row equals running their concatenation |
| ActionProperties.TransformUnparsable | Link_Rewriter_v0.02.js:70-72 | a link that does not parse is returned unchanged |
| ActionProperties.NoTrailingQueryMark | Link_Rewriter_v0.02.js:128-129 | removing the only query parameter recomposes as origin + path + hash, with no trailing `?` |
| RemovalIdempotence.RemovalsPreserve | Link_Rewriter_v0.02.js:76-82 | removal steps never bring a key back, leave `get` of every surviving key as it was, and once one fires the search agrees with the params |
| RemovalIdempotence.RemovalSettled | Link_Rewriter_v0.02.js:76-82 | every removal step of a list is a no-op on that list's result |
| RemovalIdempotence.AllNoOps | Link_Rewriter_v0.02.js:74-126 | a list of steps that each leave a URL fixed leaves it fixed |
| RemovalIdempotence.RemovalsIdempotent | Link_Rewriter_v0.02.js:74-126 | a removal-only pipeline applied to its own result changes nothing |
| RemovalIdempotence.TransformIdempotent | Link_Rewriter_v0.02.js:69-130 | `transformUrlString` with removal-only actions is idempotent when the parser reads its result back |
| RemovalIdempotence.ShippedConfigRemovesOnly | Link_Rewriter_v0.02.js:33-46 | the shipped configuration consists of removals only |
| RemovalIdempotence.SanitizeTwice | Link_Rewriter_v0.02.js:184-196 | sanitizing an anchor twice, as the observer does after the script's own write, writes at most once |
| SearchParams.HasTail | Link_Rewriter_v0.02.js:85 | `has` on a non-empty list is the head's name or `has` of the tail |
| SearchParams.HasCount | Link_Rewriter_v0.02.js:85 | `has` holds iff some pair carries the name |
| SearchParams.GetSpec | Link_Rewriter_v0.02.js:78 | `get` is null iff `has` is false, and otherwise yields the first pair's value |
| SearchParams.DeleteSpec | Link_Rewriter_v0.02.js:79 | after `delete`, no pair has the name, every other pair is kept with its multiplicity and order, and the count drops by the number removed |
| SearchParams.DeleteAbsent | Link_Rewriter_v0.02.js:79 | deleting an absent name changes nothing |
| SearchParams.DeleteOther | Link_Rewriter_v0.02.js:79 | deleting a name leaves `has` and `get` of every other name as they were |
| SearchParams.SubsequenceDropHead | Link_Rewriter_v0.02.js:79 | a subsequence of a list's tail is a subsequence of the list |
| SearchParams.SetGet | Link_Rewriter_v0.02.js:87 | after `set`, `get` yields the value and exactly one pair has the name |
| SearchParams.SetKeepsOthers | Link_Rewriter_v0.02.js:87 | `set` leaves the pairs of other names as they were, in order |
| SearchParams.SetAppends | Link_Rewriter_v0.02.js:87 | without a pair of that name `set` appends one |
| SearchParams.SetReplacesFirst | Link_Rewriter_v0.02.js:87 | `set` replaces the first pair of that name in place and drops the later ones |
| SearchParams.SetIdempotent | Link_Rewriter_v0.02.js:87 | setting the same pair twice equals setting it once |
| Urls.SearchOf | Link_Rewriter_v0.02.js:129 | the search is empty iff no params remain, and otherwise is `?` followed by their serialization |
| Urls.UpdateParamsRoundTrip | Link_Rewriter_v0.02.js:79-87 | after `delete`/`set` the search agrees with the params and parses back to exactly them |
| Urls.UpdateSameParams | Link_Rewriter_v0.02.js:79-87 | updating a reserialized URL with its own params changes nothing |
| FormUrlencoded.Serialize | Link_Rewriter_v0.02.js:79-87 | a params list serializes to the empty string iff it is empty |
| FormUrlencoded.ParsePiecesAppend | Link_Rewriter_v0.02.js:78-85 | parsing the pieces of two lists yields the two results concatenated |
| FormUrlencoded.ParseAppend | Link_Rewriter_v0.02.js:106 | joining two query strings with `&` concatenates their pairs |
| FormUrlencoded.ParseEmpty | Link_Rewriter_v0.02.js:104 | the empty query holds no pairs |
| FormUrlencoded.ParseSerializedPair | Link_Rewriter_v0.02.js:79-87 | one serialized pair parses back to itself |
| FormUrlencoded.ParseSerialize | Link_Rewriter_v0.02.js:79-87 | parsing undoes serializing, for names and values the encoder escapes |
| Strings.IndexFrom | Link_Rewriter_v0.02.js:94 | the scan finds an occurrence at or after the start, and none before it |
| Strings.IndexOf | Link_Rewriter_v0.02.js:94 | the leftmost occurrence when there is one; none iff the pattern does not occur |
| Strings.Includes | Link_Rewriter_v0.02.js:53-65 | `includes` holds iff the pattern is a substring |
| Strings.RemoveFirst | Link_Rewriter_v0.02.js:94 | `replace(value, '')` removes only the first occurrence and is the identity without one |
| Strings.SplitOn | Link_Rewriter_v0.02.js:78-85 | splitting always yields at least one piece |
| Strings.SplitWithout | Link_Rewriter_v0.02.js:78-85 | a string without the separator is one piece |
| Strings.SplitAppend | Link_Rewriter_v0.02.js:106 | splitting distributes over a separator placed between two strings |
| Strings.SplitJoin | Link_Rewriter_v0.02.js:79-87 | splitting undoes joining pieces free of the separator |
| Decimal.DigitChar | ChatGPT_Bottom_Area_Resizer_v0.06.js:97-129 | each digit value has a digit character that denotes it |
| Decimal.NatToString | ChatGPT_Bottom_Area_Resizer_v0.06.js:97-129 | `String(n)` of a natural number is a non-empty run of digits without a leading zero |
| Decimal.TrimStart | ChatGPT_Bottom_Area_Resizer_v0.06.js:87 | `parseInt` drops the longest white-space prefix: every dropped character is white space and the rest does not start with one |
| Decimal.LeadingDigits | ChatGPT_Bottom_Area_Resizer_v0.06.js:112 | `parseInt` reads the longest run of leading digits |
| Decimal.DigitsValueOfNat | ChatGPT_Bottom_Area_Resizer_v0.06.js:87 | the digits of `String(n)` denote `n` |
| Decimal.LeadingDigitsStop | ChatGPT_Bottom_Area_Resizer_v0.06.js:128 | the digit run ends where a non-digit (such as `px`) begins |
| Decimal.ParseDigitsOfString | ChatGPT_Bottom_Area_Resizer_v0.06.js:87 | the unsigned stage reads `String(m)` back, also with trailing non-digit text |
| Decimal.ParseIntOfString | ChatGPT_Bottom_Area_Resizer_v0.06.js:87-128 | `parseInt(String(n) + rest, 10) == n` when `rest` does not start with a digit, e.g. a measured `"520px"` |
| Decimal.ParseIntNaN | ChatGPT_Bottom_Area_Resizer_v0.06.js:87-88 | text without digits parses to NaN |
| Resizer.ViewportCap | ChatGPT_Bottom_Area_Resizer_v0.06.js:31 | `Math.round(innerHeight * 0.8)`: the integer nearest to 80% of the viewport, halves up |
| Resizer.Clamp | ChatGPT_Bottom_Area_Resizer_v0.06.js:31 | never below 120, never above the cap unless the cap is below 120, identity within the range, each bound reached beyond it |
| Resizer.ClampMonotone | ChatGPT_Bottom_Area_Resizer_v0.06.js:31 | the clamp is monotone |
| Resizer.MoveUpNeverShrinks | ChatGPT_Bottom_Area_Resizer_v0.06.js:117-118 | moving the pointer further up never lowers the requested height |
| Resizer.SavedHeightRestores | ChatGPT_Bottom_Area_Resizer_v0.06.js:87-88 | a stored height reads back as itself |
| Resizer.SavedHeightFallback | ChatGPT_Bottom_Area_Resizer_v0.06.js:87-88 | an empty store, a stored NaN or text without digits gives 420 |
| Resizer.Resizer.constructor | ChatGPT_Bottom_Area_Resizer_v0.06.js:86-93 | the first attachment applies the saved height (unclamped) and starts idle, with nothing pending |
| Resizer.Resizer.ApplyHeight | ChatGPT_Bottom_Area_Resizer_v0.06.js:39-47 | the height is applied and `true` returned iff the target exists |
| Resizer.Resizer.SaveThrottled | ChatGPT_Bottom_Area_Resizer_v0.06.js:95-98 | a save happens, moving `lastSave` to now, iff more than 150 ms passed; otherwise nothing changes |
| Resizer.Resizer.Flush | ChatGPT_Bottom_Area_Resizer_v0.06.js:99-104 | nothing without a pending height; otherwise it is applied and pending and frame are cleared; a frame is scheduled iff a height is pending |
| Resizer.Resizer.OnDown | ChatGPT_Bottom_Area_Resizer_v0.06.js:106-114 | without a target nothing happens; otherwise dragging starts at the pointer and the measured height, or `initial` when that is NaN or 0 |
| Resizer.Resizer.OnMove | ChatGPT_Bottom_Area_Resizer_v0.06.js:115-121 | ignored unless dragging; otherwise the clamped height is pending, saved when the throttle allows, and exactly one frame is scheduled |
| Resizer.Resizer.OnUp | ChatGPT_Bottom_Area_Resizer_v0.06.js:122-130 | ignored unless dragging; otherwise dragging stops, a scheduled frame is flushed at once, and the measured height (or `initial`) is stored |
| Resizer.Resizer.OnDbl | ChatGPT_Bottom_Area_Resizer_v0.06.js:131-136 | dragging stops and 420 is applied and stored, so a reload gives 420 |
| Resizer.Resizer.OnMutation | ChatGPT_Bottom_Area_Resizer_v0.06.js:149-156 | while dragging a mutation is ignored; otherwise the pending timeout is replaced by one 120 ms from now |
| Resizer.Resizer.DebounceTick | ChatGPT_Bottom_Area_Resizer_v0.06.js:152-156 | a due timeout runs once, applying the saved height when the grip attaches; before it is due nothing changes |
| Resizer.Resizer.ForceReapply | ChatGPT_Bottom_Area_Resizer_v0.06.js:161-166 | Alt+R applies the saved height whatever the attach returned |
| Resizer.Init | ChatGPT_Bottom_Area_Resizer_v0.06.js:171-182 | 1 to 20 ticks; it stops at the first successful attach or after the 20th; every earlier attempt failed; the observer starts 150 ms per retry later |
| Resizer.DragScenario | ChatGPT_Bottom_Area_Resizer_v0.06.js:106-130 | pressing at 420 px and moving up 100 px in a 1000 px viewport leaves 520 pending, and after release a reload reads 520 |

## Left out

- DOM wiring is not modelled: querying and creating elements, the grip's styles and readout text, `classList`, `preventDefault`, listener registration, and `sanitizeAnchors`' tree walk. An anchor is its `href` attribute; the resize target is reduced to whether it exists and what its computed height reads.
- MutationObserver delivery order and batching are not modelled. `RemovalIdempotence.SanitizeTwice` models one re-run triggered by the script's own write.
- `clickInterceptor` is not modelled (modifier keys, `window.open` versus `location.href`). It only reuses `shouldProcessHref`, `transformUrlString` and the same conditional write.
- The `window.open` patch is not modelled: it applies the same two functions and ignores their exceptions.
- The URL parser, `encodeURIComponent`, the form encoder and `RegExp.prototype.test` are parameters, not implementations. The model assumes nothing about the parser's results beyond their type. Where a proof needs more, the lemma states it as a hypothesis, e.g. `RemovalIdempotence.TransformIdempotent` needs the parser to read the recomposed result back (`ReparsesResult`).
- `Urls.Href` is `origin + pathname + search + hash`. That is exactly the recomposition at line 129, but it differs from `u.toString()` at lines 94 and 118: it omits userinfo, writes an opaque origin as `null`, and drops an empty query `?` and an empty fragment `#`, which the href serializer keeps (so `https://x.com/p?#` reaches `removeSubstring` and `addPrefix` as `https://x.com/p`).
- The `search` getter is tracked as a field. After `delete`/`set` it is the reserialized query. After a reparse it is whatever the parser returns, so a raw search kept verbatim by the parser is not re-derived.
- `LinkRewriter.TransformUrl` and `LinkRewriter.TransformUrlString` use the corrected `addSuffix` join (see Findings). The source's join is `LinkRewriter.JoinQueryAsWritten`, and the source's whole transform is `LinkRewriter.TransformUrlAsWritten`. `ActionProperties.TransformAgreesWithoutLeadingSeparator` proves the two transforms equal whenever no `addSuffix` value starts with `?` or `&`, which includes the shipped configuration.
- LinkRewriter.Anchor.Sanitize: writes the corrected transform's result. `sanitizeAnchor` (lines 143-144) writes the source's, so the two can differ only when an `addSuffix` value leads with the separator the search needs at that step (see Findings). `ActionProperties.TransformAgreesWithoutLeadingSeparator` proves them equal whenever no `addSuffix` value starts with `?` or `&`, which includes the shipped configuration.
- Configuration values are strings in the model, which leaves out two behaviours of other values:
  - A RegExp `value` for `removeSubstring` (line 94 passes it to `replace` unconverted) acts as a pattern with its flags, so a global one removes every match. The model removes the first occurrence of a text value.
  - The number `0` as `key` or `value` is falsy (lines 77, 84, 92, 99, 116) and skips the step. In the model only a missing value or `""` is falsy, so `"0"` runs the step.
  - Everywhere else the source converts the value with `String` (lines 78, 87, 101, 118), which the string form matches.
- Storage is not modelled: `GM_getValue`/`localStorage`, whether GM is present, JSON encoding and storage exceptions. The store is the text of the stored value, or empty. A failing read behaves like an empty store.
- Floating point is not modelled. Pointer coordinates are integers and only the integer part of `parseInt` matters. `ViewportCap` computes the rounded product exactly. Integers of `parseInt` beyond 2^53 are not rounded.
- Clocks and animation frames are parameters: `now` for `performance.now()`, `frame` for the `requestAnimationFrame` handle, `now` in `DebounceTick` for the time out firing. `cancelAnimationFrame` is the immediate flush in `OnUp`.
- Resizer.Resizer.constructor: a stored height outside [120, cap] is applied as is. Only `onMove` clamps; the initial, debounced, Alt+R and start-up applications do not.
- Resizer.Resizer.DebounceTick: as in the code, the timeout does not re-check `isDragging` when it fires (only the observer callback does), so a drag started within the 120 ms window can be overridden.
- Resizer.Init: the height that each successful tick applies is not modelled. That step is the same `SavedHeight`/`ApplyHeight` pair as `ForceReapply`.
- Listeners left over from earlier grip attachments are not modelled. By reading the code (not executed): after the composer remounts, `attachGripOnce` adds a new closure. The old closure's `window` `mousemove`/`mouseup` listeners (lines 139-140) stay registered and fire first. So the old `onMove` keeps computing a stale pending height from its own `startY`/`startH`. On release the old `onUp` clears the shared `isDragging` (line 124), flushes that stale height if its frame is still scheduled, and stores what it then measures (lines 126-129). The new `onUp` then returns at line 123.
- The Alt+R key test (`e.key.toLowerCase() === 'r'`) is not modelled.

## Findings

| source | as written | input that shows it | evidently intended | confidence | as-written member | corrected member |
|---|---|---|---|---|---|---|
| Link_Rewriter_v0.02.js:104-106 | `sep` is `''` when the suffix already starts with the needed separator, yet `v.replace(/^[?&]/, '')` strips that separator anyway | `addSuffix('&b=2')` on a URL with search `?a=1` builds `?a=1b=2`; `addSuffix('?b=2')` on a URL without a search builds `b=2` | exactly one separator between the old search and the suffix: `?a=1&b=2`, `?b=2` | high, not executed | ActionProperties.JoinQueryAsWrittenDropsSeparator | ActionProperties.JoinQueryAppendsPairs |
