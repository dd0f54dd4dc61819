# YouTube Fast Load, modelled in Dafny

YouTube Fast Load is a browser extension. It makes a watch page start as a
mix (radio) playlist. A request interceptor in the background script
redirects `youtube.com/watch?v=<id>` to the same address with
`list=RD<id>&index=1` appended. It records each rewrite in a cache that is
swept of entries older than five minutes. A content script on the page then
removes the synthetic `list` and `index` from the address bar without a
reload and strips the `Mix - ` token from the page title. That cleanup waits
behind a two-second timer, and every in-page navigation re-arms it.

The model has these modules:

- `SearchParams` (searchparams.dfy): a URL as host, path and an ordered list
  of query pairs. It gives `has`, `get`, `set` and `delete` with the
  semantics of section 6.2 of the WHATWG URL Standard (`get` reads the first
  pair, `set` replaces the first pair and drops the rest or appends, `delete`
  removes every pair). It also gives the serialisation `Search` that stands
  for `url.search`.
- `Text` (text.dfy): `startsWith`, `includes`, and the ECMAScript `\s` set.
  It also holds the title replacement with the pattern `Mix\s*-\s*`.
- `Background` (background.dfy): the rewrite gate, as the pure decision
  `Evaluate`. The class `BackgroundState` holds the `enabled` flag and the
  video cache, and its methods are the interceptor, the cache sweep (a loop
  that deletes in place), the tab-update notification and the message switch.
- `Content` (content.dfy): `isArtificialPlaylist` and the cleaned address.
  The class `ContentScript` holds the page address, title, DOM flags and the
  one pending timer deadline. Its methods form the debounce state machine.
- `Lifecycle` (lifecycle.dfy): the round trip from the interceptor's redirect
  to the content script's cleanup.

Time is an explicit `now` parameter and the timer is an optional deadline.
The DOM is modelled as booleans and strings. Messages between the scripts
are method calls.

The video id comes from the regular expression `[?&]v=([^&]+)`, applied to
the raw query string. The model states this matcher over characters
(`MatchVideoId`) and proves two things about it:

- on a query whose names and values hold no `&` or `?` (and whose names hold
  no `=`), it yields the first `v` pair with a non-empty value
  (`EntriesMatch`);
- it can differ from `searchParams.get('v')`: when the first `v=` is empty,
  even on such a well-formed query (`EmptyVideoIdSkipped`), and when `?v=`
  appears inside another parameter's value (`PatternMatchesInsideValue`).

The first difference matters to the round trip. When the first `v=` is
empty and the pattern still finds an id further on (a later non-empty `v=`,
say), the interceptor redirects, but the content script never recognises
the result and the synthetic playlist stays in the address bar
(`EmptyFirstVideoIdKeepsPlaylist`). On a well-formed query where no `v=` has a
value, `EntriesMatch` leaves no id and so no redirect.

`isArtificialPlaylist` does not read `index` at all (content.js:76-81),
even though every synthetic playlist carries `index=1`. The model follows
the code (`IndexIsIgnored`).

## Model

| member | source | states |
|---|---|---|
| SearchParams.Has | background.js:87-90 | `has(name)` holds iff some pair carries the name |
| SearchParams.Get | content.js:77-78 | `get(name)` is absent iff the name is absent, and otherwise is the value of a pair with that name |
| SearchParams.GetIsFirst | content.js:77-78 | `get(name)` returns the value of the first pair that carries the name |
| SearchParams.Delete | content.js:60-61 | after `delete(name)` no pair carries the name; a pair survives iff it was there with another name; nothing changes if the name was absent |
| SearchParams.DeleteKeepsOthers | content.js:60-61 | `delete` of one name leaves `get` of every other name unchanged |
| SearchParams.DeleteAppend | content.js:60-61 | `delete` keeps the remaining pairs in their original order |
| SearchParams.Set | background.js:94-95 | after `set(name, value)`, `get(name)` is `value`; deleting the name gives the same list as before; exactly one pair carries it; on an absent name the pair is appended at the end |
| SearchParams.ReplaceFirst | background.js:94-95 | the branch of `set` for a name already present: `get(name)` reads the new value, deleting the name gives the same list as before, and exactly one pair carries it |
| SearchParams.SetKeepsOthers | background.js:94-95 | `set` leaves `get` of every other name unchanged |
| SearchParams.SetTwiceAppends | background.js:94-95 | setting two absent names appends both pairs, in call order |
| SearchParams.DeleteTwoAppended | content.js:60-61 | deleting two names that were appended restores the original list |
| SearchParams.Search | background.js:83 | `url.search` is empty iff there are no pairs, and otherwise starts with `?` |
| Text.StartsWith | content.js:80 | a string that `startsWith` a prefix also `includes` it |
| Text.Contains | content.js:80 | `includes` holds iff the substring occurs at some position |
| Text.IsSpace | content.js:103 | `\s` holds for tab, LF, VT, FF, CR and space, and never for `-`, ASCII letters or digits, so `Mix` and `-` are never swallowed by `\s*` |
| Text.SpaceRunIsMaximal | content.js:103 | a greedy `\s*` consumes a run of spaces that the next character cannot extend |
| Text.MixMatchLengthIsMatch | content.js:103 | `Mix\s*-\s*` matches at the start of a string exactly in the shape `Mix`, spaces, `-`, maximal spaces, and that match is unique |
| Text.FirstMix | content.js:103 | finds the leftmost position where the pattern matches, or none iff it matches nowhere |
| Text.ReplaceFirstMix | content.js:103 | without a match the title is unchanged, and the replacement never lengthens it |
| Text.ReplaceFirstMixCutsLeftmost | content.js:103 | the replacement removes exactly the leftmost match and keeps everything before and after it |
| Text.ReplaceFirstMixShortens | content.js:101-103 | a title containing `Mix -` always loses at least four characters |
| Text.ReplaceFirstMixStripsPrefix | content.js:102-103 | a leading `Mix`, spaces, `-`, spaces is removed entirely, and the rest is kept |
| Background.TakeUntilAmp | background.js:2 | the group `([^&]+)` never captures more than the rest of the string, and captures at least one character when the next one is not `&` |
| Background.TakeUntilAmpIsLongestPrefix | background.js:2 | the group `([^&]+)` takes the longest prefix without `&` |
| Background.IsYouTubeWatchUrl | background.js:77-80 | a URL passes iff its host is exactly `youtube.com` or `www.youtube.com` and its path is exactly `/watch`; every passing host contains `youtube.com` |
| Background.MatchVideoId | background.js:82-85 | a found id is never empty, so `if (!videoId) return` rejects only a missing match |
| Background.MatchVideoIdIsLeftmost | background.js:82-85 | no id iff the pattern matches nowhere; otherwise the id is the capture at the leftmost match |
| Background.MatchVideoIdHasNoSeparator | background.js:82-85 | a found id never holds `&` |
| Background.ExtractVideoId | background.js:82-85 | `extractVideoId` is null iff the pattern matches nowhere in `url.search`; a found id is non-empty and holds no `&` |
| Background.EntriesMatch | background.js:82-85 | on a well-formed query, matching the serialised pairs yields the first `v` value that is not empty |
| Background.ExtractVideoIdFromPairs | background.js:82-85 | `extractVideoId` of a well-formed URL is the first non-empty `v` value |
| Background.HasPlaylistParams | background.js:87-90 | holds iff some pair is named `list` or `index`; when it fails, `get` of both names is null |
| Background.PatternMatchesInsideValue | background.js:82-85 | in `?q=a?v=b` the pattern finds the id `b`, although the query has no `v` parameter |
| Background.EmptyVideoIdSkipped | background.js:82-85 | an empty first `v=` is passed over by the pattern, while `get('v')` returns the empty string |
| Background.CreatePlaylistUrl | background.js:92-97 | host and path are kept; `list` reads `RD<id>` and `index` reads `1`; on a query without either, both pairs are appended after the original pairs, in that order |
| Background.Evaluate | background.js:38-51 | a rewrite happens iff the host is one of the two domains, the path is `/watch`, an id is found and neither `list` nor `index` is present; the target is the original pairs followed by `list=RD<id>` and `index=1` |
| Background.RewriteIsIdempotent | background.js:87-97 | evaluating a redirect target again yields no rewrite |
| Background.OtherHostsAndPathsPass | background.js:77-80 | `m.youtube.com` and `/watch/x` are never rewritten |
| Background.ExampleRedirect | background.js:33-63 | `www.youtube.com/watch?v=abc123` is redirected to `?v=abc123&list=RDabc123&index=1` |
| Background.Sweep | background.js:99-108 | what is left after the sweep is exactly the entries at most five minutes old, with their values unchanged, and no new key |
| Background.RecordSurvivesSweep | background.js:54-61 | the record just written survives the sweep that follows it; every other live entry is kept |
| Background.BackgroundState.constructor | background.js:9-13 | the feature starts enabled with an empty cache |
| Background.BackgroundState.OnBeforeRequest | background.js:33-74 | disabled or failing the gate: no redirect and the cache unchanged; otherwise the redirect is the rewrite target and the cache is the old cache with the new record under the id, then swept |
| Background.BackgroundState.RecordRewrite | background.js:54-61 | the cache gets the record under the id (overwriting any older one) and is then swept |
| Background.BackgroundState.CleanCache | background.js:99-108 | the in-place deletion loop leaves exactly the swept cache |
| Background.BackgroundState.OnTabUpdated | background.js:111-123 | a TAB_UPDATED message carrying the tab URL is sent iff the feature is enabled, the status is `complete` and the URL contains `youtube.com` |
| Background.BackgroundState.OnMessage | background.js:126-147 | TOGGLE_ENABLED flips the flag and reports the new value; GET_STATUS reports it; GET_VIDEO_INFO reports the cache entry or none; any other type gets the error; only TOGGLE_ENABLED changes state |
| Background.BackgroundState.ToggleTwice | background.js:132-136 | two toggles restore the flag |
| Content.IsArtificialPlaylist | content.js:76-81 | an artificial page has both `list` and `v`; a non-empty `v=<id>` next to `list=RD<id>` is always recognised |
| Content.IndexIsIgnored | content.js:76-81 | whether a page is artificial does not depend on `index` |
| Content.CleanedUrl | content.js:58-64 | the cleaned address keeps host, path and every other pair, and has no `list` or `index`; an address without them is unchanged; the result is never artificial |
| Content.CleanedUrlKeepsOthers | content.js:60-61 | cleaning leaves `get` of every other parameter unchanged |
| Content.UpdatedTitle | content.js:99-105 | the title changes only when `h1.title` exists and the title contains `Mix -`, and then it gets shorter |
| Content.MixPrefixStripped | content.js:99-105 | `Mix - <song>` becomes `<song>` |
| Content.EarlierLooseMatchRemoved | content.js:101-103 | the guard looks for `Mix -`, but a leading `Mix-` is what gets removed |
| Content.ContentScript.constructor | content.js:10-22 | `init` arms the first cleanup timer two seconds out; the panel starts visible |
| Content.ContentScript.ScheduleCleanup | content.js:42-50 | exactly one timer is pending, due two seconds after the signal |
| Content.ContentScript.HandleNavigation | content.js:37-39 | a navigation re-arms the timer |
| Content.ContentScript.Navigate | content.js:25-33 | the patched `pushState`/`replaceState` and `popstate` change the address and re-arm the timer |
| Content.ContentScript.HandleMessage | content.js:108-114 | TAB_UPDATED re-arms the timer; any other message leaves it as it was |
| Content.ContentScript.UpdatePageTitle | content.js:99-105 | the title becomes `UpdatedTitle` of the old title |
| Content.ContentScript.UpdateUIElements | content.js:84-96 | the panel is hidden iff it exists and the address is artificial; the title is updated |
| Content.ContentScript.CleanupUrl | content.js:53-73 | on an artificial address: the address is cleaned, the timer re-armed and the title updated; otherwise nothing changes; the panel is never hidden; afterwards the address is not artificial |
| Content.ContentScript.FireTimer | content.js:47-73 | the pending timer fires at its deadline and runs the cleanup; a cleanup that changes nothing leaves no timer pending |
| Content.DebounceScenario | content.js:42-50 | signals at t and t+500 give one effective cleanup at t+2500, then a no-op at t+4500, and no timer left |
| Lifecycle.RewriteThenCleanup | background.js:92-97 | when `get('v')` agrees with the extracted id, the redirect target is artificial and cleaning it restores the original address |
| Lifecycle.WellFormedRewriteThenCleanup | background.js:82-97 | the same holds on every well-formed query whose first `v` is not empty |
| Lifecycle.EmptyFirstVideoIdKeepsPlaylist | content.js:76-81 | with an empty first `v`, the redirect target keeps its `list` because the content script does not treat it as artificial |

## Left out

- Browser APIs are not modelled: `storage.local` persistence, `onInstalled`, `storage.onChanged` (background.js:16-30), listener registration, and `tabs.sendMessage` delivery with its swallowed failure. The `enabled` flag is a field and messages are method calls.
- `popup.js` is not part of this model. It only displays and toggles the flag through messages.
- URL parsing and percent- or form-encoding are not modelled. A pair holds the same text in the raw query and in `searchParams`. The scheme, port and fragment are not modelled. A URL that fails to parse, which the `try`/`catch` blocks turn into "no action", is not representable.
- The cache records the original and modified addresses as parsed URLs, not as strings.
- Background.BackgroundState.OnBeforeRequest: both `Date.now()` readings (the record's timestamp and `cleanCache`'s `now`) are the one `now` parameter.
- `state.processedTabs` is not modelled. It is declared and never used.
- Strings are sequences of Unicode scalar values, not UTF-16 code units. The `\s` set is listed code point by code point.
- Real timers, the event loop and the monkey-patching mechanics are not modelled. A timer that fires is modelled by `FireTimer`. The JavaScript handle is never reset to null, but clearing a timer that already fired does nothing, so a fired timer is modelled as no timer.
- DOM changes made by the page itself (the panel or heading appearing later, the page setting its own title) are not modelled. The DOM flags are fixed when the script starts.
