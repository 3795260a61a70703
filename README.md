# HSTS checker extension, modelled in Dafny

A model of the background script of a browser extension that watches the
top-level page loads of each tab and reports whether the site sends the
`Strict-Transport-Security` header (HSTS, section 6.1 of RFC 6797) on its
HTTP response, its HTTPS response, or both. The verdict is shown as the
toolbar action's tooltip title and icon.

The model has five modules:

- `Headers` (headers.dfy): `findHeader`, the case-insensitive scan of a
  response's headers. The method `FindHeader` keeps the script's loop; the
  function `LastHsts` is its specification, a last-match-wins fold.
- `Filter` (filter.dfy): `isValidUrl` and `isRequestLoggable`, with
  JavaScript's `String.prototype.indexOf` modelled as `IndexOf`.
- `Verdicts` (verdict.dfy): the decision table of `checkHSTS`, as a function
  from the two optional observations to an optional (title, icon).
- `Correlation` (correlation.dfy): the store `headerStore` (tab id to request
  id to a record with optional `http` and `https` slots) and the four
  handlers as pure transitions on a `State`, with lemmas about sequences of
  events.
- `Background` (background.dfy): the class `Monitor`, whose fields are the
  global `headerStore` and the action's title and icon. Its methods are the
  listeners, updating the fields step by step as the script does. Each is
  proved to perform the matching `Correlation` transition.

Modelling choices:

- The store is keyed by the tab id as an `int`. The script keys it by
  `String(tabId)` in the webRequest listeners and by the number `tab.id` in
  `tabs.onCreated`. JavaScript turns both into the same property name, and
  `String` is injective on integers, so one integer key is equivalent.
- A stored slot is `{enable: true, hsts: h}` in the script. Its `enable` is
  always true and never read, so the model stores `Some(h)`.
- `new URL(info.url).protocol` is passed in as the `Protocol` value of the
  event (`Http`, `Https` or `Other`).
- The three independent `if` statements of `checkHSTS` exclude each other,
  so the pure `CheckHsts` is one `if`/`else` chain. `Monitor.ApplyCheckHsts`
  keeps the three `if`s and is proved equal to it.
- The headers-received quirk is kept as written. When the request has no
  record, the tab's whole map is replaced by one holding only this request,
  and the tab's other in-flight records are lost
  (`Correlation.HeadersReceivedDropsSiblings`).
- When both legs were observed and both carry HSTS, `checkHSTS` shows
  nothing and the previous title and icon stay. The model keeps that gap.
- `tabs.onUpdated` only enables the action and clears nothing, so only
  `tabs.onCreated` resets a tab's map.

## Model

| member | source | states |
|---|---|---|
| `Headers.FindHeader` | background.js:242-260 | The result is the last-match fold `LastHsts`. It is not enabled, with value `""`, iff no header name lower-cases to `strict-transport-security`. Otherwise it is enabled and carries the value of a matching header with no match after it. |
| `Headers.IsHsts` | background.js:252 | A header matches iff its name has the length of `strict-transport-security` and each of its characters is that name's character or its upper-case form, so any mix of upper and lower case matches. |
| `Headers.LastHstsAbsent` | background.js:244-257 | The fold reports the header absent iff no header matches, and an absent report has the empty value. |
| `Headers.LastHstsLastMatch` | background.js:250-257 | If header `i` matches and none after it does, the fold is enabled with header `i`'s value (last occurrence wins). |
| `Headers.LastHstsWitness` | background.js:250-257 | An enabled fold came from a matching header with no match after it, and carries that header's value. |
| `Headers.CanonicalSpellingMatches` | background.js:252 | `Strict-Transport-Security` matches. Of two matching headers with different case, the later value is kept, and a non-matching header between them does not interfere. |
| `Filter.IndexOf` | background.js:210-213 | JavaScript `indexOf`: the result is -1 or an index where the pattern occurs, and no earlier index has an occurrence. It is 0 exactly when the pattern is a prefix. |
| `Filter.IsValidUrl` | background.js:207-214 | A URL is accepted iff it contains none of `sourceid=chrome-instant`, `async/newtab?async=`, `chrome/newtab?`, and does not start with `https://ogs.google.com`. |
| `Filter.IsRequestLoggable` | background.js:201-204 | An event is processed iff its tab id is positive, its frame type is `main_frame`, its URL contains none of the three denied substrings, and it does not start with `https://ogs.google.com`. |
| `Filter.NewTabRejected` | background.js:212 | A URL containing `chrome/newtab?` anywhere is never processed. |
| `Verdicts.CheckHsts` | background.js:153-198 | No verdict iff neither leg was observed, or both were and both carry HSTS. Otherwise the icon is `success` iff some observed leg carries HSTS. It is `danger` iff the HTTP leg was observed and no leg carries it. It is `warning` iff only an HTTPS leg without HSTS was observed. |
| `Verdicts.VerdictTable` | background.js:153-198 | Each of the nine cases gives exactly the source's title and icon, or no verdict. |
| `Verdicts.VerdictIgnoresValues` | background.js:153-198 | The verdict depends only on which legs were observed and their `enable` flags, never on raw header values. |
| `Correlation.Show` | background.js:153-198 | Applying a verdict sets the title and icon to it and leaves the store alone. No verdict changes nothing. |
| `Correlation.BeforeRedirect` | background.js:7-33 | A rejected event changes nothing. A processed one creates the tab's map if missing, and touches no other tab, no other request and not the title or icon. On `http:` the request's record becomes exactly `{http: findHeader(headers)}`, with any `https` slot dropped. On another protocol the store afterwards is the old store with, at most, an empty map added for the tab, so no record is created or changed. |
| `Correlation.HeadersReceived` | background.js:40-80 | A rejected event changes nothing. Other tabs, the title and the icon are unchanged. With no prior record, the tab's map afterwards holds only this request. On `https:` the `https` slot is set and the request's earlier `http` slot is kept. On `http:` the record becomes HTTP-only. With a prior record, the tab's other requests are unchanged. |
| `Correlation.Completed` | background.js:87-115 | With no record (or a rejected event) nothing changes. Otherwise the verdict for the record's slots is shown, and exactly that request's key is removed. The tab keys, other tabs and other requests are unchanged. |
| `Correlation.TabCreated` | background.js:134-141 | The tab's map becomes empty (no record survives), other tabs are unchanged, the title becomes `Empty` and the icon `.`. |
| `Correlation.RejectedIsNoOp` | background.js:9-11 | For an event the filter rejects, all three webRequest handlers leave store, title and icon unchanged. |
| `Correlation.CompletedIdempotent` | background.js:98-115 | A second completion for the same request is a no-op. |
| `Correlation.ResetThenHeaders` | background.js:134-141 | After tab creation, headers received for that tab start a fresh record with no slot from before, and it is the tab's only record. |
| `Correlation.ResetThenCompleted` | background.js:134-141 | After tab creation, a completion in that tab finds no record and changes nothing. |
| `Correlation.HeadersReceivedDropsSiblings` | background.js:54-57 | Headers for a request with no record discard any other request's record in the same tab. |
| `Correlation.RedirectChain` | background.js:7-115 | Redirect on `http:`, then `https:` headers, then completion of the same request: the verdict for both legs' observations is shown, the record is gone, and other tabs are untouched. |
| `Correlation.DirectLoad` | background.js:40-115 | A load without redirect, for a request with no record, shows the verdict for the one observed leg and leaves the tab's map empty. |
| `Correlation.RedirectToHstsSite` | background.js:7-115 | An `http:` response without HSTS redirected to an `https:` response with `max-age=31536000` ends with the `success` icon and the redirect-to-HTTPS title. |
| `Background.Monitor.constructor` | background.js:4 | The store starts empty. |
| `Background.Monitor.ChangeTitle` | background.js:234-239 | The tooltip title becomes the given one. |
| `Background.Monitor.ChangeIcon` | background.js:223-231 | The icon becomes the given status. |
| `Background.Monitor.ApplyCheckHsts` | background.js:153-198 | The three sequential `if`s leave title and icon as `CheckHsts` decides. |
| `Background.Monitor.OnBeforeRedirect` | background.js:7-33 | In-place updates of the listener give the state `Correlation.BeforeRedirect` describes. |
| `Background.Monitor.OnHeadersReceived` | background.js:40-80 | In-place updates of the listener give the state `Correlation.HeadersReceived` describes. |
| `Background.Monitor.OnCompleted` | background.js:87-115 | In-place updates of the listener, including the `delete`, give the state `Correlation.Completed` describes. |
| `Background.Monitor.OnCreated` | background.js:134-141 | The listener gives the state `Correlation.TabCreated` describes. |

## Left out

- Listener registration, the URL and frame-type filters given to the browser, and the `responseHeaders` option (background.js:34-37, 81-84, 116-119): these are host-platform plumbing. The handlers' own `isRequestLoggable` check is modelled.
- `tabs.onActivated` and `tabs.onUpdated` (background.js:122-131, 144-150), and the `chrome.action.enable` call in `tabs.onCreated`: they only enable the action and hold no state.
- The icon path and size construction in `changeIcon` and the `chrome.action` calls themselves: the model keeps only the icon status string and the title.
- URL parsing: the protocol of `new URL(info.url)` is an input of each event.
- `parseInt` on the tab id: the tab id is an integer.
- The `typeof url === 'string'` test: the URL is always a string in the model.
- Headers.IsHsts: lower-cases ASCII letters only, while JavaScript's `toLowerCase` covers all of Unicode. No non-ASCII character lower-cases to a single character of `strict-transport-security`, and header names are ASCII tokens, so the match decided is the same.
- JavaScript property lookup also finds inherited properties. The model assumes tab and request ids never collide with names such as `length` or `constructor` (the browser's ids are decimal numbers).
- The action's initial title and icon come from the extension's manifest and are constructor parameters.
- Event ordering and concurrency: handlers are sequential calls on one state, and no claim is made about the order in which the browser delivers events.
