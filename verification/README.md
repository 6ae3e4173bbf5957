# Yosoro preview core in Dafny

A model of the markdown preview core of the Yosoro editor: the string and
object helpers of `app/views/utils/utils.js` and the controller of the
preview webview in `app/views/component/editor/Preview.jsx`.

- `wrappers.dfy` (`Wrappers`): `Option` for `null`/`undefined`, `Result` for a call that may throw.
- `js.dfy` (`Js`): the JavaScript semantics the helpers rely on. It covers values, the errors they throw,
  the white space of `\s` and `parseInt`, and decimal printing of integers.
  It also covers `parseInt(s, 10)`, ASCII case-insensitive matching and `length` in UTF-16 code units.
- `version.dfy` (`Version`): `formatVersion` and `compareVersion`, the update check.
- `releaseorder.dfy` (`ReleaseOrder`): the release order the update check is meant to decide, and a segment-wise comparator proved to decide it (see Findings).
- `names.dfy` (`Names`): `checkFileName` and `checkSpecial`.
- `renderer.dfy` (`Renderer`): the `checkbox`, `listitem` and `code` overrides of the markdown renderer.
  Each has a partner that parses the produced markup back.
- `format.dfy` (`Format`): `formatNumber`, the two-digit padding of dates.
- `objects.dfy` (`Objects`): `objectInject` on objects modelled as maps, and the merge of `mergeStateFromStorage`.
- `toc.dfy` (`Toc`): `markedTOC` as a filter over the lexer's token list.
- `layout.dfy` (`Layout`): `getBodyWidth`, the width of the preview body.
- `preview.dfy` (`Preview`): the controller as a pure step function from (state, event) to (state, messages sent).
  `Run` folds it over a sequence of events.

The controller model follows what the code does, including these consequences:

- `wv-first-loaded` sends the full render without looking at `webviewReady`.
- Prop updates that arrive before `dom-ready` send nothing and are not queued.
  The full render then carries the props current at that moment.
- `const { fontSize } = this.props.fontSize` reads a property of a number.
  So every `wv-change-fontsize` message carries `undefined`.
- Every `setState` re-renders the component, and `componentDidUpdate` then runs again with unchanged props.
  So `dom-ready`, `wv-first-loaded` (once ready), a width change and an edit-mode resize each send one more `wv-render-html` update when the webview is ready.
- A `setState` inside `componentDidUpdate` takes effect after that call returns.
  So a width change sends an update, then a font-size message if the font size changed as well, then another update.
- `getBodyWidth` reads `offsetWidth` of the preview's `offsetParent`. When that is `null` the call throws a `TypeError`.
  Thrown from `componentDidUpdate`, it ends the component: `mounted` becomes false and later events are ignored.
- `JSON.parse` in `mergeStateFromStorage` is not guarded, so a corrupt stored value makes the merge throw.
- The `code` override embeds the code and the language tag verbatim.
  It neither escapes them nor calls the highlighter.

## Model

| member | source | states |
|---|---|---|
| Js.TrimStart | app/views/utils/utils.js:90 | `parseInt` skips exactly the leading white space: the rest is a suffix, all that was dropped is white space, and the rest does not start with white space |
| Js.TrimStartAt | app/views/utils/utils.js:90 | the white space skipped ends exactly at the first character that is not white space |
| Js.LeadingDigits | app/views/utils/utils.js:90 | the digits `parseInt` reads are the longest run of decimal digits at the front |
| Js.ParseIntOfDecimal | app/views/utils/utils.js:90 | `parseInt` reads back any printed integer, whatever white space precedes it and whatever non-digit text follows it |
| Js.ParseIntRoundTrip | app/views/utils/utils.js:90 | `parseInt(String(n), 10)` is `n` for every integer |
| Js.DecimalInjective | app/views/utils/utils.js:85 | different indices print as different property keys |
| Js.StartsWithIgnoringCaseAt | app/views/component/editor/Preview.jsx:121 | an anchored case-insensitive match holds iff the text is long enough and agrees with the pattern, up to ASCII case, at every position of the pattern |
| Js.Utf16Length | app/views/utils/utils.js:252 | `length` lies between the number of characters and twice that, and equals it exactly when no character is outside the Basic Multilingual Plane |
| Version.StripMarkers | app/views/utils/utils.js:89 | the replace never lengthens the string and leaves no `.`, `v` or `V` in it |
| Version.StripWithoutDash | app/views/utils/utils.js:89 | on text without a `-` the replace keeps every character other than `.`, `v` and `V`, in order |
| Version.StripConcat | app/views/utils/utils.js:89 | text without a `-` is stripped independently of what follows it: no deletion crosses the boundary |
| Version.DigitsThenDot | app/views/utils/utils.js:89 | digits survive and the dot after them goes |
| Version.BetaMarkerStripped | app/views/utils/utils.js:89 | the `-beta` marker is deleted as a whole |
| ReleaseOrder.ShownStrip | app/views/utils/utils.js:89 | deleting the dots and the marker of `major.minor.patch[-beta]` leaves the three numbers' digits side by side |
| ReleaseOrder.FormatVersionOfShown | app/views/utils/utils.js:88-90 | `formatVersion` reads a shown release as the number its run-together digits denote |
| Js.ParseInt | app/views/utils/utils.js:90 | `parseInt(s, 10)`, pinned down by ParseIntRoundTrip, ParseIntOfDecimal and ParseDigitRun: skip white space, take a sign, read the longest digit run, `NaN` when there is none |
| Js.ParseDigitRun | app/views/utils/utils.js:90 | `parseInt` reads a run of digits as the number it denotes, leading zeros included |
| Version.FormatVersion | app/views/utils/utils.js:88-91 | `formatVersion`, pinned down by FormatVersionOfShown and DotStrippingMisorders: delete the dots, every `v` and every `-beta`, then read what is left with `parseInt` |
| Version.IsBeta | app/views/utils/utils.js:106-111 | the case-insensitive `-beta` test, pinned down by ShowBeta and used by CompareVersion: it holds exactly when `-beta` occurs somewhere in the tag |
| Version.CompareVersion | app/views/utils/utils.js:100-127 | update needed iff both versions parse to numbers and the local one is smaller, or equal with local beta and latest release; identical strings and `NaN` on either side give false |
| Version.BetaToRelease | app/views/utils/utils.js:114-116 | same number, local beta, latest release: update |
| Version.ReleaseToBeta | app/views/utils/utils.js:117-119 | same number, local release, latest beta: no update |
| Version.Examples | app/views/utils/utils.js:100-127 | the decision table on `1.2.0`, `1.2.0-beta` and `1.1.0` |
| ReleaseOrder.SplitDots | app/views/utils/utils.js:89 | splitting at the dots gives at least one segment, none of which holds a dot |
| ReleaseOrder.JoinSplit | app/views/utils/utils.js:89 | joining the segments with dots gives the version text back, so splitting loses nothing the dots separate |
| ReleaseOrder.SplitJoin | app/views/utils/utils.js:89 | segments without dots, joined and split again, are the same segments |
| ReleaseOrder.Map | app/views/utils/utils.js:90 | reading every segment keeps the number of segments and reads each one on its own |
| ReleaseOrder.Numbers | app/views/utils/utils.js:90 | the readings become numbers exactly when none is `NaN`, each number being its segment's reading |
| ReleaseOrder.ShowSegments | app/views/utils/utils.js:88-90 | a release tagged as `major.minor.patch[-beta]` reads back segment by segment as its three numbers |
| ReleaseOrder.ShowBeta | app/views/utils/utils.js:106-111 | the `-beta` test holds on a tag exactly when the release is a beta |
| ReleaseOrder.LexLessThree | app/views/utils/utils.js:120-125 | on three numbers the segment order is major first, then minor, then patch |
| ReleaseOrder.CompareSegments | app/views/utils/utils.js:100-127 | identical tags and unreadable segments never ask for an update; an update is asked only between different, readable tags |
| ReleaseOrder.SegmentsOrderReleases | app/views/utils/utils.js:100-127 | on tagged releases the segment-wise check asks for an update exactly when the local release is older, keeping the rule that a beta is older than the release of the same number |
| ReleaseOrder.ReleasesByNumber | app/views/utils/utils.js:112-125 | between two tags without `-beta`, the source asks for an update exactly when the dot-free number of the local tag is smaller |
| ReleaseOrder.DotStrippingMisorders | app/views/utils/utils.js:88-127 | `1.2.10` is older than `1.3.0`, yet the source offers no update from `1.2.10` to `1.3.0` and offers one from `1.3.0` to `1.2.10` |
| ReleaseOrder.SegmentsOrderExample | app/views/utils/utils.js:100-127 | the segment-wise check offers the update from `1.2.10` to `1.3.0` and not the reverse |
| Names.CheckFileName | app/views/utils/utils.js:235-237 | true iff some character of the name is one of `，,“”‘’：/` |
| Names.HasSpecialMark | app/views/utils/utils.js:246 | true iff some character is one of `，：:/` |
| Names.CheckSpecial | app/views/utils/utils.js:245-259 | true iff no character is one of `，：:/` and the UTF-16 length is at most 100; more than 100 characters is always rejected |
| Names.SpecialMarksAreFileNameMarks | app/views/utils/utils.js:235-259 | a name `checkSpecial` rejects for a character other than `:` is also rejected by `checkFileName` |
| Renderer.Checkbox | app/views/utils/utils.js:16-18 | every checkbox begins with the markup `listitem` looks for |
| Renderer.CheckboxRoundTrip | app/views/utils/utils.js:16-18 | the attribute after the marker reads back the box's state: `checked` exactly when the box was rendered checked |
| Renderer.ListItem | app/views/utils/utils.js:9-14 | the `listitem` override, pinned down by ListItemRoundTrip and CheckboxItemIsTaskItem |
| Renderer.Code | app/views/utils/utils.js:19-24 | the `code` override, pinned down by CodeRoundTrip |
| Renderer.TrimmedPrefix | app/views/utils/utils.js:10 | for a word that does not begin with white space, skipping the white space and testing the prefix decides `^\s*word` |
| Renderer.MarkerTestIsRegexMatch | app/views/utils/utils.js:10 | skipping white space and testing the prefix decides exactly `^\s*<input class="task-list-item-checkbox"`: some run of white space followed by the marker |
| Renderer.CheckboxItemIsTaskItem | app/views/utils/utils.js:9-18 | an item whose text is a checkbox's markup after white space gets class `task-list-li`, checked or not |
| Renderer.ListItemRoundTrip | app/views/utils/utils.js:9-14 | the item holds its text verbatim, and carries the task-list class exactly when the regular expression matches the text |
| Renderer.CodeRoundTrip | app/views/utils/utils.js:19-24 | `mermaid` yields a diagram container holding the code verbatim and no code block; any other language whose tag has no `"` yields a code block holding the tag (`undefined` when absent) and the code verbatim |
| Format.FormatNumber | app/views/utils/utils.js:40-45 | for a non-negative number: at least two digits, exactly two below 100, and `parseInt` reads the number back; from 10 up it is the plain decimal form |
| Format.ZeroThenRest | app/views/utils/utils.js:40-45 | a `0` followed by anything but a digit reads back as 0 |
| Format.NegativeReadsAsZero | app/views/utils/utils.js:40-45 | a negative number is padded too, and the padded text reads back as 0 |
| Objects.ObjectInject | app/views/utils/utils.js:278-290 | the result has the target's keys plus the first key of the path; every other key keeps its value; the first key holds an object when the path goes on |
| Objects.InjectInto | app/views/utils/utils.js:278-281 | a target of any type: only an object takes the injection and then holds the value at the path; `null`, `undefined` and primitives throw a `TypeError` |
| Objects.PathAfterInject | app/views/utils/utils.js:286 | the repeated `arr.shift()` leaves the caller's key array holding only its last key |
| Objects.InjectThenLookup | app/views/utils/utils.js:278-290 | after the injection, looking up the path gives the value |
| Objects.InjectIntoEmpty | app/views/utils/utils.js:283-287 | injecting into an empty object builds the bare chain of nested objects |
| Objects.ReplacedIntermediate | app/views/utils/utils.js:283-285 | a missing or non-object intermediate is replaced: only the injected chain remains under it |
| Objects.OtherPathsUnchanged | app/views/utils/utils.js:278-290 | a path that leaves the injected path where the target already had objects reads the same after the injection |
| Objects.InjectIdempotent | app/views/utils/utils.js:278-290 | injecting the same value at the same path twice is injecting it once |
| Objects.StringIndices | app/views/utils/utils.js:85 | the own enumerable properties of a string source of `Object.assign`, pinned down by StringIndicesValues, StringIndicesKeys and IndexKeysAre |
| Objects.StringIndicesValues | app/views/utils/utils.js:85 | a string source gives each character under the key of its index |
| Objects.StringIndicesKeys | app/views/utils/utils.js:85 | the index keys are a string's only own enumerable properties |
| Objects.IndexKeysAre | app/views/utils/utils.js:85 | the index keys of a string of length `n` are exactly `String(i)` for `i` below `n` |
| Objects.Assign | app/views/utils/utils.js:85 | `Object.assign({}, init, obj)` has the keys of both; the source's own properties win; the other defaults stay |
| Objects.MergeStateFromStorage | app/views/utils/utils.js:77-86 | nothing stored or an empty string gives the defaults; a parse error escapes unchanged; a success keeps every default key |
| Objects.SavedStateReadBack | app/views/utils/utils.js:67-86 | when the stored text parses to the state saved, the merge gives that state over the defaults, and exactly that state when it has every default key |
| Objects.MergeIdempotent | app/views/utils/utils.js:77-86 | merging the same stored value again changes nothing |
| Objects.StoredStringSpreads | app/views/utils/utils.js:81-85 | a stored JSON string spreads over the state: the keys are the defaults' plus the index keys, character `i` lands under `String(i)`, and every other default stays |
| Toc.MarkedToc | app/views/utils/utils.js:266-270 | the outline holds exactly the heading tokens and is never longer than the token list |
| Toc.TocOfConcat | app/views/utils/utils.js:268 | the filter distributes over concatenation, so headings keep document order and multiplicity |
| Toc.TocOfHeadings | app/views/utils/utils.js:268 | a list of headings is its own outline |
| Toc.TocIdempotent | app/views/utils/utils.js:266-270 | extracting the outline twice is extracting it once |
| Toc.Example | app/views/utils/utils.js:266-270 | headings A, B and C around a paragraph give A, B, C in that order |
| Layout.GetBodyWidth | app/views/component/editor/Preview.jsx:138-171 | 100% in `normal` and `preview` modes or with an element missing; `edit`/`write` split the note container's width; other modes split the offset parent's width or throw when it is `null`; pixels only when share and width are both nonzero |
| Layout.Split | app/views/component/editor/Preview.jsx:164-168 | the split of a measured width, pinned down by SplitInRange and WidthInRange: pixels only when share and width are both nonzero |
| Layout.SplitInRange | app/views/component/editor/Preview.jsx:164-168 | with a share in [0, 1] and a width not negative, a pixel split lies between 0 and the width |
| Layout.WidthInRange | app/views/component/editor/Preview.jsx:164-168 | with a share in [0, 1] and widths not negative, a pixel width lies between 0 and the width it was measured against |
| Layout.MeasuredAnchor | app/views/component/editor/Preview.jsx:157-163 | `edit` and `write` never read the offset parent; other modes never read the note container's width |
| Layout.Examples | app/views/component/editor/Preview.jsx:148-168 | preview mode gives 100%; edit mode at 0.3 of 1000 pixels gives 700 pixels |
| Preview.Init | app/views/component/editor/Preview.jsx:42-50 | the controller starts loading, not ready, mounted, at 100% width whatever the mode |
| Preview.UpdateMessages | app/views/component/editor/Preview.jsx:60-68 | exactly one message when the webview is ready and none otherwise, and that message is the render update of the current html, mode and theme |
| Preview.FontMessages | app/views/component/editor/Preview.jsx:73-78 | a font-size message goes out iff the size changed and the webview is ready, nothing otherwise, and the message is `ChangeFontSize(undefined)` |
| Preview.DidUpdate | app/views/component/editor/Preview.jsx:60-79 | a prop update first sends the render update iff the webview is ready; with mode and share unchanged the state stays; with either changed the width becomes `getBodyWidth` of the new props, or the component ends when that throws |
| Preview.OnDomReady | app/views/component/editor/Preview.jsx:131-136 | `dom-ready` marks the webview ready, and the re-render sends one render update with the current props |
| Preview.OnWVMessage | app/views/component/editor/Preview.jsx:98-129 | `wv-first-loaded` sends the full render first and clears loading; a link click opens its first argument iff it is http(s); other channels change nothing and send nothing |
| Preview.OnWindowResize | app/views/component/editor/Preview.jsx:88-96 | outside `edit` mode a resize does nothing; in it the width becomes `getBodyWidth` of the current props, which cannot throw there, and the render update follows when ready |
| Preview.HandleTocJump | app/views/component/editor/Preview.jsx:190-195 | the scroll target is forwarded, unchanged, iff text and depth are truthy |
| Preview.Step | app/views/component/editor/Preview.jsx:52-86 | readiness only ever turns on, and only on `dom-ready`; loading only turns off on `wv-first-loaded`; a full render only answers `wv-first-loaded`; once unmounted nothing happens |
| Preview.Run | app/views/component/editor/Preview.jsx:52-136 | the component's life as a fold of Step over the events, pinned down by RunGuarded, RunKeepsWidth and the run lemmas below |
| Preview.RunGuarded | app/views/component/editor/Preview.jsx:116-125 | over any run readiness never goes back, no link other than http(s) is opened, and font-size messages carry `undefined` |
| Preview.NothingRenderedBeforeDomReady | app/views/component/editor/Preview.jsx:62-68 | without `dom-ready` the webview stays unready and no render update or font-size message goes out |
| Preview.FullRenderOnlyOnFirstLoaded | app/views/component/editor/Preview.jsx:103-114 | without `wv-first-loaded` no full render goes out and loading stays as it was |
| Preview.UnmountedIsSilent | app/views/component/editor/Preview.jsx:81-86 | after unmounting the controller reacts to nothing |
| Preview.FirstLoadedBeforeDomReady | app/views/component/editor/Preview.jsx:103-114 | `wv-first-loaded` before `dom-ready` still sends the full render |
| Preview.LatestPropsOnFirstLoad | app/views/component/editor/Preview.jsx:60-110 | a prop update before readiness sends nothing; the full render that follows carries the newer props, unless the update changed the layout and its width threw, which ends the component before the message arrives |
| Preview.FontSizeChangeLosesTheSize | app/views/component/editor/Preview.jsx:73-77 | once ready, a font-size change sends the render update and a font-size message without the size |
| Preview.LinkTarget | app/views/component/editor/Preview.jsx:117-120 | the `href` of a click: the first argument when there is one, else empty; pinned down by OtherSchemesDropped and UpperCaseHttpLinkOpens |
| Preview.IsExternalLink | app/views/component/editor/Preview.jsx:121 | the test `/^https?:\/\//i`, pinned down by StartsWithIgnoringCaseAt, HttpsLinkOpens and OtherSchemesDropped |
| Preview.HttpsLinkOpens | app/views/component/editor/Preview.jsx:116-123 | a click on `https://x` opens it |
| Preview.UpperCaseHttpLinkOpens | app/views/component/editor/Preview.jsx:116-123 | the scheme test ignores case and looks only at the first argument |
| Preview.OtherSchemesDropped | app/views/component/editor/Preview.jsx:116-125 | `javascript:`, relative links and missing or empty arguments open nothing |
| Preview.StepKeepsWidth | app/views/component/editor/Preview.jsx:164-168 | one event keeps the width non-negative under sane inputs |
| Preview.RunKeepsWidth | app/views/component/editor/Preview.jsx:164-168 | the preview body's width is never negative over any run with sane inputs |

## Left out

- `marked` itself, `markedToHtml`, the lexer behind `markedTOC` and `highlight.min.js` are library code not shown here.
  The outline is modelled as a filter over a given token list.
- `throttle` and `debounce` depend on timers.
- `formatDate` depends on the clock and the local time zone; only `formatNumber` is modelled.
- `pushStateToStorage`, the `localStorage` reads, `blobToBase64` and the toast of `checkSpecial` are I/O.
  `JSON.parse` and the stored text are parameters of `MergeStateFromStorage`.
- `getWebviewPreJSPath`, `getMermaidJSPath` and `getDisplayName` are environment and reflection lookups.
- React rendering, JSX, class names, `openWVDevTools`, `setScrollRatio` and the Electron IPC and shell are left out.
  Messages to the webview and `openExternal` are recorded as outbound values.
- `componentDidMount` attaches the listeners and looks up `noteRoot` once (Preview.jsx:53).
  The model starts with the listeners attached, so `this.webview` is always present when a TOC jump arrives.
  It takes the note container afresh with every measurement. That admits more element states than the single lookup at mount can produce, so what is proved about widths holds for the source as well.
- What React does after an uncaught exception depends on error boundaries outside this component.
  The model ends the component there.
- Js.ParseIntOfDecimal: numbers are exact integers. JavaScript rounds digit strings beyond 2^53 and prints numbers from 10^21 in exponent form.
- Objects.ObjectInject: the source writes into `target` and returns it; the model returns the new object and leaves aliasing out.
- Renderer.CodeRoundTrip: a language tag holding `"` closes the `class` attribute early, so the markup no longer tells tag and code apart; the read-back is proved only for tags without `"`.
- Objects.ObjectInject: the prototype chain is not modelled, so a `__proto__` key, which the source writes into the prototype, is treated as an ordinary own key.
  With an empty key path the source first writes a property `"undefined"` into the target, then recurses without bound until the stack overflows with a `RangeError`. The model requires one key at least.
- Objects.StringIndices: a stored string's characters outside the Basic Multilingual Plane give two lone surrogate properties in JavaScript.
  The model gives one property per character.
- Objects.Assign: a `__proto__` key of the stored object sets the prototype instead of a property.
- Layout.GetBodyWidth: the pixel width is a real number; its printing into a `px` string is not modelled.
  Whether `offsetParent` is `null` depends on the stylesheet, which is an input here.
- Format.FormatNumber: the argument is an integer; fractional numbers are not modelled.
- Preview.Step: the `drag` prop and the loading image only affect rendering.
- Preview.FontMessages: `fontSize` is taken to be a number, as its `isRequired` prop type demands (Preview.jsx:33).
  The default of 16 is declared under the misspelt name `defalutProps` (Preview.jsx:38-40), so it never applies. A `fontSize` that became `undefined` would make the destructuring at Preview.jsx:74 throw, and that throw is not modelled.
- ReleaseOrder.CompareSegments: it drops only a leading `v` or `V`, where the source deletes every `v`; tags with more than three segments or letters inside a segment are read as `parseInt` reads each segment, and only three-number tags are proved about.

## Findings

| source | as written | input that shows it | evidently intended | confidence | as-written member | corrected member |
|---|---|---|---|---|---|---|
| app/views/utils/utils.js:88-127 | `formatVersion` deletes the dots and reads the rest as one number, so `compareVersion` compares digit strings of different lengths | local `1.2.10`, latest `1.3.0`: 1210 against 130 gives no update; local `1.3.0`, latest `1.2.10` offers a downgrade | compare the dot-separated segments as numbers, first differing segment deciding, with the beta rule for equal numbers | not executed; high | ReleaseOrder.DotStrippingMisorders | ReleaseOrder.SegmentsOrderReleases |
