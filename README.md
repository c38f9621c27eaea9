# tgplugs in Dafny

A model of the logic inside two mods for the TGBrowser shell, with proofs about it.

- **LowSpecLite** (`LowSpecLite/main.js`) decides whether the device is low-end. It looks at four signals:
  - a saved `tgRitual` preference;
  - TV keywords in the user agent;
  - `navigator.deviceMemory` below 4;
  - a WebGL renderer that names a weak GPU family.

  When the device is low-end, the mod switches the host's theme selector to a `performance` option that it injects itself, and puts `ritual-performance` on the body.
- **DevKit** (`DevKit/main.js`) is a diagnostic overlay panel. It reads the host's version banner, theme class, data-barrier toggle, accent colour, night mode, browsing iframe and registered mods. It turns them into a feature snapshot and panel labels, toggles the overlay between shown and hidden, and adds one trigger item to the host menu.

Platform probes and DOM lookups are inputs:

- `Option` stands for an element or hint that may be absent.
- `GpuProbe` stands for the four outcomes of the WebGL query.
- `HostView` stands for everything DevKit reads from the page.

What the scripts change in place is held in classes:

- `LowSpecLite.RitualSelect`: the selector's options and its selected index.
- `LowSpecLite.Page`: the body's class list.
- `DevKit.DevKit`: the `devState` record and the last rendered panel.
- `DevKit.Overlay`: the overlay's display.
- `DevKit.Menu`: the host menu's children.

Modules:

- `Wrappers`: the Option type.
- `Strings`: the JavaScript string built-ins the scripts use.
  - `includes`.
  - The search for the first occurrence that `replace` performs, which is what `indexOf` computes.
  - `replace` with a string pattern, which removes only the first occurrence.
  - `startsWith`.
  - `trim`, with ECMAScript's full white-space and line-terminator set.
  - ASCII case mapping.
- `Seqs`: the DOMTokenList `add`/`remove` operations, and finding, inserting and removing entries in a list.
- `LowSpecLite` and `DevKit`: one module per script.

Where the code and a plain reading of it differ, the model follows the code:

- `checkRAM` works on truth values, so a memory hint of 0 counts as "not low".
- `detectRealVersion` treats an empty title like a missing one.
- An empty found version would also be treated as missing, though one can never occur: a version-like span keeps its `v` after trimming.
- The "Sandbox Level" label depends on the data barrier, not on the iframe's `sandbox` attribute.
- The detector returns only a boolean. It gives no breakdown of which signals fired.

## Model

| member | source | states |
|---|---|---|
| `Wrappers.Option.GetOr` | DevKit/main.js:294 | The `x \|\| []` fallback: the value when there is one, the default otherwise. |
| `Strings.Contains` | LowSpecLite/main.js:124 | `includes` is true exactly when the word occurs at some index of the string. |
| `Strings.IndexOf` | DevKit/main.js:321 | Gives -1 exactly when the word does not occur. Otherwise gives an occurrence with none before it. |
| `Strings.RemoveFirst` | DevKit/main.js:321 | `replace(w, '')` leaves a string without `w` unchanged. Otherwise it cuts out exactly the first occurrence of `w`: the part before it followed by the part after it, `\|w\|` shorter. |
| `Strings.RemoveFirstOfPrefix` | DevKit/main.js:285 | Removing a pattern the string starts with leaves exactly the rest of the string. |
| `Strings.NotOccursWithoutFirstChar` | DevKit/main.js:266 | A string without the pattern's first character does not contain the pattern, so `Default (MD2)` has no `ritual-`. |
| `Strings.StartsWith` | DevKit/main.js:266 | `startsWith` holds exactly when the pattern occurs at index 0. |
| `Strings.Lower` | LowSpecLite/main.js:122 | `toLowerCase` keeps the length, leaves no ASCII capital behind, lowers each ASCII capital by exactly 32 code points, and leaves every other character as it is. |
| `Strings.Upper` | DevKit/main.js:285 | `toUpperCase` keeps the length, leaves no ASCII small letter behind, raises each ASCII small letter by exactly 32 code points, and leaves every other character as it is. |
| `Strings.FoldedOccurrence` | LowSpecLite/main.js:122-124 | If a piece of a string spells a lower-case word in any case, the lower-cased string contains that word. |
| `Strings.Trim` | DevKit/main.js:58 | `trim` gives the slice between a white-space-only head and a white-space-only tail. The result neither starts nor ends with white space, and it is exactly that slice. |
| `Strings.TrimKeepsWord` | DevKit/main.js:57-58 | Trimming keeps every occurrence of a word whose ends are not white space. |
| `Seqs.FirstIndex` | LowSpecLite/main.js:47 | The first position holding the value, with none before it; `\|s\|` exactly when the value is absent. |
| `Seqs.InsertAt` | LowSpecLite/main.js:48-52 | Inserting an option at a position: one longer, the new entry at that position, the entries before it and after it as they were, and the same multiset plus the new entry. |
| `Seqs.AddIfAbsent` | LowSpecLite/main.js:78 | `classList.add`: the token is present afterwards and no other token comes or goes. It is a no-op when the token is already there and an append when it is not. Keeps the list free of repeats. |
| `Seqs.RemoveAll` | LowSpecLite/main.js:66 | `classList.remove`: the token is gone afterwards and no other token comes or goes. It is a no-op when the token is absent. Keeps the list free of repeats. |
| `Seqs.RemoveAllAt` | LowSpecLite/main.js:66 | In a list without repeats, removal drops exactly the one position holding the token and keeps the order of the rest. |
| `Seqs.RemoveInserted` | LowSpecLite/main.js:46-52 | Removing a freshly inserted element gives back the original list. |
| `LowSpecLite.AnyContained` | LowSpecLite/main.js:124 | `some(k => s.includes(k))` is true exactly when one of the words occurs in the string. |
| `LowSpecLite.CheckIfTV` | LowSpecLite/main.js:121-125 | True exactly when the lower-cased user agent contains one of the seven TV keywords. |
| `LowSpecLite.TvKeywordAnyCase` | LowSpecLite/main.js:122-124 | The TV check ignores case: a keyword spelled in any case anywhere in the user agent makes it true. |
| `LowSpecLite.CheckRAM` | LowSpecLite/main.js:127-130 | An absent hint gives false. A present hint gives true exactly when it is non-zero and below 4. |
| `LowSpecLite.CheckGPU` | LowSpecLite/main.js:132-146 | No WebGL context gives true. An exception gives true. No debug extension gives false. A renderer name gives true exactly when its lower-cased form contains one of the five GPU families. |
| `LowSpecLite.WeakGpuAnyCase` | LowSpecLite/main.js:142 | The renderer match ignores case: a GPU family spelled in any case makes the GPU weak. |
| `LowSpecLite.Detect` | LowSpecLite/main.js:101-119 | A saved `performance` preference gives true whatever the other signals say. Otherwise the result is exactly "TV or low memory or weak GPU". |
| `LowSpecLite.RokuIsLowEnd` | LowSpecLite/main.js:113-124 | With no saved preference, `Roku` anywhere in the user agent makes `detect` true, whatever the memory and GPU signals. |
| `LowSpecLite.InsertionPoint` | LowSpecLite/main.js:46-52 | The new option goes right after the first `matrix` option, or at the end when there is none. |
| `LowSpecLite.WithPerformanceOption` | LowSpecLite/main.js:35-53 | The option list afterwards always holds `performance`, and is unchanged if it already did. Otherwise it is one longer and has exactly one `performance` added. Removing that option gives the old list in its old order. The new option sits right after the first `matrix`, or at the end without one. |
| `LowSpecLite.WithPerformanceOptionIdempotent` | LowSpecLite/main.js:39-40 | Injecting twice gives the same options as injecting once. |
| `LowSpecLite.RitualSelect.Value` | LowSpecLite/main.js:62 | `select.value` is `""` when nothing is selected, and otherwise the selected option's value, which is one of the options. |
| `LowSpecLite.RitualSelect.SetValue` | LowSpecLite/main.js:74 | After `select.value = v`, the value is `v` when an option has it and `""` otherwise. The options are unchanged. |
| `LowSpecLite.RitualSelect.InjectPerformanceOption` | LowSpecLite/main.js:40-52 | The options become `WithPerformanceOption` of the old ones. The selected option keeps its value. With nothing selected, the first option becomes selected. A select that already has `performance` is untouched. |
| `LowSpecLite.Page.InjectMenuOption` | LowSpecLite/main.js:35-53 | Without a selector nothing changes. With one, its options become `WithPerformanceOption` of the old ones. A selector that already has `performance` keeps its selection. A selected option keeps its value. With nothing selected and an option inserted, the first option becomes selected. |
| `LowSpecLite.ClassesAfterChange` | LowSpecLite/main.js:61-67 | After a change to a value, `ritual-performance` is present exactly when the value is `performance`. No other class comes or goes, and the list stays free of repeats. |
| `LowSpecLite.LeavingPerformanceKeepsOrder` | LowSpecLite/main.js:65-67 | Switching away from `performance` removes just that class and keeps the order of the others. |
| `LowSpecLite.Page.OnRitualChange` | LowSpecLite/main.js:61-68 | The listener sets the body classes to `ClassesAfterChange` of the old classes and the selector's value. |
| `LowSpecLite.Page.ActivateMode` | LowSpecLite/main.js:71-79 | Afterwards `ritual-performance` is present and no other class comes or goes. A selector keeps its options, and its value is `performance` when it has that option. |
| `LowSpecLite.Page.InitPerformanceMode` | LowSpecLite/main.js:25-33 | The option is always injected. When `detect` says yes, the body classes become the old ones with `ritual-performance` added (nothing else comes or goes) and a present selector shows `performance`. Otherwise the body classes are untouched and the selector's selection is only what injecting the option leaves: kept when `performance` was already there, the same value when something was selected, the first option when nothing was. |
| `DevKit.IsVersionText` | DevKit/main.js:57 | A span text qualifies exactly when `v` and `Beta` both occur in it. |
| `DevKit.LastVersionIndex` | DevKit/main.js:53-60 | Gives the last header span whose text holds both `v` and `Beta`: that span qualifies and no later one does. Gives -1 exactly when no span qualifies. |
| `DevKit.LastVersionSpan` | DevKit/main.js:56-59 | Nothing exactly when no span qualifies. Otherwise the trimmed text of the last qualifying span, which itself still qualifies. |
| `DevKit.LastVersionSpanExtend` | DevKit/main.js:56-60 | One more span in the scan wins when it is version-like. Otherwise the earlier result stands. |
| `DevKit.ScanHeaderSpans` | DevKit/main.js:53-60 | The `forEach` loop ends holding the trimmed text of the last version-like span, or nothing. |
| `DevKit.TrimKeepsVersion` | DevKit/main.js:57-58 | The trimmed text of a version-like span is still version-like, so it is never empty. |
| `DevKit.ResolveVersion` | DevKit/main.js:50-71 | The version is never empty. When a span qualifies, the version is the trimmed text of the last one and is itself version-like. Otherwise it is the title, or `Unknown TGBrowser Build` when the title is empty. |
| `DevKit.DevKit.DetectRealVersion` | DevKit/main.js:50-71 | Stores `ResolveVersion` of the header spans and title in `browserVersion`. The rest of the state is unchanged. |
| `DevKit.FirstRitualClass` | DevKit/main.js:265-266 | Gives the first body class starting with `ritual-`: none before it does. Gives nothing exactly when no class does. |
| `DevKit.RitualLabel` | DevKit/main.js:265-285 | The label is the first `ritual-` class with the prefix removed and upper-cased. With no such class it is `DEFAULT (MD2)`. |
| `DevKit.Snapshot` | DevKit/main.js:258-291 | Builds the feature snapshot as follows. The ritual is the ritual label. A missing barrier toggle gives `dataBarrier = false`, otherwise its checked state. Night mode holds exactly when the body has `dark-mode`. The chroma is the trimmed `--primary`. A missing iframe gives url `TGHome (Idle)` and sandbox `N/A`, otherwise its `src` and `sandbox`. |
| `DevKit.PlugEntries` | DevKit/main.js:350 | One entry per plug, in order, each wrapping that plug's name. |
| `DevKit.Concat` | DevKit/main.js:350 | `join('')` of no parts is the empty string; a join of some parts begins with the first part. |
| `DevKit.ConcatHoldsPart` | DevKit/main.js:350 | Every entry appears in the joined list. |
| `DevKit.PlugList` | DevKit/main.js:349-351 | No plugs gives `No external mods loaded.`. Otherwise the list is the entries joined in order. |
| `DevKit.PlugListNamesEveryPlug` | DevKit/main.js:349-351 | Every registered plug's name appears in the rendered list. |
| `DevKit.PlugListNotEmptyMessage` | DevKit/main.js:349-351 | A non-empty list never reads as the empty-list message. |
| `DevKit.RenderPanel` | DevKit/main.js:299-352 | A barrier that is on gives `ACTIVE` and `STRICT`. A barrier that is off gives `DISABLED` and `STANDARD`. Night mode gives `ON`/`OFF`. The thread is the URL with its first `https://` removed, wherever it occurs; a URL without one is shown as it is. The ritual and chroma are passed through. The plug count equals the number of plugs, and the list is `PlugList`. |
| `DevKit.ThreadDropsScheme` | DevKit/main.js:321 | A URL starting with `https://` is shown without it. |
| `DevKit.ThreadDropsInnerScheme` | DevKit/main.js:321 | The first `https://` is removed even when it is not at the start: `http://a/?r=https://b` is shown as `http://a/?r=b`. |
| `DevKit.SandboxLevelFollowsBarrier` | DevKit/main.js:308-316 | The sandbox level reads `STRICT` exactly when the barrier reads `ACTIVE`. |
| `DevKit.ToggledDisplay` | DevKit/main.js:388-396 | `block` becomes `none`. Any other display becomes `block`. |
| `DevKit.ToggleTwice` | DevKit/main.js:384-396 | Once shown or hidden, two toggles return the overlay to where it was. |
| `DevKit.WithMenuTrigger` | DevKit/main.js:241-254 | The trigger is appended only when it is absent. Starting from at most one, it ends up there exactly once. |
| `DevKit.DevKit.constructor` | DevKit/main.js:22-27 | The initial state: no plugs, no features, no update time, version `Detecting...`. |
| `DevKit.DevKit.UpdateBrowserState` | DevKit/main.js:258-297 | Records the update time, `Snapshot` of the host and its plugs, or none. Renders the panel from them. Leaves the version unchanged. |
| `DevKit.DevKit.ToggleDevUI` | DevKit/main.js:384-397 | Without an overlay nothing changes. A shown overlay is hidden and the state is kept. Otherwise the version is re-detected, the host state refreshed and the overlay shown. |
| `DevKit.DevKit.InjectMenuTrigger` | DevKit/main.js:241-255 | Without a menu nothing changes. Otherwise the trigger is appended when absent, and it is in the menu exactly once afterwards. |

## Left out

- The registration bootstrap that polls `window.TGMoLink` every 100 ms (LowSpecLite/main.js:11-22, DevKit/main.js:30-47): timer-driven waiting on a foreign global.
- The DevKit watchers: the `MutationObserver`, the document `change` listener and the 1.5 s polling (DevKit/main.js:355-381). They are asynchronous; only what one refresh does is modelled, as `UpdateBrowserState`.
- The animation timeouts in `toggleDevUI` and the toast in `showNotification`. Only the state they settle in is modelled; a toggle that arrives before a timer fires is not.
- Stylesheets, `innerHTML` layout, the font link and toast styling (DevKit/main.js:85-239, LowSpecLite/main.js:81-97). This is presentation. `injectDevUI`, which replaces the overlay element, is modelled only through the `Overlay` object it leaves behind.
- `exportDevData` (DevKit/main.js:403-419): clipboard, `alert`, `toISOString` and `JSON.stringify` are foreign calls.
- The real `navigator`, `localStorage`, WebGL, `getComputedStyle` and `Date`. Their readings are parameters: the saved preference, user agent, memory hint, `GpuProbe`, raw `--primary` value and clock value.
- Console logging.
- The host's own `change` listeners, which clear the other themes, are not part of this model.
- Option labels such as `Low-Spec Mode (Optimized)`. Options are modelled by their values.
- `Strings.Lower`: folds only ASCII `A`-`Z`. `toLowerCase` in `checkIfTV` (LowSpecLite/main.js:122) also folds non-ASCII letters, some of them to ASCII: the Kelvin sign (U+212A) lowers to `k`, so a user agent holding `RO\U{212A}U` matches `roku` in the source but not in `LowSpecLite.CheckIfTV`. The GPU test's case-insensitive regular expression (LowSpecLite/main.js:142) has no `u` flag, and without it no non-ASCII character matches an ASCII one, so `LowSpecLite.CheckGPU` is exact there.
- `LowSpecLite.InsertionPoint`: the options are modelled as one flat list of values. A `matrix` option inside an `<optgroup>` is not: there `insertBefore` on the select throws, or, when that option has no next sibling, the new option is appended at the end. The source finds `matrix` by the `value` attribute while the duplicate check reads the `value` property (which falls back to the option's text); the model has one value per option.
- `LowSpecLite.RitualSelect.InjectPerformanceOption`: with nothing selected, the browser selects the first option that is not disabled; disabled options are not modelled, so the model selects the first option.
- `Strings.Upper`: maps only ASCII `a`-`z`. `toUpperCase` also maps non-ASCII letters, and some of them to two characters.
- `LowSpecLite.CheckRAM`: `deviceMemory` is a real number. NaN and other non-numeric values are not modelled.
- `DevKit.DevKit.InjectMenuTrigger`: the page-wide lookup of `dk-menu-item` is modelled as a lookup among the menu's children. The item is only ever created inside that menu.
- `DevKit.PlugEntries`: plugs are modelled as strings. The source interpolates whatever the bus holds.
