# WindowProxy preload bridge, modelled in Dafny

This project models the preload-side `WindowProxy` of the ARC Electron application. The object sits between the host process and the page document. It:

- keeps a cached copy of the `request.useSystemVariables` preference, seeded once from a preference snapshot and then kept up to date by configuration-change events;
- runs context-menu actions sent by the host, of which only `insert-variable` does anything;
- finds the element that really has focus by following `shadowRoot.activeElement` into nested shadow roots;
- shows the `variables-suggestions` overlay on that element when it is an `input`, creating the overlay element only when the document has none.

Modules, leaves first:

- `Wrappers`: `Option`.
- `JsValues`: JavaScript values, property reads that may throw, and truthiness.
- `Dom`: elements, shadow roots, the overlay element as a record, the `Document` class, and the specification of the shadow walk.
- `Preferences`: the outcome of the preference read, and the boolean at `request.useSystemVariables`.
- `Suggestions`: the cached flag plus the overlay elements as one value (`Session`), each handler as a transition of that value, traces of events, and lemmas about traces.
- `Preload`: class `WindowProxy` with the source's imperative methods. Each state-changing method is proved against the transition in `Suggestions` or `Preferences`; the shadow walk `GetShadowActiveElement` is proved against `Dom.ResolveActive`, and `GetShadowActiveElementTwice` states that two walks agree.

Notes on the model:

- The cached flag is a JavaScript `Value`, not a `bool`. The seeding path only adopts booleans, but the change handler stores whatever value the event carries.
- The document's overlays are the sequence `Document.suggestions` of `variables-suggestions` elements, in document order. `querySelector` finds the first one and `appendChild` adds one at the end. With a sequence, "never creates a duplicate" is a real statement.
- The source's shadow walk is `while (true)` with no guard. The model therefore requires `Document.Valid()`: some rank strictly decreases along every shadow-focus link, i.e. shadow trees are finite.
- The record field `isOpened` stands for the element's `opened` property, because `opened` is a Dafny keyword.
- Lemma `SeedingLeavesOverlayBehind` records a behaviour of the source. The action listener is registered before the preference read is awaited (src/preload/WindowProxy.js:22-25). An overlay created during that wait keeps the default flag, because `initConfig` writes only the cache. Every other transition keeps the overlay's flag equal to the cache (`TraceKeepsInSync`).

## Model

| member | source | states |
|---|---|---|
| `Preload.WindowProxy.constructor` | src/preload/WindowProxy.js:12-15 | the cached flag starts as `false` |
| `Preload.WindowProxy.InitConfig` | src/preload/WindowProxy.js:29-40 | a boolean at `request.useSystemVariables` in the snapshot becomes the flag; when the read fails, `request` is missing or falsy, or the value is not a boolean, the flag is unchanged; the promise rejects exactly when the snapshot is `undefined` or `null` |
| `Preload.SeededAtStartup` | src/preload/WindowProxy.js:29-40 | a fresh proxy seeded once holds the boolean at the path if there is one, and `false` otherwise |
| `Preferences.SeededFlag` | src/preload/WindowProxy.js:37-39 | seeding either keeps the flag or stores a boolean, never another kind of value |
| `JsValues.Get` | src/preload/WindowProxy.js:37 | a property read throws exactly on `undefined` and `null`; a key an object has yields its value, and any defined result is an own field of an object |
| `Suggestions.ParseAction` | src/preload/WindowProxy.js:47-49 | the action is `InsertVariable` exactly for the name `insert-variable` |
| `Suggestions.Dispatch` | src/preload/WindowProxy.js:46-51 | `insert-variable` behaves exactly as rendering at (x, y); any other name leaves the flag and the overlays unchanged |
| `Preload.WindowProxy.RunContextAction` | src/preload/WindowProxy.js:46-51 | the new flag and overlays are `Dispatch` of the old ones; an unknown action changes nothing in the document |
| `Dom.DeepestFrom` | src/preload/WindowProxy.js:61-69 | the walk from an element ends at an element with no shadow focus to follow, reachable by shadow-focus links |
| `Dom.DeepestChainsAgree` | src/preload/WindowProxy.js:62-68 | two link-following chains from one element that both stop where the walk stops are the same chain |
| `Dom.DeepestIsUnique` | src/preload/WindowProxy.js:62-68 | from any element there is exactly one place the walk can stop |
| `Dom.ResolveActive` | src/preload/WindowProxy.js:56-70 | `undefined` exactly when nothing is focused; otherwise the one reachable element with no shadow focus to follow |
| `Preload.WindowProxy.GetShadowActiveElement` | src/preload/WindowProxy.js:56-70 | the loop returns `undefined` exactly when `document.activeElement` is absent; otherwise it returns the deepest reachable element, equal to `ResolveActive` |
| `Preload.WindowProxy.GetShadowActiveElementTwice` | src/preload/WindowProxy.js:56-70 | two walks over an unchanged document return the same element |
| `Suggestions.Render` | src/preload/WindowProxy.js:81-84 | when the resolved element is absent or not an `input`, flag and overlays are unchanged and nothing is created; the flag never changes |
| `Suggestions.ShowAt` | src/preload/WindowProxy.js:85-94 | an overlay is created only if none exists; afterwards the first overlay is bound to the target, placed at left x and top y, and opened; a created overlay carries the cached flag, an existing one keeps its own; the other overlays are untouched |
| `Preload.WindowProxy.RenderVariablesSuggestions` | src/preload/WindowProxy.js:80-95 | the new flag and overlays are `Render` of the old ones at the walk's result; focus and elements are unchanged |
| `Suggestions.OnConfigChange` | src/preload/WindowProxy.js:100-109 | for the sentinel key the value, unchecked, becomes the flag and the first overlay's flag, with the other overlay fields unchanged; any other key changes nothing; no overlay is created |
| `Preload.WindowProxy.ConfigStateChangeHandler` | src/preload/WindowProxy.js:100-109 | the new flag and overlays are `OnConfigChange` of the old ones |
| `Suggestions.Step` | src/preload/WindowProxy.js:22-26 | one delivered event: only a sentinel-key change writes the flag; a creation happens only for an `insert-variable` on an input with no overlay present; the overlay stays in sync with the cache |
| `Suggestions.TraceFlagIsLastWrite` | src/preload/WindowProxy.js:100-109 | after any sequence of events, the flag is the value of the last sentinel-key change |
| `Suggestions.TraceFlagWithoutWrite` | src/preload/WindowProxy.js:100-109 | with no sentinel-key change in a sequence of events, the flag is unchanged |
| `Suggestions.TraceOverlayCount` | src/preload/WindowProxy.js:85-90 | the overlay count after a sequence of events is 1 if there was none and some `insert-variable` found an input, and otherwise the old count |
| `Suggestions.TraceNeverDuplicates` | src/preload/WindowProxy.js:85-90 | starting from at most one overlay, there is never a second one |
| `Suggestions.TraceKeepsInSync` | src/preload/WindowProxy.js:86-107 | actions and change events keep the first overlay's flag equal to the cached flag |
| `Suggestions.SeedingLeavesOverlayBehind` | src/preload/WindowProxy.js:22-38 | for every session with an overlay whose flag differs from the seeded boolean, seeding stores the boolean in the cache only, so cache and overlay disagree afterwards |

## Left out

- IPC: the `window-context-menu-init` notification and the `run-context-action` channel. Inbound actions are method calls to `RunContextAction`.
- `initContextMenu`: listener registration and the async ordering around `await this.initConfig()` are event-loop plumbing, and traces start once the bridge is live. One consequence is not modelled: when `initConfig` rejects, the change listener is never registered.
- `PreferencesProxy.read()`: a foreign IPC call. Its settled outcome (`Read(snapshot)` or `ReadFailed`) is an input to `InitConfig`.
- `logger.error` for unhandled actions: logging only, modelled as a no-op.
- Action arguments: `RunContextAction` takes `args[0]` and `args[1]` as the integers x and y. A message with fewer than two arguments, where JavaScript passes `undefined`, is not modelled.
- Coordinates: JavaScript numbers, which may be fractional, are integers here. The CSS strings `${y}px` and `${x}px` are stored as the integers they format.
- The `variables-suggestions` widget's own rendering and filtering, and `createElement`/`appendChild` beyond "one more element at the end of the document's overlays". The overlay element is a record in `Document.suggestions`, so aliasing between `list` and the document's node is not modelled.
- Documents whose shadow-focus links form a cycle: the source would loop forever on them, and the model requires `Document.Valid()`.
- JsValues.Get: primitive values' prototype properties (such as a string's `length`) are not modelled, because the script reads only `request` and `useSystemVariables`.
- Number truthiness: `NaN` is not modelled, because numbers are integers here.
