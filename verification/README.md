# Interaction core of a visual content editor, in Dafny

This project models three self-contained pieces of the editor's interaction
core and proves properties of them:

- **The overlay view stack** (`ViewStack`, `view_stack.dfy`). This is the ordered list of open
  overlay views. The last view pushed is on top. It covers push, pop, remove-down-to-a-view,
  the pointer-down hit test that dismisses overlays, clear and the copying getter. Each
  operation is a pure function from a stack to an `Outcome`: the new stack plus the ordered
  trace of effects (`close()` of a view, `focus()` of a node, a dispatched topic).
- **The global event handler** (`EventTranslation`, `event_translation.dfy`, and
  `DocumentRegistry`, `document_registry.dfy`). It turns raw browser input into named
  editor topics. Each private translator is a pure function from a raw event to the ordered
  list of its dispatches and `preventDefault` calls. `appendDocument`/`removeDocument` act on an
  explicit list of DOM listener registrations. That list follows the DOM rule that a listener
  is identified by target, event type, capture flag and function reference.
- **The media hyperlink provider** (`MediaHyperlinkProvider`, `media_hyperlink_provider.dfy`).
  It holds the `"uploads/"` prefix test and the media-to-hyperlink field mapping.

`Dom` (`dom.dfy`) holds the browser-side values: nodes, documents, key codes, raw events.
`EventBus` (`event_bus.dfy`) holds the event manager's topics, a dispatch record, and which
topics carry the raw event as payload. `Editor` (`editor.dfy`) wires the two components
together the way the view stack's constructor subscribes: `onEscape` runs `popView` and
`onPointerDown` runs `runHitTest`.

Modelling choices:

- View identity is a field `id`. The stack may hold the same view twice, because `pushView`
  does not check for duplicates.
- A view's hit outcome is either its own `hitTest` or the default test. The `hitTest` is a
  parameter `custom`. The default test asks whether the view's element is the event target or
  one of its ancestors. `runHitTest` itself is stated over any per-view hit outcome `hit`.
- `Keys.S`, `Keys.P` and `Keys.Esc` are three distinct constructors of `KeyCode`. Their
  numeric values do not matter.
- Every `.bind(this)` produces a new function reference. It is modelled as `BoundPerCall(n)`
  with a serial `n` that no other reference shares. The `onKeyDown` reference bound once in
  the constructor is `BoundOnce`.

The code has these behaviours, which a reader might not expect:

- The window `error` listener is registered in the capturing phase.
- `removeDocument` does not remove what `appendDocument` added. See Findings.
- The stack may hold duplicates.

## Model

| member | source | states |
|---|---|---|
| ViewStack.PushView | src/ui/viewStack.ts:41-43 | the pushed view becomes the top, the views below are unchanged, and its number of entries rises by one even if it was already on the stack; nothing is closed, focused or dispatched |
| ViewStack.PushAllIsPushView | src/ui/viewStack.ts:41-43 | pushing a list of views is pushing its first view with `pushView` and then the rest |
| ViewStack.PushOrder | src/ui/viewStack.ts:83-85 | after any sequence of pushes `getViews` lists the views in push order, and the top-to-bottom walk visits the pushed views in reverse push order |
| ViewStack.PopView | src/ui/viewStack.ts:45-58 | on an empty stack: stack stays empty, nothing closed or focused, `onTopLevelEscape` dispatched exactly once; otherwise the top view alone is removed and closed exactly once (first effect), focus goes to its `returnFocusTo` if set, nothing is dispatched and the rest keeps its order |
| ViewStack.PopUndoesPush | src/ui/viewStack.ts:41-58 | popping right after a push restores the previous stack and closes exactly the pushed view |
| ViewStack.PopThrough | src/ui/viewStack.ts:65-71 | the do-while loop stops at the topmost entry of the view: it keeps exactly the entries below it and closes the entries from the top down to and including it, in that order |
| ViewStack.RemoveView | src/ui/viewStack.ts:60-81 | removing a view not on the stack changes nothing and has no effect; no removal ever dispatches (the `onTopLevelEscape` branch is unreachable) |
| ViewStack.RemoveViewClosesThroughTopmost | src/ui/viewStack.ts:60-81 | with `k` the index of the topmost entry of `v`: the stack becomes its first `k` entries in order, entries `k..` are closed top first, then focus returns to `v.returnFocusTo` if set |
| ViewStack.DuplicateNeedsTwoRemovals | src/ui/viewStack.ts:60-71 | a view pushed twice loses only its upper entry on `removeView` and needs a second removal to leave the stack |
| ViewStack.RemoveBottomClosesAll | src/ui/viewStack.ts:65-71 | with A, B, C pushed, removing A closes C, B, A in that order and empties the stack |
| ViewStack.RunHitTest | src/ui/viewStack.ts:19-39 | the result keeps a prefix of the stack whose top (if any) is hit, every removed entry is missed, and the removed entries are closed top first |
| ViewStack.RunHitTestQuiet | src/ui/viewStack.ts:19-39 | the hit test never moves focus and never dispatches a topic |
| ViewStack.RunHitTestStopsAtFirstHit | src/ui/viewStack.ts:19-39 | if the view at depth `d` is the first one hit, the `d` views above it are closed top to bottom and it and everything below it remain in order |
| ViewStack.RunHitTestMissDrains | src/ui/viewStack.ts:19-39 | if no view is hit the stack ends empty and every entry is closed exactly once (same multiset), top first, with no focus change or dispatch |
| ViewStack.OutsideClickClosesUpperView | src/ui/viewStack.ts:19-39 | with A under B, a pointer-down that misses B and hits A closes B and leaves [A] |
| ViewStack.CloseAll | src/ui/viewStack.ts:88 | the `forEach` closes every entry once, bottom to top, and does nothing else |
| ViewStack.Clear | src/ui/viewStack.ts:87-90 | the stack ends empty, each entry is closed exactly once in bottom-to-top order, with no `onTopLevelEscape` and no focus return |
| ViewStack.OnBusEvent | src/ui/viewStack.ts:8-17 | `onEscape` runs `popView`, `onPointerDown` runs the hit test on the event's target, and no other topic changes the stack |
| EventTranslation.OnKeyDown | src/events/globalEventHandler.ts:63-78 | a keydown produces `preventDefault` and then the chord's topic exactly when the key is a chord of the chord table (Ctrl+S, Ctrl+P, Esc with or without Ctrl), and nothing otherwise |
| EventTranslation.KeyDownChords | src/events/globalEventHandler.ts:63-90 | at most one topic per keydown; `preventDefault` exactly when a topic is dispatched; Esc gives `onEscape` regardless of Ctrl; S and P need Ctrl; any other key does nothing, with or without Ctrl |
| EventTranslation.RunDispatched | src/events/globalEventHandler.ts:63-144 | each translator's dispatches: keydown dispatches its chord's topic or nothing, dragleave dispatches `onDragLeave` and at (0,0) also `onDragLeaveScreen`, every other translator dispatches its one topic, with the event as payload exactly for the topics that carry it |
| EventTranslation.RunSuppressions | src/events/globalEventHandler.ts:63-144 | `preventDefault` is called once by dragenter, dragover and drop, once by keydown exactly on a chord, and never by the other translators |
| EventTranslation.TranslatorTopics | src/events/globalEventHandler.ts:80-144 | every dispatched topic belongs to the translator that dispatched it, and its payload is the original event exactly for pointer, drop, paste and error topics, otherwise none |
| EventTranslation.TranslatorCounts | src/events/globalEventHandler.ts:63-144 | every translator but keydown dispatches at least once, only dragleave at (0,0) dispatches twice, and `preventDefault` is called at most once, exactly by dragenter, dragover, drop and a keydown chord |
| EventTranslation.SuppressionOrder | src/events/globalEventHandler.ts:108-132 | dragover and keydown call `preventDefault` before dispatching; dragenter and drop dispatch first and then call it |
| EventTranslation.DragLeaveScreenExactlyAtOrigin | src/events/globalEventHandler.ts:120-126 | dragleave dispatches `onDragLeave` first, then `onDragLeaveScreen` exactly when `screenX == 0 && screenY == 0`, and never calls `preventDefault` |
| DocumentRegistry.EntryFor | src/events/globalEventHandler.ts:32-43 | keydown and dragleave listen in the default phase, every other type in the capturing phase, and only `error` listens on the window |
| DocumentRegistry.DeliverToDocument | src/events/globalEventHandler.ts:32-43 | the listeners added for one document run the table's translator exactly once for an event fired at that document (or its window, for `error`) and never for another target |
| DocumentRegistry.RemoveFirst | src/events/globalEventHandler.ts:47 | removing a document changes nothing when it is absent; when present the list gets one entry shorter and gains nothing |
| DocumentRegistry.RemoveFirstNoDup | src/events/globalEventHandler.ts:47 | on a list without repeats, removing an entry leaves a list without repeats that no longer holds it; every other entry is kept |
| DocumentRegistry.RemoveFirstDropsOne | src/events/globalEventHandler.ts:47 | removing a present document takes away exactly one copy of it and keeps every other entry |
| DocumentRegistry.AppendDocument | src/events/globalEventHandler.ts:25-44 | appending a registered document changes nothing and adds no listener; otherwise the document is appended once and a listener for every table row is attached; when the router is consistent the listeners become the old ones followed by exactly the twelve new registrations |
| DocumentRegistry.RemoveDocument | src/events/globalEventHandler.ts:46-61 | the document leaves the registry (one entry fewer when present); on a list without repeats it is no longer listed afterwards and the list stays without repeats |
| DocumentRegistry.RemoveDocumentDetachesOnlyKeyDown | src/events/globalEventHandler.ts:46-61 | of the listeners, only the keydown listener is removed; every other removal passes a fresh reference and removes nothing |
| DocumentRegistry.AppendDocumentConsistent | src/events/globalEventHandler.ts:25-44 | appending keeps the as-written router consistent: documents and listeners without repeats, a keydown listener only for a listed document |
| DocumentRegistry.RemoveDocumentConsistent | src/events/globalEventHandler.ts:46-61 | removing keeps the as-written router consistent, even though the other eleven listeners stay attached |
| DocumentRegistry.AsWrittenRouterConsistent | src/events/globalEventHandler.ts:25-61 | from a consistent router, any sequence of as-written appends and removes keeps it consistent |
| DocumentRegistry.DetachedDocumentStillTranslates | src/events/globalEventHandler.ts:46-61 | after attach and detach the document is no longer registered, yet a dragover fired at it is still translated |
| DocumentRegistry.ReattachDoublesDragOver | src/events/globalEventHandler.ts:25-61 | after attach, detach and attach, one dragover is translated twice |
| DocumentRegistry.AppendDocumentFixed | src/events/globalEventHandler.ts:25-44 | the corrected append is idempotent and appends an unregistered document once |
| DocumentRegistry.RemoveDocumentFixed | src/events/globalEventHandler.ts:46-61 | the corrected remove drops the document from the registry: on a valid router it is no longer listed and the document list stays without repeats |
| DocumentRegistry.FixedRouterTranslatesOnce | src/events/globalEventHandler.ts:25-61 | after any sequence of corrected appends and removes, an event fired at a registered document is translated exactly once and one fired at an unregistered document not at all |
| DocumentRegistry.FixedAttachDetachIdempotent | src/events/globalEventHandler.ts:25-61 | on the corrected router, appending twice equals appending once, and removing an unregistered document changes nothing |
| Editor.EscapeKeyPopsTopView | src/ui/viewStack.ts:8-12 | an Esc keydown, with or without Ctrl, reaches the view stack as `popView` |
| Editor.PointerDownRunsHitTest | src/ui/viewStack.ts:10-17 | a mouse-down reaches the view stack as the hit test on the event's target |
| Editor.ChordLeavesStack | src/ui/viewStack.ts:8-12 | Ctrl+S, Ctrl+P and keys that form no chord leave the view stack unchanged with no effect |
| Editor.OtherInputLeavesStack | src/ui/viewStack.ts:8-12 | no other raw input changes the view stack or causes any of its effects |
| MediaHyperlinkProvider.CanHandleHyperlink | src/media/mediaHyperlinkProvider.ts:11-13 | a missing or empty key is refused; an accepted key is at least as long as `"uploads/"` |
| MediaHyperlinkProvider.HandlesEveryUpload | src/media/mediaHyperlinkProvider.ts:12 | every key of the form `"uploads/" + rest` is accepted, `"uploads/"` itself included |
| MediaHyperlinkProvider.HandledKeysAreUploads | src/media/mediaHyperlinkProvider.ts:12 | every accepted key is present and has the form `"uploads/" + rest` |
| MediaHyperlinkProvider.RefusesOtherKeys | src/media/mediaHyperlinkProvider.ts:12 | `"uploads"`, `"pages/x"` and `"Uploads/a"` are refused and `"uploads/"` is accepted |
| MediaHyperlinkProvider.GetHyperlinkFromResource | src/media/mediaHyperlinkProvider.ts:15-23 | title and permalink key are the media's filename and permalink key; target is always `"_blank"` and type always `"media"` |
| MediaHyperlinkProvider.HyperlinkIdentifiesMedia | src/media/mediaHyperlinkProvider.ts:15-23 | two media records give the same hyperlink exactly when their `filename` and `permalinkKey` agree |

## Findings

| source | as written | input that shows it | evidently intended | confidence | as-written member | corrected member |
|---|---|---|---|---|---|---|
| src/events/globalEventHandler.ts:46-60 | `removeDocument` passes a newly bound function for every listener but keydown. That reference equals none registered, so those eleven listeners stay attached. | `appendDocument(d)`, `removeDocument(d)`, `appendDocument(d)`, then one dragover on `d` | detaching removes the listeners attaching added, so each event on an attached document is translated once | high (not executed) | DocumentRegistry.ReattachDoublesDragOver | DocumentRegistry.FixedRouterTranslatesOnce |

For the input above, the document is no longer registered after the detach, yet its dragover
is still translated (`DocumentRegistry.DetachedDocumentStillTranslates`). After re-attaching,
one dragover gives two `preventDefault` calls and two `onDragOver` dispatches. The corrected
router binds every translator once and reuses that reference for removal
(`AppendDocumentFixed`, `RemoveDocumentFixed`). It keeps the invariant `Valid`: each document
is listed once, and the listeners are exactly those of the listed documents. The router as
written keeps only the weaker invariant `Consistent`: no repeats among documents or
listeners, every bound reference older than the next serial, and a keydown listener only for a
listed document. The listeners of other types
outlive their document.

## Left out

- `src/configuration/settingsProvider.ts`: asynchronous settings loading over HTTP. It is not part of this model.
- `src/errors/unhandledErrorHandler.ts`: a one-line forwarding of `onError` to a notifier. It is not part of this model.
- `src/ui/draggables/dragSession.ts`: a data interface with no behaviour and nothing to prove. It is not part of this model.
- The `add*Listener` helpers (src/events/globalEventHandler.ts:146-180): they only forward to the event manager.
- The constructor's binding of `onCtrlS`, `onEscape` and the `add*Listener` helpers: only the identity of the bound `onKeyDown` affects behaviour.
- Event-manager delivery to subscribers and its ordering. A dispatch is recorded as a trace entry.
- Capture and bubble phase ordering at delivery. `DocumentRegistry.Deliver` runs matching listeners in registration order; the capture flag matters only for listener identity.
- Re-entrant changes to the stack from inside `close()` during `runHitTest`. The source iterates a copy; the model assumes `close()` does not touch the stack.
- `Html.closest` and the DOM tree: the default hit test is membership of the view's element in the target's ancestor-or-self list, carried by the event.
- `focus()` and `close()` themselves: they are recorded as effects.
- `ViewStack.OnBusEvent`: an `onPointerDown` without a payload leaves the stack unchanged. The source would fail reading `target` of `undefined`, but the translator always attaches the event.
- The `undefined` top inside `removeView`'s loop, and its `onTopLevelEscape` branch after the loop: neither can be reached once the view is known to be on the stack. `ViewStack.PopThrough` requires that presence, and `ViewStack.RemoveView` states that no removal dispatches.
- `MediaHyperlinkProvider.CanHandleHyperlink`: for a missing or empty key the source returns the key itself (`undefined` or `""`), not `false`. Callers only test truthiness, so the model returns `false`.
- The other fields of the media and hyperlink records, which the provider neither reads nor sets.
- The provider's `name` (`"Media"`) and `componentName` (`"media-selector"`) constants (src/media/mediaHyperlinkProvider.ts:8-9): nothing in the modelled behaviour reads them.
- `doc.defaultView` being absent: the window is assumed to exist for every document.
