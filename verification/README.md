# PyGameGUILib widget-state engine in Dafny

This project models the core of `GUILib.py`, a small declarative widget library built on pygame.

- A widget declares named visual states in `States`: "Default", "Hovered", "Pressed", or composites such as "Pressed&Hovered".
- Each frame the widget derives its condition flags from the pointer and the mouse button.
- `BaseWidget.update` picks one active state by a first-match scan over `StateOrder`.
- When that state changes, `_update_visuals` re-resolves the widget's texture and rect.
- `correct_data` normalises the configuration once, at construction. It defaults and filters `StateOrder`, then merges "Default" into every state's style.
- `Manager` keeps the widgets in insertion order and fans out update and render to each of them.

Modules, one per component:

- `Wrappers`: `Option` and `Result`. A Python exception becomes an `Err` value.
- `Strings`: `str.split('&')` and its inverse `join`.
- `Styles`: style values, the `dict |` merge, `_resolve` and the visual resolution of `_update_visuals`, and `Rect.collidepoint`.
- `StateMachine`: state resolution (`BaseWidget.update`, lines 44-50).
- `Normalization`: `correct_data`. It appears twice, verbatim, in the source and is modelled once.
- `Widgets`: the widget record, construction, the per-class flag derivation, the shared update and `render`.
- `Registry`: `Manager`.

Everything is immutable data and pure functions. Inputs that the source reads from globals are passed in as parameters:

- `pygame.mouse.get_pos()` and `pygame.mouse.get_pressed()[0]` become an `Input` value holding the pointer position, the left-button level and the event queue.
- A callable `Pos` component is a `Computed(id)`. Its value at the moment of resolution comes from a caller-supplied `Producers` function.

Three behaviours of the code are easy to overlook; the model states each of them:

- `Button` (the momentary button) does not clear Pressed when the pointer leaves. It keeps the value it last sampled while hovered (`ButtonKeepsPressOffWidget`).
- An empty `States` passes `correct_data` without error, because the merge loop reads `States["Default"]` only inside its body (`MergeDefaults`). Such a widget still fails earlier, at the constructor's first `_update_visuals`.
- The button constructors resolve "Default" against the raw data first, then run `correct_data`, then resolve again (`Construct`).

## Model

| member | source | states |
|---|---|---|
| Strings.Split | GUILib.py:45 | `state_key.split('&')` always yields one more piece than there are separators, and no piece contains '&' |
| Strings.JoinSplit | GUILib.py:45 | joining the pieces of a split with '&' restores the original state name |
| Strings.SplitJoin | GUILib.py:45 | splitting a '&'-join of separator-free names gives those names back, so a composite name's sub-conditions are exactly its parts |
| StateMachine.FirstMatchIndex | GUILib.py:44-48 | the scan stops at a matching entry, and no entry it skipped matches |
| StateMachine.ResolveIn | GUILib.py:44-50 | resolution returns the earliest `StateOrder` entry whose non-"Default" sub-conditions all have flag 1 (absent flags count as 0), or "Default" when none match; the result is always an entry of the order or "Default" |
| StateMachine.Resolve | GUILib.py:44-50 | an absent `StateOrder` always resolves to "Default"; a present one resolves by first match |
| StateMachine.FirstMatchIsResolved | GUILib.py:44-50 | any name that meets the first-match description is the one resolution returns |
| StateMachine.ResolveCharacterized | GUILib.py:44-50 | resolution equals the first-match rule in both directions |
| StateMachine.ResolvePriority | GUILib.py:44-48 | once entry k matches, the result lies among the first k+1 entries: priority is by position, not by specificity |
| StateMachine.MatchesAllPieces | GUILib.py:45-46 | an entry matches exactly when every '&'-piece other than "Default" has flag 1, an absent flag counting as 0 |
| StateMachine.MatchesSingle | GUILib.py:45-46 | a name without '&' matches exactly when it is "Default" or its flag is 1 |
| StateMachine.MatchesPair | GUILib.py:45-46 | "a&b" matches exactly when both a and b hold |
| StateMachine.ResolveFourEntryOrder | GUILib.py:44-50 | the full truth table of `[p&h, p, h, "Default"]` over two flags |
| Styles.Merge | GUILib.py:75 | the dict union of base and own has the union of the keys, with own's values winning and base's values kept elsewhere |
| Styles.MergeTwice | GUILib.py:75 | merging the same base twice gives the same entry as merging once |
| Styles.MergeDrawable | GUILib.py:75 | a well-typed override merged over a drawable "Default" is drawable, meaning it has a usable "Pos" |
| Styles.ResolveCoord | GUILib.py:32-33 | a literal coordinate is used as it is; a callable one yields its producer's current value |
| Styles.Contains | GUILib.py:79 | `collidepoint` is true only inside a non-empty rect, at or below and right of its top-left corner, so a zero rect is never hovered |
| Styles.ResolveVisuals | GUILib.py:32-40 | succeeds exactly on entries with a pair at "Pos" and a surface or None at "Texture"; `pos` is each component resolved (producer result or literal); with a texture the rect is the texture's size at `pos`, without one only the top-left moves |
| Normalization.KeepDeclared | GUILib.py:69-71 | the list comprehension keeps only declared states, each with its original multiplicity, and drops nothing declared |
| Normalization.KeepDeclaredSubsequence | GUILib.py:69-71 | the filtered order is a subsequence of the requested order, so relative order is kept |
| Normalization.KeepDeclaredFixed | GUILib.py:69-71 | an order whose entries are all declared passes the filter unchanged |
| Normalization.NormalizeOrder | GUILib.py:67-73 | the written-back order is non-empty; it is either `["Default"]` or a subsequence of the requested order (the four-entry default when absent) made of declared states; it is `["Default"]` when nothing requested is declared, and otherwise holds every declared entry with exactly its multiplicity in the requested order |
| Normalization.NormalizeOrderExample | GUILib.py:67-73 | with "Default" and "Hovered" declared, `["Pressed","Hovered","Default"]` becomes `["Hovered","Default"]` |
| Normalization.NormalizedOrderFixed | GUILib.py:67-73 | a non-empty order that is `["Default"]` or made only of declared states is its own normalisation |
| Normalization.NormalizeOrderIdempotent | GUILib.py:67-73 | normalising an already normalised order changes nothing |
| Normalization.MergeDefaults | GUILib.py:74-75 | the merge raises exactly when a non-empty `States` lacks "Default"; otherwise the keys of `States` are unchanged, "Default" keeps its content, and every entry holds its own keys' values plus the original "Default"'s values for the keys it lacks |
| Normalization.MergeDefaultsIdempotent | GUILib.py:74-75 | merging twice gives the same table as merging once |
| Normalization.MergeDefaultsDrawable | GUILib.py:74-75 | a drawable "Default" merged into well-typed entries makes every state drawable |
| Normalization.CorrectData | GUILib.py:65-75 | `correct_data` fails only on a non-empty `States` without "Default"; it keeps the state keys, replaces `States` by the table with "Default" merged into every entry, and writes back the normalised order; with "Default" declared, every order entry is a key of `States` |
| Normalization.CorrectDataIdempotent | GUILib.py:65-75 | running `correct_data` on its own output changes nothing, so a data dictionary shared by several widgets is safe |
| Normalization.ResolvedStateDeclared | GUILib.py:36 | after normalisation every state that resolution can return is a key of `States`, so the lookup cannot raise |
| Normalization.DefaultOrderTable | GUILib.py:68 | with the default order, both flags give "Pressed&Hovered", then Pressed alone gives "Pressed", then Hovered alone gives "Hovered", else "Default" |
| Widgets.UpdateVisuals | GUILib.py:35-40 | reports `UnknownState` (the `KeyError` of `States[current]`) exactly when the current state is undeclared; a missing or malformed "Pos" is `BadPos`; succeeds exactly on a drawable entry; changes only style, texture and rect, with the values visual resolution gives |
| Widgets.BaseUpdate | GUILib.py:42-52 | the current state becomes the resolved one; if it did not change the widget is returned untouched (style, texture and rect included); visuals are recomputed only on a change |
| Widgets.BaseUpdateStable | GUILib.py:42-52 | updating again with unchanged flags returns the widget as it is, even if position producers would now yield other values: visuals are not recomputed |
| Widgets.TogglePressed | GUILib.py:80-83 | the event loop leaves Pressed either as it was or flipped, and never changes it when not hovered |
| Widgets.ToggleParity | GUILib.py:80-83 | after the event loop, Pressed is flipped exactly when hovered and the number of left-button-down events is odd; with no new press, or not hovered, it is unchanged |
| Widgets.ToggleFlags | GUILib.py:78-83 | Hovered is 1 exactly when the pointer is inside the rect; Pressed follows toggle parity; no other flag changes |
| Widgets.ButtonFlags | GUILib.py:107-110 | Hovered is 1 exactly when the pointer is inside the rect; while hovered Pressed is the button level (0/1); otherwise it keeps its previous value |
| Widgets.FrameFlags | GUILib.py:77-110 | the flags each class derives from the rect it had before the frame: the base class derives none; both buttons set Hovered to 1 exactly when the pointer is inside; a toggle flips Pressed by parity of left presses; a momentary button copies the level while hovered and otherwise keeps Pressed; every other flag keeps its value, and the key set grows only by Hovered (and, for a hovered momentary button, Pressed) |
| Widgets.Update | GUILib.py:77-111 | on success the widget holds the derived flags and the state resolved from them, with kind and data unchanged; if the resolved state is the current one the result is the widget with only its flags replaced; otherwise it succeeds exactly when the new state is declared and drawable, and its style, texture and rect are those resolved from the new state's entry at the old rect |
| Widgets.Render | GUILib.py:54-56 | a widget draws its texture at its rect once, or draws nothing when it has no texture |
| Widgets.Initial | GUILib.py:22-28 | before the first `_update_visuals` a widget is in "Default" with no flags, no style and nothing to draw, and its zero rect contains no point |
| Widgets.Construct | GUILib.py:21-63 | construction succeeds exactly when "Default" is declared and drawable; the widget then shows "Default" with the visuals resolved from "Default" on a zero rect; the button classes hold the normalised data and flags Hovered=0, Pressed=0 |
| Widgets.ConstructValid | GUILib.py:60-75 | a button built from well-typed entries satisfies the widget invariant: normalised data, all states drawable, both flags present |
| Widgets.UpdateValid | GUILib.py:42-52 | a valid button's update never raises and keeps the invariant |
| Widgets.ButtonKeepsPressOffWidget | GUILib.py:106-111 | a momentary button pressed on the widget stays pressed after the pointer leaves, whatever the button level |
| Registry.Insert | GUILib.py:9 | `widgets[id] = w`: a fresh id is appended to the iteration order; an existing id keeps its position and only its widget is replaced; the order stays duplicate-free and matches the keys |
| Registry.NewWidget | GUILib.py:7-9 | `new_widget` fails exactly when construction fails, leaving the manager unchanged; otherwise it stores the new widget under the id |
| Registry.UpdateEach | GUILib.py:11-13 | the update loop keeps the set of ids |
| Registry.UpdateEachSucceeds | GUILib.py:11-13 | the update loop succeeds exactly when every widget's own step succeeds |
| Registry.UpdateEachValues | GUILib.py:11-13 | after the loop each widget is its own step applied once to its previous state; ids outside the loop are untouched |
| Registry.UpdateEachFirstError | GUILib.py:11-13 | a failing loop reports the error of the first failing widget in insertion order |
| Registry.UpdateAll | GUILib.py:11-13 | `Manager.update` succeeds exactly when every widget's update does; it keeps the order, and each widget is its own update |
| Registry.UpdateAllButtons | GUILib.py:11-13 | a manager of valid buttons always updates successfully, and its buttons stay valid |
| Registry.RenderEach | GUILib.py:15-17 | the render loop draws at most one texture per widget; when every widget has a texture it draws them one per widget in insertion order, and with none it draws nothing |
| Registry.RenderAll | GUILib.py:15-17 | `Manager.render` makes at most one draw per widget; when all have textures the i-th draw is the i-th inserted widget's texture at its rect |
| Registry.RenderEachConcat | GUILib.py:15-17 | rendering two orders in sequence draws the first order's draws, then the second's |
| Registry.RenderEachBetween | GUILib.py:15-17 | a widget's draws come after those of the widgets before it and before those of the widgets after it |
| Registry.RenderAllOrder | GUILib.py:15-17 | `Manager.render` draws each widget after every widget inserted before it and before every widget inserted after it, textured or not |
| Registry.EmptyManager | GUILib.py:4-5 | a new `Manager` is well formed, draws nothing, updates to itself, and its first widget becomes the whole order |
| Registry.RenderAfterNewWidget | GUILib.py:7-17 | a widget registered under a fresh id is drawn after every earlier widget |

## Left out

- Drawing: `screen.blit` is represented only as a `Draw(texture, rect)` value. pygame's surfaces, rect arithmetic beyond placement, and the screen are not modelled.
- Input devices: the pointer position, the left-button level and the event queue are parameters. One `Input` serves every widget in a frame, so pointer motion between two widgets' reads within a frame is not modelled.
- `Rect.collidepoint` is modelled as half-open containment, pygame's documented rule.
- Callables in `Pos`: arbitrary Python callables are not modelled. A producer is an id, and its result is read from the caller's `Producers` snapshot, so one resolution sees one value per producer.
- Texture truthiness: a "Texture" value that is neither a surface nor None is reported as `BadTexture`. In Python a falsy non-surface would instead be treated as no texture.
- Partial effects of exceptions: when `_update_visuals`, `correct_data` or a widget's update raises, the model returns the error and discards the half-updated widget or manager. Python leaves the earlier mutations in place (for example an already filtered `StateOrder`, or widgets earlier in the loop that were already updated).
- Mutation of the caller's data dictionary: `correct_data` rewrites the dictionary passed in. The model returns a new `Config`, and `CorrectDataIdempotent` shows that applying it again, as a second widget sharing the dictionary would, changes nothing.
- Widgets.ToggleFlags: requires the Pressed flag to be present. Construction always installs it; a toggle without it would raise `KeyError` on its first hovered click, and that path is not modelled.
- A data dictionary without a "States" key: `Config` always has a `states` table, so the `KeyError` that `data["States"]` raises in `_update_visuals` and `correct_data` when the key is absent is not modelled. An empty `states` table fails construction the same way.
- Widget removal from `Manager`: the source has no operation for it.
