# typstyle-tampermonkey in Dafny

This project models the logic inside typstyle-tampermonkey, a userscript that formats Typst code in the typst.app editor. The browser and library glue around that logic is not modelled. The model covers two parts.

**The anchor diff** (`src/editor.ts`). After formatting, the plugin does not replace the whole document. `calculateDiff` works as follows:

- It trims the longest common prefix of the old and the new text.
- It steps that prefix back while it ends just after a high surrogate.
- It trims the longest common suffix of what remains after the prefix.
- It steps that suffix back while it starts on a low surrogate in either text.
- It returns one replacement `{from, to, insert}`, or `null` when the texts are equal.

`applyDiff` dispatches that replacement to the CodeMirror view as one transaction.

Texts are sequences of UTF-16 code units (`Editor.Text`), as JavaScript strings are. `s[i]` and `charCodeAt(i)` are indexing, and `slice` is a subsequence. `isHighSurrogate` and `isLowSurrogate` (src/editor.ts:64-70) are the range predicates `Editor.IsHighSurrogate` (0xD800 to 0xDBFF) and `Editor.IsLowSurrogate` (0xDC00 to 0xDFFF).

- `Editor.AnchorDiff` is the functional specification of the diff. `Editor.CalculateDiff` is the imperative version, proved equal to it. Its four `while` loops are the methods `ScanPrefix`, `BackOffPrefix`, `ScanSuffix` and `BackOffSuffix`, run in the source's order.
- A CodeMirror change means the splice `old[..from] + insert + old[to..]` (`Editor.Splice`).
- `Editor.EditorView` holds the document and counts the dispatched transactions.

**The keyboard shortcut** (`src/main.ts`, `src/ui.ts`). A shortcut is a string such as `Ctrl+Alt+F`.

- `Shortcut.IsShortcutMatch` decides whether a key event matches a shortcut:
  - it splits the shortcut on `+`;
  - every component except the last is a modifier name, and the last is the main key;
  - the four modifier flags must agree with the modifier names;
  - the event's key, normalised through a fixed key-name table (or upper-cased when it is a single character), must equal the main key.
- `ShortcutInput.ShortcutField` is the capture field of the settings dialog:
  - focus and blur toggle the `isCapturing` flag;
  - a keydown while capturing writes the held modifiers (in the order Ctrl, Alt, Shift, Meta) and the normalised key, joined by `+`;
  - the clear button empties the field and focuses it again.
- `String.prototype.toUpperCase` is a function parameter `upper` shared by both sides. `split` and `join` with a one-character separator are `Strings.Split` and `Strings.Join`.

Proved results:

- The diff round-trips: splicing the change into the old text gives the new text.
- The diff's ranges are well formed, and no edit boundary splits a surrogate pair.
- Six concrete outcomes: three plain edits, one replacing a whole surrogate pair, and one for each of the two surrogate back-offs.
- A capture matches the event it was captured from exactly when the normalised key has no `+` and the capture is not empty. So a combination whose main key is `+` can be captured but never fires (`ShortcutInput.PlusKeyCapture`).

## Model

| member | source | states |
|---|---|---|
| Editor.IsHighSurrogate | src/editor.ts:64-66 | the range test 0xD800 to 0xDBFF; `BackOffHigh`, `KeptPrefixFacts` and `AnchorDiffKeepsPairs` state the prefix never ends just after such a unit |
| Editor.IsLowSurrogate | src/editor.ts:68-70 | the range test 0xDC00 to 0xDFFF; `BackOffLow`, `KeptSuffixFacts` and `AnchorDiffKeepsPairs` state the suffix never starts on such a unit in either text |
| Editor.Splice | src/editor.ts:16-18 | the meaning of a dispatched change, `old[..from] + insert + old[to..]`; `SpliceMiddle` and `AnchorChangeRoundTrip` prove the anchor change splices the old text into the new one |
| Editor.AnchorChange | src/editor.ts:54-61 | the change built from the kept prefix and suffix; `AnchorChangeRoundTrip` proves it in range and splicing the old text into the new text |
| Editor.AnchorDiff | src/editor.ts:23-62 | the functional form of `calculateDiff`; `AnchorDiffBounds`, `AnchorDiffRoundTrip` and `AnchorDiffKeepsPairs` state its bounds, round trip and surrogate safety, and `CalculateDiff` is proved equal to it |
| Editor.CommonPrefix | src/editor.ts:27-32 | the scanned prefix fits both texts, and where both texts go on they differ at its end |
| Editor.CommonPrefixIs | src/editor.ts:27-32 | the prefix scan stops exactly at the first mismatch or at the end of the shorter text |
| Editor.CommonPrefixWhole | src/editor.ts:33-35 | a common prefix as long as both texts means the texts are equal, so the second `null` return is unreachable |
| Editor.CommonSuffix | src/editor.ts:40-47 | the suffix scan stays within the parts after the prefix, and where both go on they differ at its start |
| Editor.CommonSuffixIs | src/editor.ts:40-47 | the suffix scan stops exactly at the first mismatch from the ends or where a remainder after the prefix runs out |
| Editor.BackOffHigh | src/editor.ts:36-38 | the backed-off prefix is no longer than before and does not end just after a high surrogate |
| Editor.BackOffLow | src/editor.ts:48-52 | the backed-off suffix is no longer than before and does not start on a low surrogate in either text |
| Editor.KeptPrefix | src/editor.ts:27-38 | the kept prefix fits both texts |
| Editor.KeptSuffix | src/editor.ts:40-52 | the kept suffix fits both texts after the kept prefix |
| Editor.ScanPrefix | src/editor.ts:27-32 | the first loop computes the common prefix |
| Editor.BackOffPrefix | src/editor.ts:36-38 | the second loop computes the high-surrogate back-off |
| Editor.ScanSuffix | src/editor.ts:40-47 | the third loop, over the slices after the prefix, computes the common suffix of the remainders |
| Editor.BackOffSuffix | src/editor.ts:48-52 | the fourth loop computes the low-surrogate back-off |
| Editor.CalculateDiff | src/editor.ts:23-62 | the result is the anchor diff: `null` exactly for equal texts, otherwise an in-range change whose splice into the old text gives the new text |
| Editor.AnchorDiffBounds | src/editor.ts:23-62 | `null` iff the texts are equal; otherwise `from <= to` within the old text, the kept suffix fits the new text after `from`, and the insert is as long as the rest of the new text |
| Editor.KeptPrefixAgrees | src/editor.ts:27-38 | both texts agree on the kept prefix |
| Editor.KeptSuffixAgrees | src/editor.ts:40-52 | both texts agree on the kept suffix |
| Editor.KeptPrefixFacts | src/editor.ts:27-38 | the kept prefix is the common prefix minus the high surrogates it ended with, and neither text has a high surrogate just before it |
| Editor.KeptSuffixFacts | src/editor.ts:40-52 | the kept suffix is the common suffix after the prefix minus the low surrogates it started with in either text, and neither text has a low surrogate at its start |
| Editor.SpliceMiddle | src/editor.ts:54-61 | replacing the middle of the old text by the middle of the new text gives the new text when both share the outer parts |
| Editor.AnchorChangeRoundTrip | src/editor.ts:54-61 | the anchor change is in range and splices the old text into the new text |
| Editor.AnchorDiffRoundTrip | src/editor.ts:23-62 | a non-null diff splices the old text into the new text |
| Editor.AnchorDiffKeepsPairs | src/editor.ts:36-52 | no end of the replaced range (old text) or of the inserted range (new text) falls inside a surrogate pair |
| Editor.EditorView.constructor | src/editor.ts:8-11 | the view holds the given document and no transaction has been dispatched yet |
| Editor.EditorView.Dispatch | src/editor.ts:16-18 | dispatching a change splices it into the document as one transaction |
| Editor.EditorView.ApplyDiff | src/editor.ts:8-20 | starting from the old text the document ends up holding the new text, with one transaction when the texts differ and none when they are equal |
| EditorExamples.InsertIntoEmpty | src/editor.ts:23-62 | `""` to `"x"` gives `{0, 0, "x"}` |
| EditorExamples.DeleteAll | src/editor.ts:23-62 | `"x"` to `""` gives `{0, 1, ""}` |
| EditorExamples.ReplaceWord | src/editor.ts:23-62 | `"hello world"` to `"hello there"` gives `{6, 11, "there"}` |
| EditorExamples.ReplacePair | src/editor.ts:23-62 | replacing a surrogate pair between kept characters replaces exactly the pair |
| EditorExamples.PrefixBacksOff | src/editor.ts:36-38 | a common prefix ending after a high surrogate backs off over it |
| EditorExamples.SuffixBacksOff | src/editor.ts:48-52 | a common suffix starting on a low surrogate backs off over it |
| Strings.Join | src/ui.ts:154 | `keys.join('+')`; `JoinSplit`, `SplitJoin` and `JoinLast` relate it to `Split` and to its last piece |
| Strings.Split | src/main.ts:137 | splitting always yields at least one piece |
| Strings.SplitPiecesFree | src/main.ts:137 | no piece of a split contains the separator |
| Strings.JoinSplit | src/main.ts:137 | joining the pieces of a split restores the string |
| Strings.SplitJoin | src/ui.ts:154 | splitting a join of separator-free pieces gives the pieces back |
| Strings.JoinLast | src/ui.ts:152-154 | a join ends with its last piece |
| Strings.SplitEndsWithSeparator | src/main.ts:137-139 | a string ending in the separator has an empty last piece |
| Shortcut.KeyMap | src/main.ts:155-171 | the fifteen-entry key-name table, shared with src/ui.ts:128-144; `SingleKeysOfMap` and `KeyMapNamesUsable` state what the matcher and the capture rely on |
| Shortcut.KeyMapNamesUsable | src/main.ts:155-171 | every name in the table is non-empty and free of `+`, so it survives the split as a main key |
| Shortcut.NormaliseKey | src/main.ts:153-177 | table name, else upper-cased single character, else the key itself (the same steps as src/ui.ts:126-150); `PlusKeyNeverMatches`, `CaptureRoundTrip` and `TableKeyRoundTrip` state what the normalised key decides |
| Shortcut.IsShortcutMatch | src/main.ts:134-180 | the matcher's tests in the source's order; `MatchIff` states when it holds, `EmptyNeverMatches`, `ExtraModifierFails`, `KnownModifiersOnly` and `PlusKeyNeverMatches` its consequences |
| Shortcut.SingleKeysOfMap | src/main.ts:155-171 | the space bar is the only one-character key the table renames |
| Shortcut.MatchIff | src/main.ts:134-180 | a match holds iff the shortcut is not empty, all four modifier flags agree with the modifier names, and the normalised key is the main key |
| Shortcut.EmptyNeverMatches | src/main.ts:135 | the empty shortcut matches no event |
| Shortcut.ExtraModifierFails | src/main.ts:141-151 | holding a modifier the shortcut does not name fails the match |
| Shortcut.PlusKeyNeverMatches | src/main.ts:137-179 | an event whose normalised key contains `+` matches no shortcut |
| Shortcut.ShortcutComponents | src/main.ts:137-139 | joining separator-free modifiers and a main key with `+` and splitting again recovers them |
| Shortcut.KnownModifiersOnly | src/main.ts:141-151 | for a non-empty main key, only which of Ctrl, Alt, Shift and Meta appear matters: order, repetition and unknown names are ignored |
| Shortcut.DefaultShortcutParts | src/types.ts:27 | the default `Ctrl+Alt+F` has modifiers Ctrl and Alt and main key `F` |
| Shortcut.CtrlAltFMatches | src/main.ts:134-180 | a shortcut with modifiers Ctrl, Alt and main key `F` matches Ctrl+Alt+`f`/`F` and nothing with other modifier flags |
| Shortcut.DefaultShortcutMatches | src/types.ts:27 | the default shortcut matches Ctrl+Alt with `f` or `F`, and only events with Ctrl and Alt held and Shift and Meta released |
| ShortcutInput.HeldModifiersFlags | src/ui.ts:118-124 | the captured modifier names list each modifier exactly when its flag is set |
| ShortcutInput.HeldModifiersOrdered | src/ui.ts:118-124 | the captured modifier names are modifier names, each at most once, in the order Ctrl, Alt, Shift, Meta |
| ShortcutInput.ShortcutField.constructor | src/ui.ts:89-93 | the field starts not capturing, showing the configured shortcut |
| ShortcutInput.ShortcutField.Focus | src/ui.ts:95-99 | focus starts capturing and keeps the value |
| ShortcutInput.ShortcutField.Blur | src/ui.ts:101-105 | blur stops capturing and keeps the value |
| ShortcutInput.ShortcutField.Keydown | src/ui.ts:107-156 | the default action is suppressed and propagation stopped exactly while capturing; the value changes only while capturing and not for a lone modifier key, and then becomes the captured combination |
| ShortcutInput.ShortcutField.Clear | src/ui.ts:158-161 | clearing empties the value and leaves the field capturing |
| ShortcutInput.Capture | src/ui.ts:118-154 | the held modifiers then the normalised key, joined by `+`; `CaptureComponents`, `CaptureEndsWithKey` and `CaptureRoundTrip` state its shape and that it matches its own event |
| ShortcutInput.TableKeyRoundTrip | src/ui.ts:128-150 | every key the table names is captured as a shortcut its own event matches |
| ShortcutInput.CaptureComponents | src/ui.ts:118-154 | without `+` in the normalised key, the capture splits into the held modifiers followed by the normalised key: one component per held modifier plus one |
| ShortcutInput.CaptureRoundTrip | src/ui.ts:107-156 | a capture matches its own event iff the normalised key has no `+` and the capture is not empty |
| ShortcutInput.CaptureEndsWithKey | src/ui.ts:152-154 | the captured string ends with the normalised key |
| ShortcutInput.PlusKeyCapture | src/ui.ts:146-154 | capturing the `+` key gives a shortcut with an empty main key that never matches |

## Left out

- `calculateDiff` computes exactly one replacement (src/editor.ts:23-62). There is no multi-hunk diff, no batch of splices and no out-of-range error, and `applyDiff` dispatches the change without a bounds check (src/editor.ts:13-19); the model has the same single change.
- `getContent` and the CodeMirror internals reached through `@ts-ignore` (src/editor.ts:2-11) are foreign code. The document is the field `EditorView.doc`, and `dispatch` is its splice.
- Editor.EditorView.ApplyDiff: requires the document to hold `oldText`. The only caller, `formatCode` (src/main.ts:105-120), always passes the document's own content. What CodeMirror does with an out-of-range change is not modelled.
- `formatCode`, the `TypstyleFormatter` wrapper and the formatter itself (src/formatter.ts) are not part of this model. The formatter is foreign WebAssembly code.
- ShortcutInput.ShortcutField.constructor: takes the configured shortcut as the field's value. In the source the value comes from unescaped interpolation into `innerHTML` (src/ui.ts:65). A configured shortcut containing `"` (Shift with the `'` key on a US layout captures `Shift+"`) therefore shows as the text before the quote (`Shift+`) when the dialog is next built (its first opening after a page load, or after leaving and re-entering a project, which destroys it at src/ui.ts:82-87), and saving then stores that. Reopening an already built dialog keeps the full value. HTML attribute parsing is not modelled.
- Notifications, the settings modal and button DOM, border colours, history patching, polling for the editor, `localStorage` persistence and listener registration are left out. They are DOM and timer glue with no logic to prove. This includes the `bind` mismatch at src/main.ts:123-124, where a listener is removed by a different function object than the one added.
- The `input` listener of the shortcut field (src/ui.ts:163-168) is left out. It cancels `input` events while not capturing, but the field is read-only and has no other state.
- `toUpperCase` is an uninterpreted parameter `upper`. Unicode case mapping is not specified, and no lemma depends on it beyond what it assumes about `upper` in its requires.
- Looking up an event key that names an `Object.prototype` member (such as `constructor`) in the JavaScript key table yields a function rather than `undefined`. The model's table is a finite map with exactly the fifteen listed keys; no `KeyboardEvent.key` value names such a member.
- JavaScript strings in the shortcut code are Dafny strings of Unicode scalar values. A "single character" (`length === 1`) is a one-element string whose character lies in the Basic Multilingual Plane (`Shortcut.IsSingleUnit`).
