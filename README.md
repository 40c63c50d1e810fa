# OllamaChat transcript protocol in Dafny

OllamaChat is a desktop front-end for a local language model. It keeps a whole
conversation as one flat string, `user: … assistant: … system: …`. The three
markers are the user's own delimiter settings, each with a colon appended.
Everything the program does reads or rewrites that string:

- it splits it on the markers to build the chat history sent to the model;
- it streams the answer back into it through the `assis12`/`usr12` sentinels;
- it cuts it back for a regeneration;
- it stores a hidden system prompt in front of saved chats and strips it again on load;
- it renames the markers when the settings change;
- it keeps chat names unique.

This project models those parts and proves their properties. The modules follow
the source files:

- `Transcript` (transcript.dfy): `re.split` on the three literal markers. It scans
  left to right and tries user, then assistant, then system at each position. It
  matches case-insensitively or exactly, and keeps the matched text as a piece.
- `Text` (text.dfy): the Python string operations the code uses. These are
  `strip`, `lower`, `startswith`, `in`, `join`, `replace`, `s[:-k]`, `str(n)`, and
  the order `sorted` puts names in.
- `ChatHandler`, `PromptWorker`, `PromptHandler`, `ChatDisplay`, `App`, `Settings`
  and `UI`: one module per source file of the same name.
- `ChatLegacy`: the older single-window `Chat.py`.

Signals, file effects and requests to the model become event values. The methods
return these events in order as a trace. Objects whose fields the source updates
are classes. These are the prompt handler's `prompting` flag, the display's text,
the chat list, and the settings window's dictionary and form.

## Model

| member | source | states |
|---|---|---|
| Transcript.SplitAllPartition | src/ChatHandler.py:83-85 | The pieces of `re.split` join back to the input. The first piece holds no marker. The rest alternate marker and marker-free content, in pairs. |
| Transcript.SplitTextPartition | src/ChatHandler.py:83-85 | `splitText`: the dropped lead plus the joined pieces is the input. The list has even length, with a case-insensitive marker at every even index and marker-free text at every odd one. |
| Transcript.SplitTextEmpty | src/ChatHandler.py:83-85 | `splitText` is empty exactly when no marker occurs anywhere in the text. |
| Transcript.SplitTextOfMarkerStart | src/ChatHandler.py:83-85 | A text that starts with a marker loses nothing to the split. |
| Transcript.SystemStart | src/ChatHandler.py:76 | With colon-terminated, colon-free delimiters, a text that starts with the system marker is matched first by exactly that marker. |
| Transcript.NextMatchIsFirst | src/ChatHandler.py:85 | The split's next match is leftmost: no marker matches before it. |
| Transcript.OccursAtChars | src/ChatHandler.py:85 | A literal (case-folded) occurrence is a character-by-character agreement inside the text. |
| Text.StripIsTrimmedSlice | src/ChatDisplay.py:162-163 | `str.strip()` returns the slice between leading and trailing whitespace, neither end of which is whitespace. |
| Text.StripIdempotent | src/ChatHandler.py:111-113 | Stripping twice is stripping once. |
| Text.StripOfPadded | src/ChatHandler.py:111-113 | Whitespace around a text does not survive `strip()`. |
| Text.LowerStrIsLowerCase | src/Settings.py:137-139 | A lower-cased text holds no upper-case ASCII letter. |
| Text.ReplaceAbsent | src/App.py:271-272 | `replace` of a substring that does not occur leaves the text unchanged. |
| Text.ReplaceBySelf | src/App.py:271-272 | Replacing a non-empty substring by itself changes nothing. |
| Text.ReplaceInserts | src/Chat.py:366 | Replacing an occurring substring leaves the replacement in the result. |
| Text.DecRoundTrip | src/ChatHandler.py:36-37 | `str(n)` reads back as `n`, so numbered names differ whenever their numbers do. |
| Text.StrLeTotal | src/App.py:229 | The string order used by `sorted` is total. |
| Text.MinName | src/App.py:229-235 | `sorted(models)[0]`: a listed name no greater than any other. |
| ChatHandler.AddHiddenPromptIfNeeded | src/ChatHandler.py:71-79 | Empty text gives `""`. Otherwise the result is the text itself, or the system section `system + " " + sysPrompt + "\n\n"` followed by the text. |
| ChatHandler.AddHiddenPromptWhen | src/ChatHandler.py:73-77 | The section is prepended exactly when the split is non-empty, its first marker does not start with the system delimiter, the prompt is not blank, and the prompt is enabled. |
| ChatHandler.SplitTextStartsWithFirstMarker | src/ChatHandler.py:74-76 | `split[0]` is the first marker as written in the text, and the split is empty exactly when there is none. |
| ChatHandler.AddHiddenPromptIdempotent | src/ChatHandler.py:76 | For well-formed delimiters, saving twice adds the section once. |
| ChatHandler.DisplayOnLoadDropsFirstSection | src/ChatHandler.py:109-120 | `loadChat` shows the stored text, or the text with its lead and first (marker, content) pair cut off. Without an enabled, hidden, non-blank prompt it shows the text. |
| ChatHandler.SaveLoadRoundTrip | src/ChatHandler.py:71-120 | A chat that starts with a non-system marker, saved with a non-blank colon-free prompt, loads back with the prompt enabled and hidden as exactly that chat. |
| ChatHandler.SavedWithSection | src/ChatHandler.py:76-77 | Such a chat is saved with the system section in front. |
| ChatHandler.SanitizedNameIsClean | src/ChatHandler.py:32-33 | The saved name is never blank and holds neither `:` nor `\`. A clean name is kept and any other becomes "default name". |
| ChatHandler.Others | src/ChatHandler.py:34 | The names at every position other than `currentIndex`, and only names of the list. |
| ChatHandler.PyIndex | src/ChatHandler.py:39-50 | Python's indexing with negative positions. It fails exactly outside `-n..n-1`. |
| ChatHandler.Disambiguate | src/ChatHandler.py:34-37 | The renaming loop ends. The name is not in the guard list: the base when it is free, else the numbered candidate with the least number not in the whole list. |
| ChatHandler.CandidateBound | src/ChatHandler.py:34-37 | A taken candidate's number is bounded by the longest name, so the loop counter is bounded. |
| ChatHandler.IndexOf | src/ChatHandler.py:141 | `list.index`: the first position holding the name, or failure when it is absent. |
| ChatHandler.SaveTempEvents | src/ChatHandler.py:59-66 | `saveTemp` writes nothing without a current chat. Otherwise it writes the chat's snapshot with its hidden section. |
| ChatHandler.FileToLoad | src/ChatHandler.py:101-105 | The temporary snapshot is tried before the permanent file (skipped when `loadPerm`). The first existing one is chosen, and there is none only when neither is eligible. |
| ChatHandler.Controller.SaveChat | src/ChatHandler.py:29-56 | An index out of range only fails. Otherwise: the list changes at `currentIndex` alone, to a name unequal to every other entry; the numbered candidates before it were taken; the file is renamed or created, then written with the hidden section; the snapshot is refreshed and the names are announced. |
| ChatHandler.Controller.LoadChat | src/ChatHandler.py:90-128 | End a running generation, snapshot the chat being left unless its snapshot was just deleted, announce the name, show the first existing file through `DisplayOnLoad`, and set `prevChat` to the selected name. |
| ChatHandler.Controller.NewChat | src/ChatHandler.py:155-182 | The new name is not among the old names and stands at index 0, with the old names behind it in order. It is "new chat" or the least free "new chat i". `prevChat` becomes the new name. The display is seeded with the shown system section and the user marker. |
| ChatHandler.Controller.DeleteChat | src/ChatHandler.py:131-152 | While prompting, the call fails and changes nothing. Otherwise the chat's files are deleted and its first occurrence removed from the list. An emptied list gets a new chat, and an absent name fails after the files are gone. |
| PromptWorker.RoleAgreesWithSplit | src/PromptWorker.py:25-31 | With lower-case delimiters, the role tested in the order user, assistant, system is the alternative the split matched, so every marker gets a role. |
| PromptWorker.EntriesUpToIndex | src/PromptWorker.py:23-47 | Entry `k` of the history comes from pair `k`, so entries keep the buffer's order. |
| PromptWorker.HistoryKeepsEveryPair | src/PromptWorker.py:23-47 | Without a regeneration request there is one entry per complete pair, in order, and an unpaired last marker is skipped. |
| PromptWorker.RegenDropsLastAnswer | src/PromptWorker.py:40-42 | When the last content is empty, that pair gives no entry and the entry before it is dropped. |
| PromptWorker.MissingReportsSpec | src/PromptWorker.py:34-38 | One report `"\nimage not found - <path>"` per missing image, and none exactly when all exist. |
| PromptWorker.NoReportsWhenAllExist | src/PromptWorker.py:33-49 | No report over the whole buffer exactly when every scanned image exists. |
| PromptWorker.WithHiddenPrompt | src/PromptWorker.py:54-55 | A system entry with the hidden prompt goes first exactly when the prompt is non-empty and the first role is not named like the system delimiter minus its colon. |
| PromptWorker.WalkPairs | src/PromptWorker.py:23-47 | The pair loop builds `HistoryFor` the split, emits all missing-image reports plus `reGen` on a regeneration, and sets `missingImages` exactly when a report was made. |
| PromptWorker.ReportMissing | src/PromptWorker.py:34-38 | The inner image loop gives exactly `MissingReports`, and flags a miss exactly when some image does not exist. |
| PromptWorker.MissingImageStopsPrompt | src/PromptWorker.py:49-52 | A missing image ends the run with `prompting` cleared and `finished`, and no request to the model. |
| PromptWorker.GenerateResponse | src/PromptWorker.py:60-78 | The events are the previous model saved, `assis12`, the request, each chunk in stream order, then `usr12` with the flag cleared, or the failure; then `finished`. |
| PromptWorker.ResponseFinishesOnce | src/PromptWorker.py:65-78 | `finished` comes exactly once, at the end, whether or not the stream fails. `assis12` precedes the chunks and `usr12` follows them. |
| PromptWorker.ResponseText | src/PromptWorker.py:65-73 | The progress texts of a completed answer are `assis12`, the chunks joined, then `usr12`. |
| PromptWorker.Prompt | src/PromptWorker.py:19-58 | The whole worker run: walk, stop on missing images, fail on a hidden prompt with an empty history, otherwise prepend it when needed and generate. |
| PromptHandler.SplitHasPairIffMarker | src/PromptHandler.py:37-53 | The split has a (marker, content) pair exactly when a marker occurs in the text. |
| PromptHandler.Handler.Prompt | src/PromptHandler.py:44-59 | While prompting, only end generation is requested and the flag stays set. With no pair, the flag is cleared and nothing is emitted. Otherwise the flag is set and `startPrompt` is emitted once, carrying `sysPrompt` only when enabled, followed by `updatePrevModel`. |
| PromptHandler.Handler.EndPrompt | src/PromptHandler.py:28-29 | `prompting` becomes false. |
| PromptHandler.Handler.Chunk | src/PromptHandler.py:30-31 | A worker message is relayed once, unchanged. |
| PromptHandler.Handler.DeleteForRegen | src/PromptHandler.py:32-33 | The regeneration signal is relayed once. |
| ChatDisplay.Display.DisplayText | src/ChatDisplay.py:132-136 | Append-only: the new buffer is the old one + `text` + `end`. |
| ChatDisplay.Display.Chunk | src/ChatDisplay.py:141-151 | `assis12` appends the assistant marker and a space, after `"\n\n"` only with focus. `usr12` appends `"\n\n"`, the user marker and a space. Any other chunk is appended verbatim. A recolour is requested exactly for the sentinels. |
| ChatDisplay.Display.DeleteForRegen | src/ChatDisplay.py:154-160 | With at least 5 case-sensitive pieces, the buffer becomes `RegenKept` of them and `ok` holds. With fewer, the source raises an uncaught `IndexError` at line 158: `ok` is false and the buffer is kept. Fewer pieces do occur: a display holding only `user: ` has a final empty content, so the worker asks to regenerate, and it splits into 3 pieces. |
| ChatDisplay.RegenKeptIsPrefix | src/ChatDisplay.py:154-160 | The kept text is a prefix of the buffer. What goes is up to two characters of the last kept piece, then the last two (marker, content) pairs. |
| ChatDisplay.Display.GetText | src/ChatDisplay.py:162-163 | The buffer between whitespace-only ends, with neither end whitespace. |
| ChatDisplay.Utf16Len | src/ChatDisplay.py:95-97 | UTF-16 length is between the code-point length and twice it. |
| ChatDisplay.Utf16LenBmp | src/ChatDisplay.py:95-97 | It equals the code-point length exactly when no code point is above U+FFFF. |
| ChatDisplay.QtIndex | src/ChatDisplay.py:95-97 | `py_to_qt_index(s, i)` is at least `i` (capped at the length) and at most twice it. |
| ChatDisplay.QtIndexMonotone | src/ChatDisplay.py:95-97 | The index is monotone in `i`, strictly inside the text. |
| ChatDisplay.QtIndexStep | src/ChatDisplay.py:95-97 | Each code point adds 1 unit, or 2 above U+FFFF. |
| ChatDisplay.FindAllInOrder | src/ChatDisplay.py:104-106 | `finditer` matches are increasing, non-overlapping, inside the text, and each spans the alternative taken at its start. |
| ChatDisplay.FindAllLeavesNoGap | src/ChatDisplay.py:104-106 | No marker starts before the first match or between two matches. |
| ChatDisplay.MatchColour | src/ChatDisplay.py:109-115 | With lower-case delimiters, a user match is blue. An assistant match is green unless the assistant delimiter contains the user one. |
| ChatDisplay.MarkerSpansOrdered | src/ChatDisplay.py:109-118 | One span per match, from its start to its last character in Qt positions. Spans are ordered, disjoint and inside the text. |
| UI.Window.DisplayText | src/UI.py:134-138 | `text + end` is appended to the buffer. |
| UI.Window.Chunk | src/UI.py:142-150 | Each sentinel appends `"\n\n"`, its marker and a space. Other chunks are appended verbatim. |
| UI.Window.DeleteForRegen | src/UI.py:153-159 | The same cut as the chat display: `RegenKept` of the pieces. With fewer than 5, the source raises an uncaught `IndexError` at line 157: `ok` is false and the buffer is kept. |
| UI.RoleSpansTile | src/UI.py:110-121 | Spans run from each match's start to the next match's start, the last to the text end. All are non-empty, and together they tile the text from the first match on. |
| App.NewDelims | src/App.py:243-245 | Each delimiter is the setting's text followed by `":"`. A missing key is a `KeyError`. |
| App.SubmittedDelimsWellFormed | src/App.py:243-245 | Delimiters built from an accepted submission are lower case, at least two characters long, and neighbour-distinct. |
| App.ChangesSpec | src/App.py:263-268 | Every change renames something. There are none exactly when the delimiters agree. User comes first and system last. |
| App.CollectChanges | src/App.py:263-266 | The key loop collects exactly the (old, new) pairs of the differing keys, in key order user, assistant, system. |
| App.Rename | src/App.py:270-272 | The replacement loop applies each change, replace-all, in turn. |
| App.ApplyChangesAbsent | src/App.py:270-272 | A text in which no old marker occurs comes through the renaming unchanged. |
| App.Window.ChangeDelims | src/App.py:261-277 | With no differing key, the buffer is untouched. Otherwise the stripped text with every change applied replaces it. In both cases `delims` becomes the new delimiters. |
| App.Window.FetchSettings | src/App.py:241-259 | The first fetch assigns `delims` directly. Later fetches go through `ChangeDelims`. A missing key is shown on the display. |
| App.ChooseModelPriority | src/App.py:228-235 | The fixed model if configured and listed, else the previous model if non-empty and listed, else the least listed name. No model only for an empty list. |
| App.Window.UpdateModels | src/App.py:228-235 | The chosen model is always a member of the list. A failed choice leaves the model as it was. |
| Settings.UserMayEqualSystem | src/Settings.py:140-141 | The chained `!=` never compares user with system, so equal user and system delimiters are accepted. |
| Settings.SettingsWindow.Submit | src/Settings.py:136-165 | The delimiters are lower-cased first. On rejection the settings stay and nothing is emitted, and exactly the fields differing from the stored value show "invalid option". A missing stored delimiter is a `KeyError` (`ok` false) after the fields before it were marked. On acceptance the eight-key dictionary of the form is stored, the window hides, and `submitted` is emitted once. |
| Settings.SettingsWindow.LoadSettings | src/Settings.py:167-192 | With `checkFile`, the file's dictionary is taken, falling back to the defaults on a key-count mismatch. The form is then filled from it, with the stored model if listed else the first listed. |
| Settings.LoadedKeyCount | src/Settings.py:176-177 | After a checked load, the dictionary has the defaults' key count. One with the right count is kept. |
| Settings.OddKeyCountFallsBack | src/Settings.py:176-177 | A dictionary with a different key count gives way to the defaults. |
| Settings.SubmittedLoadsBack | src/Settings.py:151-177 | The stored dictionary has the eight default keys, so it loads back as it is. |
| Settings.ShownModel | src/Settings.py:189-192 | `selectedModel` when listed, else `models[0]`. None only for an empty list. |
| Settings.SettingsWindow.Reset | src/Settings.py:195-198 | As written: the settings become the current ones reloaded with no file. The form is refilled from them exactly when they are well typed and a model can be shown, and is otherwise kept. |
| Settings.ResetKeepsSubmitted | src/Settings.py:195-198 | As written, a reset keeps a submitted dictionary, which differs from the defaults. |
| Settings.SettingsWindow.ResetToDefaults | src/Settings.py:195-198 | As meant: the settings are the defaults, and the form shows them. |
| ChatLegacy.FoundImage | src/Chat.py:364 | The leftmost match of the quoted drive-letter path pattern, if any, is a substring starting `"X` and ending with `"`. |
| ChatLegacy.LegacyEntryImage | src/Chat.py:364-373 | An entry has an image exactly when a path is found. The image is the path without quotes, starting at its drive letter, and the content then contains "[image]". The role comes from the marker. |
| ChatLegacy.LegacyHistoryEntries | src/Chat.py:354-373 | One entry per pair, in order, behind at most one extra entry. |
| ChatLegacy.LegacyHiddenEntry | src/Chat.py:376-377 | The extra entry is a system entry with the hidden prompt. It is there exactly when the prompt is set and the first role is not named like the system delimiter minus its colon. |
| ChatLegacy.BuildHistory | src/Chat.py:355-373 | The pair loop builds exactly the entries of the complete pairs, in order. |
| ChatLegacy.LegacyAddHidden | src/Chat.py:234-242 | Empty text gives `""`. Otherwise the result is the text, or the hidden section followed by the text. |
| ChatLegacy.LegacyAddHiddenAgrees | src/Chat.py:234-242 | It agrees with the newer save for a non-blank prompt, and writes the text unchanged without a prompt. |
| ChatLegacy.LegacyAddHiddenIdempotent | src/Chat.py:239 | Saving twice adds the section once. |
| ChatLegacy.LegacySaveLoadRoundTrip | src/Chat.py:234-267 | Saved and loaded under the same hidden prompt, a chat shows exactly as it was. |
| ChatLegacy.LegacyLoadHidesOtherPrompt | src/Chat.py:259-267 | As written, a chat saved under one hidden prompt and loaded under another shows nothing. As meant, it shows as stored. |
| ChatLegacy.LegacyNameSkipsEleven | src/Chat.py:316-322 | As written, the eleventh pass tries "new chat 111", and "new chat 11" is never tried. |
| ChatLegacy.LegacyNameEarly | src/Chat.py:316-322 | The first ten passes try "new chat 1" to "new chat 10". |
| ChatLegacy.LegacyNewName | src/Chat.py:316-322 | The as-written loop ends, with a name not in the list, after every earlier pass's name was taken. |
| ChatLegacy.NumberedName | src/Chat.py:316-322 | As meant: the least free "new chat i", with i ≥ 1. |
| ChatLegacy.LegacyChat.NewChat | src/Chat.py:314-337 | As meant: the fresh name is the least free "new chat i". It is at index 0, not previously present, with the old names behind it. The display is seeded with the shown section and the user marker, and a hidden prompt is kept when enabled and hidden. |
| ChatLegacy.LegacyChat.NewChatAsWritten | src/Chat.py:314-337 | As written: the fresh name is the loop's `LegacyNameAt(passes)`, after every earlier pass's name was taken. It is never "new chat 11". The list and display change as in `NewChat`. |
| ChatLegacy.LegacyChat.PromptAsWritten | src/Chat.py:344-377 | Returns at once while prompting. Otherwise it sets the flag and builds `LegacyHistory` from the stripped display when there is a pair. Without one, the flag stays set. |
| ChatLegacy.UnpairedPromptBlocks | src/Chat.py:345-353 | As written, after a prompt without a pair every later prompt is refused, whatever the display then holds. |
| ChatLegacy.LegacyChat.Prompt | src/Chat.py:344-377 | As meant: the same history, but without a pair the flag is cleared again. |
| ChatLegacy.LegacyChat.Chunk | src/Chat.py:392-400 | Both sentinels append `"\n\n"`, the marker and a space. Other chunks are appended verbatim. |
| ChatLegacy.LegacyChat.DisplayText | src/Chat.py:475-479 | Append-only insert at the end of the display. |
| ChatLegacy.LegacyChat.Generate | src/Chat.py:27-47 | The worker's events are `ResponseTrace`. The display gains their rendering, and the flag is cleared exactly when the stream does not fail. |
| ChatLegacy.LegacyChat.Replay | src/Chat.py:392-400 | Handling events one after another appends their rendering in order. The flag ends cleared exactly when a clearing event came. |
| ChatLegacy.StreamShown | src/Chat.py:32-46 | A completed answer shows as `"\n\n"` with the assistant marker, the chunks, then `"\n\n"` with the user marker. A failed one ends in the error. |
| ChatLegacy.ClearedUnlessFailed | src/Chat.py:42-45 | The worker clears `prompting` exactly when the stream does not fail. |
| ChatLegacy.LegacyChat.LoadChat | src/Chat.py:248-289 | The temporary copy wins over the saved file. The display is cleared and shows the loaded view, or stays empty without a file. `prevChat` becomes the name. |
| ChatLegacy.LoadedView | src/Chat.py:259-267 | As meant: without the system section exactly when it matches the hidden prompt, and else the whole text. |

## Left out

- File-system effects are abstracted:
  - history files are a snapshot map from paths to contents, and effects are trace events;
  - the temp-directory purge (`clearTemp`) and rewriting saved files when delimiters change are not modelled;
  - writing and existence checks of `settings.json` are inputs: the loaded dictionary is an `Option`.
- The model's network stream is a given sequence of chunk strings plus a flag for a failure after them. Model listing and `ollama list` are inputs (`models`).
- `PromptWorker`'s image regex is an uninterpreted scan function, and file existence is a set. `Chat.py`'s image regex is modelled concretely.
- Threads, queued connections, `time.sleep`, timers, window flags, focus, cursors, char formats, event filters (Shift-Enter), move/resize, markdown rendering, `setRawVisibility` and `closeEvent` are left out. Focus in `ChatDisplay.chunk` is a parameter.
- Recolouring is modelled as the list of spans and colours, not the cursor effects. `lower()` folds ASCII only, so Unicode case mapping and its index effects are not modelled.
- The case-insensitive marker match (`re.IGNORECASE` in `splitText`, PromptHandler.py:39, Chat.py:230 and the recolouring `finditer`) folds ASCII letters only. Python also matches some non-ASCII letters against ASCII ones in the pattern (`ſ` against `s`, the Kelvin sign against `k`, `ı` and `İ` against `i`), so a text like `ſystem:` holds a marker for the source but not for the model.
- `worker.startPrompt`/`worker.endGeneration` are not defined in PromptWorker.py; they appear only as emitted events.
- App.Window.FetchSettings: `settings.fetchSysPromptSettings` (App.py:252) is not defined in Settings.py. The model ends after the delimiters are set: that call and everything after it in `fetchSettings` (App.py:251-256, the prompt settings and the redisplay of a changed text) are not modelled.
- `saveSettingsFile` (PromptWorker.py:63, Chat.py:30) is not defined in Settings.py; it is taken to succeed.
- App.UpdateModels: `prevModel` is absent from the default dictionary. Its lookup then raises, and the model makes that a failed choice.
- ChatLegacy.LegacyChat.NewChat: uses the numbering as meant (`NumberedName`). The loop as written is `ChatLegacy.LegacyChat.NewChatAsWritten`; with "new chat 1" to "new chat 10" taken, it gives "new chat 111" where `NewChat` gives "new chat 11".
- Settings.SettingsWindow.LoadSettings: a partially filled form after a `KeyError` or mistyped value is not modelled. A failure leaves the form as it was.
- PromptHandler.py:61 calls `emit` with two arguments on a one-argument signal. That error path is not modelled.
- In Chat.py, `saveChat`, `saveTemp`, `deleteChat` and `fetchSettings` are left out; the newer ChatHandler.py/App.py versions are modelled. The unused `generateResponse` (Chat.py:402-421) and the `saveTemp` call at the top of `loadChat` are also not modelled.
- ChatLegacy.LegacyChat.LoadChat: takes the temporary and permanent file contents as options, not a path store, and models the corrected view.
- Delimiters are literal tokens ending in `:`. Regex metacharacters in them are not interpreted.

## Findings

| source | as written | input that shows it | evidently intended | confidence | as-written member | corrected member |
|---|---|---|---|---|---|---|
| src/Settings.py:195-198 | `reset` deletes the file and reloads with `checkFile`. That finds no file and keeps the dictionary already held, so the form keeps showing the current settings. | settings submitted with user delimiter "me", then "Reset to defaults" | settings and form go back to the defaults | medium, not executed | Settings.ResetKeepsSubmitted | Settings.SettingsWindow.ResetToDefaults |
| src/Chat.py:316-322 | each pass drops one character and appends the pass number | names "new chat 1" … "new chat 10" taken: the next try is "new chat 111", and "new chat 11" is never tried | "new chat 11" follows "new chat 10" | high, not executed | ChatLegacy.LegacyNameSkipsEleven | ChatLegacy.NumberedName |
| src/Chat.py:345-353 | `prompting` is set before the fewer-than-2-pieces return and never cleared | a prompt on a display without any marker; every later prompt is then ignored | the flag is cleared again, as PromptHandler.py:51-53 does | high, not executed | ChatLegacy.UnpairedPromptBlocks | ChatLegacy.LegacyChat.Prompt |
| src/Chat.py:259-267 | when the first marker is system and a hidden prompt is set but the section differs, the inner `if` has no `else` | chat saved with hidden prompt "a", loaded after the prompt changed to "b": the cleared display stays empty | the whole text is shown, as ChatHandler.py:115-116 does | high, not executed | ChatLegacy.LegacyLoadHidesOtherPrompt | ChatLegacy.LoadedView |
