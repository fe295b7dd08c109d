# Qute text editor: line endings, loading and saving

Qute is a single-screen Android text editor (`QuteEditor`, one `Activity`).
Almost all of it is UI wiring. This project models the part of it that has
logic of its own:

- the **save-side line-ending transform** in `save()`: the preference
  `prefsEOL` picks mode 0 (`\n` kept), 1 (every `\n` written as `\r`) or
  2 (every `\n` written as `\r\n`). The `switch` has no `default`, so any
  other value writes the text unchanged;
- the **load-side line reassembly** in `load()`, which `showLicense()`
  repeats for the license text. `BufferedReader.readLine` splits the file at
  `\n`, `\r` or `\r\n`, and the text is rebuilt with `content += line + "\n"`.
  A missing file gives `""`. An `IOException` part-way keeps what was built;
- the **URI guard** `uriIsSane()`, which decides whether `save()` writes
  anything and whether `showOpenOrLoad()` loads or shows the open dialog.

Module layout:

| file | module | contents |
|---|---|---|
| `wrappers.dfy` | `Wrappers` | `Option`, used for Java's `null` |
| `line_endings.dfy` | `LineEndings` | EOL modes, `Transform`, and its inverses for modes 1 and 2 |
| `line_reader.dfy` | `LineReader` | `readLine` (`NextLine`), the lines of a file, the `content += line + "\n"` loop (`ReadAll`) and read faults |
| `round_trip.dfy` | `RoundTrip` | save-then-load lemmas, and how a `\r` already in the text is changed |
| `uris.dfy` | `Uris` | `uriIsSane()` as written and with `null` parts counted as not sane |
| `editor.dfy` | `QuteEditor` | classes `Disk` (the files) and `Editor` (`mUri`, the `mText` contents, `mShowingLicense`) with `Load`, `Save`, `ShowOpenOrLoad`, `ShowLicense` |

The file system is a `Disk` object whose `files` map holds the contents of each
existing path. The EOL mode is an `int` parameter. I/O failures are
parameters: a `ReadFault` (`NoFault`, `OpenFails`, or `FailsAfter(k)`, where
the `readLine` call after `k` normal calls throws), and, for saving, whether
`createNewFile` succeeds and whether the write succeeds.

Behaviour of the code worth knowing:

- Loading appends `\n` after the last line too, so `"a\nb"` saved with
  `\r\n` loads back as `"a\nb\n"` (`RoundTrip.CrLfTwoLines`). The round
  trip returns the text unchanged only when it is empty or already ends in
  `\n` (`RoundTrip.SaveThenLoad`).
- A read error is not passed on to the caller: the text built before the
  exception goes into the editor (`LineReader.Accumulated`).
- Saving with an insane URI, or with a failing write, only shows a message;
  no error is returned and the editor text is not touched. A failing
  `createNewFile` is swallowed without a message, and the write is still
  attempted.
- A URI whose scheme or path is `null` makes `uriIsSane()` throw a
  `NullPointerException` (see Findings); `Save` and `ShowOpenOrLoad` report
  that outcome.

## Model

| member | source | states |
|---|---|---|
| `LineEndings.Transform` | src/net/inkcode/qute/QuteEditor.java:404-419 | mode 0 and every value other than 1 and 2 leave the text unchanged; mode 1 keeps the length, puts `\r` exactly where the text had `\n`, keeps every other character, and leaves no `\n`; mode 2 makes the text longer by exactly the number of `\n` characters |
| `LineEndings.ReplaceLf` | src/net/inkcode/qute/QuteEditor.java:413 | `replaceAll("\n", rep)` leaves a text without `\n` unchanged |
| `LineEndings.ReplaceLfAppend` | src/net/inkcode/qute/QuteEditor.java:417 | replacing newlines distributes over concatenation |
| `LineEndings.ReplaceLfByChar` | src/net/inkcode/qute/QuteEditor.java:413 | with a one-character replacement, the length is kept and only the `\n` positions change |
| `LineEndings.ReplaceLfByPair` | src/net/inkcode/qute/QuteEditor.java:417 | with a two-character replacement, the text grows by one character per `\n` |
| `LineEndings.CrModeIsReversible` | src/net/inkcode/qute/QuteEditor.java:411-413 | on text without `\r`, mode 1 is undone by reading every `\r` as `\n` |
| `LineEndings.CrLfAsLfUndoesReplace` | src/net/inkcode/qute/QuteEditor.java:417 | reading `\r\n` back as `\n` undoes `replaceAll("\n", "\r\n")` on every text |
| `LineEndings.CrLfModeIsReversible` | src/net/inkcode/qute/QuteEditor.java:415-417 | mode 2 changes nothing but the newlines: reading `\r\n` back as `\n` recovers every text, including one that already holds `\r` |
| `LineReader.LineEnd` | src/net/inkcode/qute/QuteEditor.java:387 | the index where `readLine` stops is the first `\n` or `\r`, or the end of the input |
| `LineReader.NextLine` | src/net/inkcode/qute/QuteEditor.java:387 | `readLine` returns `null` exactly at end of stream; otherwise it returns a line without terminators, skips one `\n`, `\r` or `\r\n` (never `\r` alone before a `\n`), reads a line without terminator only at the end, and the line, terminator and rest make up the input |
| `LineReader.ReadLineIsUnique` | src/net/inkcode/qute/QuteEditor.java:387 | converse of `NextLine`: any split meeting those conditions is the one `readLine` makes |
| `LineReader.LineEndAfter` | src/net/inkcode/qute/QuteEditor.java:387 | a terminator-free line followed by a terminator ends where the line ends |
| `LineReader.Lines` | src/net/inkcode/qute/QuteEditor.java:387 | no line returned by `readLine` contains `\n` or `\r`; there are no lines exactly when the file is empty |
| `LineReader.LinesOfRead` | src/net/inkcode/qute/QuteEditor.java:387 | after one `readLine`, the remaining lines are those of the unread rest |
| `LineReader.Join` | src/net/inkcode/qute/QuteEditor.java:388 | `content += line + "\n"` over terminator-free lines yields text with no `\r` and with exactly one `\n` per line |
| `LineReader.JoinCons` | src/net/inkcode/qute/QuteEditor.java:388 | the first line, with its `\n`, comes first in the rebuilt text |
| `LineReader.JoinPrefix` | src/net/inkcode/qute/QuteEditor.java:388 | the text rebuilt from the first `k` lines is a prefix of the text rebuilt from all of them |
| `LineReader.Accumulated` | src/net/inkcode/qute/QuteEditor.java:379-400 | the text a load puts in the editor, whatever the fault, contains no `\r` and, when non-empty, ends in `\n` |
| `LineReader.PartialReadIsPrefix` | src/net/inkcode/qute/QuteEditor.java:382-396 | after a failed read, the editor text is the rebuilt text of the first `k` lines, and so a prefix of what a full read gives; an open failure gives `""` |
| `LineReader.ReadStep` | src/net/inkcode/qute/QuteEditor.java:387-389 | one loop turn reads the next line and appends it and a `\n` |
| `LineReader.ReadAll` | src/net/inkcode/qute/QuteEditor.java:386-389 | the read loop returns exactly `Accumulated(file, fault)`, and it reaches end of stream exactly when there is no fault or the fault comes after the `null`-returning call |
| `RoundTrip.SplitAtFirstLf` | src/net/inkcode/qute/QuteEditor.java:387 | on text without `\r`, the first line read is the text before the first `\n` |
| `RoundTrip.TransformAfterLine` | src/net/inkcode/qute/QuteEditor.java:409-418 | modes 1 and 2 write a line, then their own terminator, then the transformed rest |
| `RoundTrip.LinesOfTransform` | src/net/inkcode/qute/QuteEditor.java:409-418 | on text without `\r`, the text written in any mode is read back as the same lines as the original |
| `RoundTrip.LinesOfOneLine` | src/net/inkcode/qute/QuteEditor.java:387 | a non-empty text without terminators is read as one line |
| `RoundTrip.JoinLinesOfLfText` | src/net/inkcode/qute/QuteEditor.java:386-389 | on text without `\r`, reading and rebuilding gives the text with a `\n` added when it is non-empty and does not end in one |
| `RoundTrip.TerminatedAfterLine` | src/net/inkcode/qute/QuteEditor.java:388 | adding the final `\n` affects only the part after the first full line |
| `RoundTrip.SaveThenLoad` | src/net/inkcode/qute/QuteEditor.java:378-419 | round trip: text without `\r`, saved in any mode and loaded without fault, comes back with `\n` appended only if it is non-empty and does not end in `\n`; unchanged when it ends in `\n` |
| `RoundTrip.JoinOne` | src/net/inkcode/qute/QuteEditor.java:388 | one line is rebuilt as the line and `\n` |
| `RoundTrip.JoinTwo` | src/net/inkcode/qute/QuteEditor.java:388 | two lines are rebuilt as each line followed by `\n` |
| `RoundTrip.ReadTwoLines` | src/net/inkcode/qute/QuteEditor.java:386-389 | two lines separated by any one terminator load as the two lines each followed by `\n` |
| `RoundTrip.CrLfTwoLines` | src/net/inkcode/qute/QuteEditor.java:415-417 | `a\nb` is written in mode 2 as `a\r\nb` and loads back as `a\nb\n` |
| `RoundTrip.ReadDoubledTerminator` | src/net/inkcode/qute/QuteEditor.java:387-388 | `a\r\r\nb` loads as three lines, the middle one empty |
| `RoundTrip.CarriageReturnIsMangled` | src/net/inkcode/qute/QuteEditor.java:404-419 | a `\r` already in the text does not survive: `a\rb` in mode 0 loads back as `a\nb\n`; `a\r\nb` in mode 2 is written as `a\r\r\nb` and loads back as `a\n\nb\n` |
| `Uris.FileSchemeSpellings` | src/net/inkcode/qute/QuteEditor.java:375 | `equalsIgnoreCase("file")` accepts exactly the four-letter case variants of `file`, with `ı` or `İ` also accepted for the `i` |
| `Uris.UriIsSaneAsWritten` | src/net/inkcode/qute/QuteEditor.java:374-376 | the guard as written throws (`None`) exactly when there is a URI whose scheme is `null`, or whose scheme equals `"file"` ignoring case and whose path is `null`; it answers `true` only for a URI with a non-empty path |
| `Uris.NullPartsThrow` | src/net/inkcode/qute/QuteEditor.java:375 | a URI without a scheme, or a `file` URI without a path, makes the guard as written throw |
| `Uris.UriIsSane` | src/net/inkcode/qute/QuteEditor.java:374-376 | the guard holds exactly when the URI is non-null, its scheme equals `"file"` ignoring case and its path is non-empty; it agrees with the code wherever the code does not throw, and is false where it throws |
| `QuteEditor.Editor.constructor` | src/net/inkcode/qute/QuteEditor.java:85-101 | a new activity has the URI of its intent, an empty text and no license dialog showing |
| `QuteEditor.Editor.Load` | src/net/inkcode/qute/QuteEditor.java:378-401 | the editor text becomes the load result for the file at the URI's path, or `""` when no file is there; nothing else changes |
| `QuteEditor.Editor.Save` | src/net/inkcode/qute/QuteEditor.java:403-448 | the guard as written throws exactly when it does in the code, and then nothing is written; an insane URI leaves every file unchanged; otherwise a successful write stores the transformed text at the path and changes no other file; a failed write leaves the files as they were, apart from an empty file that `createNewFile` made |
| `QuteEditor.Editor.ShowOpenOrLoad` | src/net/inkcode/qute/QuteEditor.java:252-258 | the guard as written throws exactly when it does in the code; otherwise the open dialog is shown exactly when the guard answers `false`, and the file is loaded exactly when the URI is sane; the text is kept unless the file is loaded |
| `QuteEditor.Editor.ShowLicense` | src/net/inkcode/qute/QuteEditor.java:313-332 | if the license was not accepted, the license text read by the load loop is shown, even after a read error, and the showing-license flag is set; otherwise nothing happens |
| `QuteEditor.SaveThenReload` | src/net/inkcode/qute/QuteEditor.java:378-448 | on the editor object: save with a sane URI then load gives back the text with its last line terminated, when the text holds no `\r` |

## Left out

- Android UI: menus, dialogs, the license dialog's buttons, Toasts, the
  fullscreen flag (`mFullscreen`, `toggleFullscreen`), `onResume`, `onPause`,
  `onActivityResult`, the discard action and `finish()`. They only route
  calls to `load()`/`save()` or change widgets.
- Themes, fonts and `applyPreferences`: cosmetic calls into Android widgets.
- Preference lookup and `Integer.parseInt` of `prefsEOL`: the mode is an
  `int` parameter. A non-numeric preference, which makes `parseInt` throw,
  is not modelled.
- `defaultSaveDir`, `defaultSaveFilename` and `defaultSaveUri`: they depend on
  the storage state and the clock.
- The messages built for the user, including the one from `ending`: display
  only.
- Streams, `File.exists`, UTF-8 encoding and decoding, flush and close: a file
  is a `string` in `Disk.files`, and characters are read and written
  unchanged.
- `QuteEditor.Editor.Save`: a write that fails part-way is modelled as
  leaving the file as it was before the write. Truncation by
  `FileOutputStream` and partly written bytes are not modelled.
- `QuteEditor.Editor.Load`: requires a URI with a path. The code dereferences
  `mUri.getPath()` without a check and would throw a `NullPointerException`;
  that crash is not modelled.
- `QuteEditor.Editor.ShowOpenOrLoad` and `QuteEditor.Editor.Save`: the
  `NullPointerException` from the guard is returned as an outcome (`Crashed`,
  `crashed`); the unwinding of the caller and the activity crash that
  follow are not modelled.
- `QuteEditor.Editor.ShowLicense`: after a read error the code also calls
  `finish()`. The activity teardown is not modelled; the dialog is still
  shown, as in the code.
- `Uris.UpperCase` and `Uris.LowerCase` cover only the characters that can
  match a letter of `file` under Java's case mapping: ASCII letters, `ı`
  (U+0131) and `İ` (U+0130). The rest of Unicode case mapping is not
  modelled.

## Findings

| source | as written | input that shows it | evidently intended | confidence | as-written member | corrected member |
|---|---|---|---|---|---|---|
| src/net/inkcode/qute/QuteEditor.java:375 | `mUri.getScheme().equalsIgnoreCase("file") && !mUri.getPath().equals("")` calls methods on the scheme and the path without checking them for `null` | a relative URI such as `notes.txt`, whose scheme is `null`, or the opaque `file:notes.txt`, whose path is `null`: the guard throws a `NullPointerException` in `onPause`, `save` or `showOpenOrLoad` | a URI without a scheme or path is not sane, so the guard answers `false` | medium, not executed; it relies on `android.net.Uri` returning `null` in these cases, as its documentation states | `Uris.NullPartsThrow` | `Uris.UriIsSane` |
