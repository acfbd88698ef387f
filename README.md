# Serial terminal core, modelled in Dafny

This project models the data path of a browser serial terminal. That path
covers:

- the serial transport;
- the terminal's session logic;
- the ANSI parser;
- the export formats of the output panel;
- the global keyboard-shortcut matcher;
- the cookie helpers that keep the user's preferences.

The browser, the DOM, timers and promises are abstracted away. Dafny checks
the properties stated here for all inputs.

| file | module | models |
|---|---|---|
| `common.dfy` | `Common` | `Option`; a `typeof`-level `JsValue`; `String.prototype.split` and `Array.prototype.join` on one separator character; ASCII case folding; concatenation of a list of strings; a string's JavaScript (UTF-16) length |
| `history.dfy` | `History` | history entries (`output` / `userInput`, value, time) and the 1000-entry cap |
| `serial.dfy` | `Serial` | the pacing tiers of `send`; the chunking loop of `_writeBytes`; the class `SerialPort` with its open flag, baud rate, chosen port object and its `disconnect` listeners, receive batcher and write queue |
| `terminal.dfy` | `Terminal` | the received-line splitter; the class `Session` (input, carry, history); the first-match keydown resolver |
| `ansi.dfy` | `Ansi` | the scanner for `ESC [ params letter`; `stripANSI`; the SGR style update; `parseANSI` as its loop and as a reference function |
| `export.dfy` | `Export` | the txt, csv, md and fallback file bodies; file name and MIME type; the download guard and format chooser (class `DownloadPanel`); the panel and history-popup filters |
| `shortcuts.dfy` | `Shortcuts` | the exact-modifier, case-insensitive match rule and the loop that fires every matching shortcut |
| `cookie.dfy` | `Cookie` | the `getCookie` parser (loop and reference function); the `setCookie` string; round trips against a browser cookie string |

**Where a source file updates state,** the model is a class with methods.
This covers `Serial`, the terminal `Session` and the download panel. Each
method states its whole new state. Ghost logs record what the code hands to
the outside world:

- the wire events (chunks and sleeps);
- the `onReceive` deliveries;
- the `onSuccess` / `onFail` notices;
- `props.send` / `props.sendRaw`.

**Where the source loops,** the model loops too: `_writeBytes`, the `parseANSI`
loop, the `md` export's `+=` loop, the shortcut `forEach` and the loops of
`getCookie`. Each loop is proved against a reference function. The
properties themselves are then proved about that function.

**Outcomes of foreign calls are parameters.** Examples are whether
`port.open` succeeds and at which chunk a write is rejected. Formatted times
are opaque strings.

**Standards.**

- The control sequences are those of ECMA-48 section 5.4. They are narrowed to
  digit/`;` parameters and an ASCII-letter final byte.
- Only SGR (ECMA-48 section 8.3.117) changes the style.
- The CSV field quoting is rule 7 of section 2 of RFC 4180.

## Model

| member | source | states |
|---|---|---|
| `Common.Utf16Length` | src/components/terminal/Terminal.jsx:95 | a string's JavaScript length counts UTF-16 code units: at least its number of characters and at most twice that |
| `Common.SingleCodeUnit` | src/components/terminal/Terminal.jsx:95 | a string has JavaScript length 1 exactly when it is one character of the Basic Multilingual Plane |
| `History.Capped` | src/components/terminal/Terminal.jsx:51-57 | the capped history is the newest `min(1000, n)` entries, in their original order |
| `History.AppendCapped` | src/components/terminal/Terminal.jsx:51-57 | appending to a history within the cap drops nothing while the total fits; otherwise the length is exactly 1000, and every appended entry that fits is kept, at the end |
| `Serial.ChoosePacing` | src/modules/Serial.js:223-237 | the successive overriding `if`s pick the tier of the table: up to 256 bytes one chunk of the whole payload and no delay; up to 1024 bytes 64/2 ms; up to 2048 bytes 32/5 ms; above that 16/8 ms |
| `Serial.SafeChunkSize` | src/modules/Serial.js:49 | the chunk size actually used is always positive (non-finite or non-positive values fall back to 64) |
| `Serial.PacedChunks` | src/modules/Serial.js:54-56 | the chunks written concatenate to the payload; there are `ceil(N / size)` of them; none is empty or longer than `size`; all but the last have exactly `size` bytes |
| `Serial.PacedSleeps` | src/modules/Serial.js:57-59 | with a positive delay there are `ceil(N / size) - 1` sleeps, otherwise none; every sleep lies strictly between two chunks and lasts the delay |
| `Serial.SendShape` | src/modules/Serial.js:223-239 | what `send` writes: nothing for an empty payload; one undelayed chunk up to 256 bytes; above 256 bytes, `ceil(N / size)` chunks of the tier's size with one sleep fewer; the chunks always concatenate to the payload |
| `Serial.WriteBytes` | src/modules/Serial.js:48-64 | the loop writes exactly the reference chunk/sleep sequence; a write rejected at chunk `k` stops it just before the `k`-th chunk, and this happens exactly when the payload has more than `k` chunks |
| `Serial.SerialPort.constructor` | src/modules/Serial.js:13-33 | a new transport is closed, has no port, stream, `disconnect` listener, buffered data, timer or queued write, and uses the default baud rate 115200 |
| `Serial.SerialPort.SetBaudRate` | src/modules/Serial.js:299-302 | only the stored baud rate changes |
| `Serial.SerialPort.OpenPort` | src/modules/Serial.js:99-130 | with no port: "No port selected" and no change; a failed open: `onFail` and "Failed to open port: …" with `open`, the output stream, the open log and the listeners unchanged; success: `onSuccess`, open at the stored baud rate, one more `disconnect` listener on the chosen port object, result `''`; the result is `''` exactly on success; the batcher invariant is kept |
| `Serial.SerialPort.RequestPort` | src/modules/Serial.js:78-93 | closes first; a failed selection returns its message and leaves the previous port, the open log, the output stream, the listeners and the notices as they were, with the port closed; otherwise the chosen port object becomes the port and the result is that of `openPort` |
| `Serial.SerialPort.Disconnected` | src/modules/Serial.js:116-119 | a disconnect of a port object calls `onFail` once for each listener that earlier successful opens put on it, keeps the port's invariant, and does nothing else |
| `Serial.ReselectThenDisconnect` | src/modules/Serial.js:78-130 | choosing and opening the same port object twice, then a disconnect of it, gives two `onSuccess` and then two `onFail` calls |
| `Serial.SerialPort.Close` | src/modules/Serial.js:262-292 | afterwards the port is not open, and nothing else changes; a second call changes nothing |
| `Serial.SerialPort.BufferReceive` | src/modules/Serial.js:137-154 | the data is appended to the buffer and a timer is pending; the deliveries followed by the buffer still spell out every fragment received, with no empty delivery |
| `Serial.SerialPort.ReadValue` | src/modules/Serial.js:166-176 | a non-empty read value is buffered; an empty one changes nothing |
| `Serial.SerialPort.TimerFired` | src/modules/Serial.js:147-153 | a non-empty buffer is delivered once, as one `onReceive`; the buffer ends empty with no timer pending; the batcher invariant is kept |
| `Serial.SerialPort.Flush` | src/modules/Serial.js:181-189 | the buffered text, if any, is handed over in one delivery; the buffer ends empty and no timer stays pending; the batcher invariant is kept |
| `Serial.SerialPort.ReadFinished` | src/modules/Serial.js:177-202 | a read error notifies `onFail`; the remaining buffer is flushed as one delivery if non-empty; no timer stays pending; the port ends closed |
| `Serial.SerialPort.Send` | src/modules/Serial.js:209-240 | unless open with an output stream nothing is queued; otherwise exactly one job is appended behind the earlier ones, with the payload's pacing tier |
| `Serial.SerialPort.SendByte` | src/modules/Serial.js:246-257 | unless open with an output stream nothing is queued; otherwise one job is queued: the one byte, chunk size 1, no delay |
| `Serial.SerialPort.RunNextWrite` | src/modules/Serial.js:39-46 | the oldest job runs and leaves the queue; a success appends its full reference sequence to the wire; a failure is counted and leaves on the wire the prefix of the reference that ends just before chunk `failAt` (exactly `failAt` chunks written); the queue moves on either way |
| `Serial.SendThenSendByte` | src/modules/Serial.js:39-46 | two queued writes reach the wire one after the other, in call order |
| `Terminal.CompleteLines` | src/components/terminal/Terminal.jsx:32-48 | lines are emitted exactly when `carry + incoming` holds a newline; then the emitted lines joined with `'\n'`, a newline and the new carry give back `carry + incoming`; otherwise everything is carried; neither the lines nor the carry hold a newline |
| `Terminal.SplitterLosesNothing` | src/components/terminal/Terminal.jsx:32-58 | each emitted line followed by a newline, then the new carry, spell out the old carry followed by what arrived |
| `Terminal.OutputEntries` | src/components/terminal/Terminal.jsx:41-47 | one `output` entry per emitted line, in order, with the line as value and the delivery's time |
| `Terminal.FindKeybindMatch` | src/components/terminal/Terminal.jsx:85-87 | the earliest binding with a non-empty key equal ignoring case and the exact shift flag; `None` exactly when no binding matches |
| `Terminal.ResolveKey` | src/components/terminal/Terminal.jsx:89-145 | no Ctrl/Meta, or a key whose JavaScript length (UTF-16 code units) is not 1, is unhandled; a raw code comes only from an enabled Ctrl+C/Ctrl+D without Shift (3 or 4) or from a matching alias; a recorded command text comes from a matching keybind and only when no alias claims the key; a sent alias text or a consumed key comes from a matching alias; with no built-in, alias or keybind match the key is unhandled and left to the browser |
| `Terminal.AstralKeyUnhandled` | src/components/terminal/Terminal.jsx:95-97 | a single character outside the Basic Multilingual Plane has length 2 in JavaScript, so the key is unhandled whatever is bound to it |
| `Terminal.BuiltinsWin` | src/components/terminal/Terminal.jsx:100-112 | with Ctrl+C (Ctrl+D) enabled, c/C (d/D) without Shift sends byte 3 (4), whatever aliases or keybinds say |
| `Terminal.AliasDecides` | src/components/terminal/Terminal.jsx:101-125 | unless a built-in takes the key, the earliest alias bound with `shift === false` decides (raw code, text, or consumed with nothing sent), also with Shift held on a built-in key; away from the built-in keys the event's Shift state makes no difference |
| `Terminal.KeybindDecides` | src/components/terminal/Terminal.jsx:127-144 | with no alias claiming the key, the earliest keybind matching key and exact Shift sends and records its text, or leaves the key unhandled when the text is not a string |
| `Terminal.Session.constructor` | src/components/terminal/Terminal.jsx:14-20 | empty input, carry and history, nothing sent |
| `Terminal.Session.SetInput` | src/components/terminal/Terminal.jsx:14 | the input field takes the value |
| `Terminal.Session.Receive` | src/components/terminal/Terminal.jsx:30-61 | the carry becomes the splitter's new carry and the history gains the completed lines, capped; the cap and the newline-free carry are kept |
| `Terminal.Session.HandleSend` | src/components/terminal/Terminal.jsx:63-82 | the input, even empty, is sent once and recorded as one `userInput` entry under the cap, and the field is cleared |
| `Terminal.Session.ClearHistory` | src/components/terminal/Terminal.jsx:23-28 | both the history and the carried partial line are emptied |
| `Terminal.Session.HandleKeyDown` | src/components/terminal/Terminal.jsx:89-145 | `preventDefault` is called exactly when the resolver handles the key; the send log and the history change exactly as the resolved action says |
| `Ansi.MatchLenMeaning` | src/utils/ansiParser.js:53 | a match of the given length at `i` is exactly `ESC [`, parameter characters, then a letter |
| `Ansi.NextMatchLeftmost` | src/utils/ansiParser.js:58 | the search returns the leftmost sequence at or after its start; when it finds none there is none |
| `Ansi.Scan` | src/utils/ansiParser.js:58-101 | the matches come in order, without overlap, each at least three characters long and inside the text |
| `Ansi.ScanMatches` | src/utils/ansiParser.js:53-58 | every hit of the scan is a whole match of the regular expression |
| `Ansi.ScanMissesNothing` | src/utils/ansiParser.js:58-101 | no sequence starts before the first hit, or anywhere when there is no hit |
| `Ansi.Strip` | src/utils/ansiParser.js:118-120 | stripping never lengthens the text |
| `Ansi.StripWithoutEsc` | src/utils/ansiParser.js:118-120 | text without ESC has no sequence and is returned unchanged |
| `Ansi.StripNotIdempotent` | src/utils/ansiParser.js:118-120 | on `ESC ESC[31m [31m` one pass leaves `ESC[31m` and a second pass leaves nothing, so stripping is not idempotent |
| `Ansi.Codes` | src/utils/ansiParser.js:67 | an SGR sequence always yields at least one code (no parameters mean `[0]`) |
| `Ansi.SgrRanges` | src/utils/ansiParser.js:7-43 | 30–37 and 90–97 set only the foreground colour from the table; 40–47 and 100–107 only the background; codes outside the known set change nothing |
| `Ansi.ApplyCommand` | src/utils/ansiParser.js:70-99 | a final letter other than `m` leaves the style unchanged |
| `Ansi.ApplySgr` | src/utils/ansiParser.js:72-92 | the `forEach` applies the codes left to right |
| `Ansi.ResetForgets` | src/utils/ansiParser.js:73-74 | a 0 anywhere in the list forgets everything set before it |
| `Ansi.TrailingEmptyFieldResets` | src/utils/ansiParser.js:67-76 | an empty field counts as 0: `ESC[1;m` ends with no style |
| `Ansi.ApplyCodesWellFormed` | src/utils/ansiParser.js:72-92 | the style only ever holds bold, italic, underline and colours taken from the two tables |
| `Ansi.RenderText` | src/utils/ansiParser.js:58-110 | the segment texts concatenate to the text with the sequences cut out; none is empty; there is at most one more segment than sequences |
| `Ansi.RenderWellFormed` | src/utils/ansiParser.js:55-110 | every segment's style is well formed |
| `Ansi.ParseAgreesWithStrip` | src/utils/ansiParser.js:49-120 | when stripping leaves text, the segment texts concatenate to exactly `stripANSI` of the input, with non-empty segments, at most one more than sequences; when it leaves nothing, the result is one unstyled segment holding the unstripped input |
| `Ansi.StyleAfterMatch` | src/utils/ansiParser.js:67-99 | one sequence updates the running style as its command and parameters say |
| `Ansi.PushAndApply` | src/utils/ansiParser.js:59-101 | pushing the text before a match and applying the match keeps "pushed segments + segments still to come" unchanged |
| `Ansi.HandleMatch` | src/utils/ansiParser.js:58-102 | one loop round moves `lastIndex` strictly forward, within the text, and keeps that sum unchanged |
| `Ansi.ParseAnsi` | src/utils/ansiParser.js:49-113 | the loop returns exactly the reference segmentation, including the single unstyled segment for empty text or text with no segment |
| `Ansi.ColoredScan` | src/utils/ansiParser.js:53-58 | in `ESC[31m` + hello + `ESC[0m` + world (no ESC in either part) the scan finds exactly the two sequences |
| `Ansi.ColoredStrip` | src/utils/ansiParser.js:118-120 | stripping that text gives hello + world, e.g. "Hello World" |
| `Ansi.RedCode` | src/utils/ansiParser.js:67-88 | `ESC[31m` sets the foreground to `#ff0000` and nothing else |
| `Ansi.ResetCode` | src/utils/ansiParser.js:67-74 | `ESC[0m` resets any style |
| `Ansi.ColoredParse` | src/utils/ansiParser.js:49-113 | for non-empty parts, the text parses to hello in red, then world unstyled |
| `Export.TxtReadBack` | src/components/terminal/TerminalOutput.jsx:53-61 | read back line by line, the txt export has one line per entry, in order, each the entry's time and a space when times are shown, the direction marker, and the value as stored |
| `Export.EscapeQuotes` | src/components/terminal/TerminalOutput.jsx:66 | doubling quotes never shortens the value |
| `Export.CsvFieldReadBack` | src/components/terminal/TerminalOutput.jsx:66 | a CSV reader unquoting the field gets back the value exactly, quotes included, and stops right after it |
| `Export.CsvReadBack` | src/components/terminal/TerminalOutput.jsx:63-71 | the csv export is the header, then one row per entry; each row starts with ISO time and type, and its third field reads back as the stored value |
| `Export.MdLogAppend` | src/components/terminal/TerminalOutput.jsx:87-94 | the log of two stretches of history is the log of the first, then of the second |
| `Export.MdContent` | src/components/terminal/TerminalOutput.jsx:83-97 | the loop builds the fixed header with the generation time, then every entry's block in order |
| `Export.MdValueFenced` | src/components/terminal/TerminalOutput.jsx:83-97 | every entry's value appears in the md export exactly as stored, after a heading that ends in an opening fence line and before a line break and the closing fence |
| `Export.MdLogAround` | src/components/terminal/TerminalOutput.jsx:87-94 | the log is the blocks before an entry, that entry's block, then the blocks after it |
| `Export.PlainReadBack` | src/components/terminal/TerminalOutput.jsx:99-101 | the fallback export splits back into the values as stored |
| `Export.DashColons` | src/components/terminal/TerminalOutput.jsx:49 | the result has the same length and no colon; each colon became a dash and every other character is kept; a string without colons is unchanged |
| `Export.FileStemNoColon` | src/components/terminal/TerminalOutput.jsx:49 | the file name has no colon and keeps the first 19 characters of the ISO time |
| `Export.JsonRecords` | src/components/terminal/TerminalOutput.jsx:73-81 | one record per entry |
| `Export.PerformDownloadKinds` | src/components/terminal/TerminalOutput.jsx:47-113 | txt, csv, json and md each name the file after the format; any other format writes the plain values to a `.txt` file as `text/plain`; only json is structured |
| `Export.DownloadAction` | src/components/terminal/TerminalOutput.jsx:34-45 | nothing happens exactly on an empty history; the chooser opens exactly when the format is unset, empty or `ask`; otherwise the configured format is used |
| `Export.DownloadPanel.constructor` | src/components/terminal/TerminalOutput.jsx:31-32 | the chooser starts closed with `txt` selected |
| `Export.DownloadPanel.HandleDownload` | src/components/terminal/TerminalOutput.jsx:34-45 | asking opens the chooser preset to `txt` and downloads nothing; otherwise the panel is unchanged, and a download happens in the configured format exactly when the history is non-empty |
| `Export.DownloadPanel.SelectFormat` | src/components/terminal/TerminalOutput.jsx:220-223 | only the selection changes |
| `Export.DownloadPanel.CancelFormat` | src/components/terminal/TerminalOutput.jsx:208-231 | the chooser closes, the selection stays |
| `Export.DownloadPanel.HandleFormatConfirm` | src/components/terminal/TerminalOutput.jsx:115-118 | the file in the selected format, then the chooser closes |
| `Export.Displayed` | src/components/terminal/TerminalOutput.jsx:150 | the panel never shows more entries than the history holds |
| `Export.DisplayedMembers` | src/components/terminal/TerminalOutput.jsx:150 | an entry is shown exactly when it is in the history and is output, or echo is on |
| `Export.DisplayedEcho` | src/components/terminal/TerminalOutput.jsx:150 | with echo on, the whole history is shown, in order |
| `Export.DisplayedAppend` | src/components/terminal/TerminalOutput.jsx:150 | the panel's filter keeps the order: filtering a concatenation concatenates the filtered parts |
| `Export.UserInputsMembers` | src/components/terminal/TerminalOutput.jsx:191 | the popup lists an entry exactly when it is in the history and was sent by the user |
| `Export.UserInputsAppend` | src/components/terminal/TerminalOutput.jsx:191 | the popup's filter keeps the order |
| `Export.FiltersPartition` | src/components/terminal/TerminalOutput.jsx:150-191 | without echo, the panel and the popup split the history between them |
| `Shortcuts.MatchesExactly` | src/hooks/useKeyboardShortcuts.js:25-30 | a shortcut matches exactly when the keys agree ignoring case and each of Ctrl, Shift and Alt is held precisely when asked for |
| `Shortcuts.MetaIgnored` | src/hooks/useKeyboardShortcuts.js:25-28 | Meta plays no part in matching |
| `Shortcuts.CaseIgnored` | src/hooks/useKeyboardShortcuts.js:25 | keys differing only in ASCII case match the same shortcuts |
| `Shortcuts.Firing` | src/hooks/useKeyboardShortcuts.js:24-34 | no more firings than shortcuts |
| `Shortcuts.FiringExactlyMatches` | src/hooks/useKeyboardShortcuts.js:24-34 | every matching shortcut fires and no other, each once, in list order (no first-match stop) |
| `Shortcuts.HandleKeyDown` | src/hooks/useKeyboardShortcuts.js:23-35 | the loop fires exactly the matching shortcuts, in order, with one `preventDefault` per firing |
| `Shortcuts.Dispatch` | src/hooks/useKeyboardShortcuts.js:17-42 | disabled or with a missing or empty list nothing happens; otherwise the listener runs; `preventDefault` is called exactly when something fires |
| `Cookie.TrimLeft` | src/modules/cookie.js:19-21 | the trimmed piece is a suffix of the piece and does not start with a space |
| `Cookie.TrimLeftSpaces` | src/modules/cookie.js:19-21 | only spaces are removed |
| `Cookie.LookupFirst` | src/modules/cookie.js:17-25 | the first piece starting with `name=` once trimmed decides; the result is what follows `name=` in it, verbatim, trailing spaces included |
| `Cookie.LookupAbsent` | src/modules/cookie.js:17-26 | with no such piece the result is `''` |
| `Cookie.GetCookieValue` | src/modules/cookie.js:13-27 | the value found never holds `;` |
| `Cookie.GetCookie` | src/modules/cookie.js:13-27 | the split, the space-stripping `while` and the prefix test return exactly the reference lookup |
| `Cookie.SetCookie` | src/modules/cookie.js:4-10 | the cookie line is `name=value;expires=<one year ahead>;path=/;SameSite=Strict;`, with the value not encoded |
| `Cookie.SetThenGet` | src/modules/cookie.js:4-27 | looking a name up in the line `setCookie` writes gives the value back, when neither name nor value holds `;` and the name does not start with a space |
| `Cookie.NameMatch` | src/modules/cookie.js:14-22 | with no `=` in either name, `k=v` starts with `name=` exactly when `k` is `name` |
| `Cookie.JarLookupAbsent` | src/modules/cookie.js:13-27 | in a browser cookie string of any number of pairs, none included, a name no pair has gives `''`, even when another name contains or extends it |
| `Cookie.EmptyJarLookup` | src/modules/cookie.js:13-27 | the empty cookie string (nothing stored) gives `''` for every name |
| `Cookie.JarLookupFirst` | src/modules/cookie.js:13-27 | in a browser cookie string, a name gives the value of its first pair |

## Left out

- Web Serial, stream and encoding calls are not modelled. These are `navigator.serial.requestPort`, `port.open`/`close`, `TextDecoderStream`/`pipeTo`, reader cancellation and `TextEncoder`. Their outcomes are method parameters, and `send` takes the already encoded bytes.
- Timers and promises are replaced by events and a queue. The 50 ms debounce timer is the explicit `TimerFired` event. The `_writeChain` promise chain is a first-in, first-out queue run by `RunNextWrite`. Console logging is dropped.
- Serial.SafeChunkSize: fractional JavaScript numbers are not modelled. A `Number` is either a finite integer or non-finite.
- Serial.SerialPort.SendByte: the byte is the value modulo 256, as `Uint8Array` stores it. Non-integer values are not modelled.
- Serial.SerialPort.Close: the cancellation of the reader and the closing of the port are left out, because they are foreign calls. The flush of buffered data happens when the read loop ends (`ReadFinished`), as in the code, not inside `close`.
- JSON serialisation is not modelled. `JSON.stringify` is a library serialiser, so the json export is modelled as its list of records.
- Blob, object URL and anchor mechanics are not modelled.
- Date formatting is not modelled. Each entry's time is its two formatted strings, and the current time enters as parameters. The `md` header's `Generated:` time and the file-name time are separate parameters, because the code calls `new Date()` twice.
- Cookie: `decodeURIComponent` and `document.cookie` are not modelled. `getCookie` takes the decoded cookie string. How the browser merges a written cookie line into its jar is not modelled. `Jar` states what the jar reads as.
- Cookie.SetCookie: `toUTCString` is a parameter.
- Case folding is ASCII only: non-ASCII `toLowerCase`/`toUpperCase` mappings are not modelled.
- Ansi.DecimalValue: fields hold only digits here, so `Number` of a field is its decimal value. `Number("")` is 0.
- Ansi.ParseAnsi and Ansi.Strip: the non-string input of `parseANSI` and `stripANSI` (`String(text)`) is not modelled; their argument is a string.
- Shortcuts.HandleKeyDown: a shortcut without a `key` string and a callback that throws are not modelled. In the code either one raises an exception inside the `forEach`, and the shortcuts after it are then not checked. The model takes every shortcut's key as a string and every callback as returning normally.
- React rendering, dialog open/close for the history popup, and effect install/remove of the keydown listener are left out. Only their decisions are modelled.
- Cookie.JarLookupFirst and Cookie.JarLookupAbsent: both require well-formed browser pairs: no `;` in names or values, no `=` and no leading space in names. Any number of pairs is allowed, the empty cookie string included. `getCookie` itself takes any string.
- Serial.SerialPort.ReadFinished: failure notices and deliveries are kept in two separate logs, so the order in which `onFail` runs before the final `onReceive` is not recorded.
