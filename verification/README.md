# Line editor, streamed tool calls, template diffs and text codecs, verified

This project models the parts of the llama.cpp `common` library that are algorithms in their own right, and
proves what they are for. Each module follows one component:

- **The interactive line editor.** `Utf8`, `Screen`, `EditModel`, `LineEditor`, `History`, `ReadLine`, `ReadLines`,
  `KeyLaws`. The editor keeps a UTF-8 byte buffer, a width for every character, a character cursor, a byte cursor and
  the terminal's cursor column in step. `EditModel` is the editor a user has in mind: a sequence of characters and one
  cursor.
  Every key is proved to do on the bytes what it does there, over whole runs, history and completion included, and
  `KeyLaws` says what each does as it shows on the line: where the next character lands, what is erased, what is recalled.
- **The streamed tool-call pipeline.** `JsonText`, `JsonCounts`, `JsonReader`, `Quotes`, `QuotePieces`,
  `PythonValues`, `ToolCalls`, `MessageDiff`, `Streaming`, `CompleteCalls`, `StrayEvents`, `CallMeaning` for the
  tagged events; `Gemma4`, `GemmaMeaning`, `Gemma4Parser`, `Gemma4Reply`, `GemmaWritten`, `GemmaCuts`, `GemmaReplies`
  and `GemmaGrammar` for the tree that is parsed and rendered as JSON. A reply is parsed again and again while it
  arrives; each message has to grow out of the one before, or the diff sent to the client throws. It is proved that it
  does, where it does, that the client ends with the whole message, that this is the message the model wrote, and that
  the arguments of its calls are JSON for the values it wrote.
- **Template differencing.** `Segments` cuts text at its markers, `DiffSplit` finds what two texts share at both
  ends.
- **Text algorithms and codecs.** `Glob`, `CommonSubstring`, `SplitJoin`, `Escapes`, `Base64`, `Csv`.
- **Message and cache bookkeeping.** `MessageSpans` (where messages start in a token sequence), `CacheGc` (removing
  cached models and the blobs nothing refers to), `Shards` (models in numbered parts).

Code that changes state step by step is written as classes and methods with loops; each method is proved against a
function of the old state, and what the source promises is proved about those functions. Where the promise is that of
a notation (escapes, quotes, patterns, rows, dicts, replies), it is stated for texts as they are written; for escapes,
quotes, braces, patterns and rows every text is proved to be written so, and for dicts and calls that no other text is
taken. `Seqs` and `Wrappers` are shared helpers.

Some promises do not hold for every input. There the code is kept as it is, and the exact condition is proved:

- The line editor may be handed any bytes (completions, history). It stays in step with a line exactly when the
  line is *clean*: repeated decoding never starts at a continuation byte (`LineEditor.Editor.SetLineContents`).
  Above U+10FFFF an insertion adds a width but no byte (`LineEditor.InsertionKeepsStep`).
- The redrawn `\` or `/` at the end of a line is right on the screen exactly when it falls in its own column
  (`LineEditor.Editor.RewriteLast`, `ReadLine.Console.Press`).
- A completion keeps an old mark. The mark at the end of a run is that of the line after the last key that offered no
  completion, so a line comes back as its own last byte asks exactly when the two end alike (`ReadLine.MarkAfterRun`,
  `ReadLine.FinishedAsItEnds`). The source looks at a byte that is not there exactly when a marked line was completed to
  the empty one and no completion follows (`ReadLine.StepIsSafe`, `ReadLine.Console.Press`). Over any number of lines
  the history stays clean exactly when no old mark takes off a part of a long character (`ReadLines.HistoryOverLines`).
- Normalised values grow with their input exactly at safe cuts (`Quotes.GrowsExactlyAtSafeCuts`): not between a
  backslash and a single quote, and not inside a bare word that stops being a prefix of True, False or None. At any other
  cut the diff fails (`Streaming.ValueCutsExactly`).
- A Python value is read as JSON after the conversion exactly when no double-quoted literal escapes a single quote
  (`PythonValues.NormalizedIsRead`).
- The messages of a Gemma 4 reply grow as it arrives exactly unless a call that has been shown is rejected, because what
  follows makes its dict none or is not its end; the diff then fails (`Gemma4Reply.RepliesStream`).
- A template diff counts a used-up segment twice in one exactly described family of inputs; it then either loses a
  side or reports no difference (`DiffSplit.ConservedExactly`, `DiffSplit.NoDifferenceExactly`).
- Removing a cached model never cuts off a listed, readable link. A link of a snapshot that is not listed can be cut
  off; `CacheGc.NothingDanglesExactly` says when.
- A numbered url is among the parts generated from it exactly when its number is within the count and `of` is
  spelled in small letters (`Shards.UrlIsAmongItsParts`).

Documentation and code disagree in a few places; the model follows the code. The comment at `common/chat.cpp:301-305`
says that tool names may grow or shrink; only growing is accepted. `common/base64.hpp:185` names a function
`required_decode_size`, which is called `max_decode_size`. The comment at `common/common.cpp:767` lets classes match
characters; they also match a slash.

`dafny verify dfyconfig.toml` checks everything.

## Model

| member | source | states |
|---|---|---|
| Utf8.DecodeEncode | common/console.cpp:365-429 | Decoding inverts appending: any code point up to U+10FFFF, after any bytes and before any, is read back and its bytes are consumed exactly |
| Utf8.ChunkAt | common/console.cpp:365-409 | Decoding from a border of the line's chunks consumes the next chunk and stops on a border |
| Utf8.ChunksAfterText | common/console.cpp:365-409 | Well-formed text followed by anything that does not continue it is decoded character by character, then the rest by itself |
| Utf8.DropLastByte | common/console.cpp:1009-1010 | Taking the last byte off a clean line leaves it clean exactly when its last character has at most two bytes |
| Utf8.PrevCharPos | common/console.cpp:432-439 | Steps back to the nearest earlier byte that is not a continuation byte, or to the start |
| Utf8.NextCharPos | common/console.cpp:441-448 | Steps forward to the nearest later byte that is not a continuation byte, or to the end |
| Utf8.StepGlyph | common/console.cpp:432-448 | In text the byte steps are character steps, in both directions |
| Utf8.WalksAgree | common/console.cpp:365-448 | Decoding and skipping continuation bytes agree at a border exactly when the next chunk does not begin with a continuation byte |
| Utf8.JoinIsUtf8 | common/console.cpp:411-429 | Text made of encoded characters is the UTF-8 of its code points |
| Utf8.DecodedByTable | common/console.cpp:365-409 | Any bytes at any place: a first byte followed by all the continuation bytes it announces (section 3 of RFC 3629) is taken with them and gives their bits; otherwise one byte is taken and U+FFFD given |
| Utf8.EncodedByTable | common/console.cpp:411-429 | Every code point up to U+10FFFF is written in as few bytes as it needs, and they hold its bits by the same table; above, nothing is written |
| Screen.Terminal.PutNew | common/console.cpp:295-354 | A new character is drawn in its cells, the column moves by its width, and that width is what is measured |
| Screen.RedrawTail | common/console.cpp:464-481 | Redrawing a tail, followed by enough blanks for what stood there, makes the row show head and tail and nothing else |
| Screen.RewrittenCell | common/console.cpp:356-363 | Rewriting a cell keeps the row right exactly when the cell lies before the line or holds the same already |
| EditModel.GlyphsUpToIsFloor | common/console.cpp:512-523 | The cursor for a byte position is the last character border at or before it |
| EditModel.WordLeftUndoesWordRight | common/console.cpp:581-664 | Going back one word undoes going forward one word exactly from the start of a word, or from the start of a text of spaces |
| EditModel.InsertionIsUndone | common/console.cpp:929-996 | Backspace undoes an insertion, and so does delete one step to the left |
| LineEditor.InsertionKeepsStep | common/console.cpp:958-971 | Bytes and widths stay in step after an insertion exactly for code points up to U+10FFFF with the width of the terminal |
| LineEditor.Editor.constructor | common/console.cpp:758-764 | A new line is empty, in step and shown |
| LineEditor.Editor.DrawTail | common/console.cpp:468-475 | The characters from a place on are redrawn one after the other; the width returned is theirs |
| LineEditor.Editor.DeleteAtCursor | common/console.cpp:456-482 | Deletes the character at the cursor; all cursors stay in step, a faithful row stays faithful |
| LineEditor.Editor.Backspace | common/console.cpp:929-957 | Deletes the character before the cursor; likewise |
| LineEditor.Editor.Insert | common/console.cpp:958-996 | Inserts a character at the cursor, at the end or in the middle; likewise |
| LineEditor.Editor.InsertBeyond | common/console.cpp:958-996 | A code point above U+10FFFF adds a width and no byte: the cursors are no longer in step |
| LineEditor.Editor.Left | common/console.cpp:838-843 | One character to the left, on characters, bytes and columns |
| LineEditor.Editor.Right | common/console.cpp:847-852 | One character to the right, on characters, bytes and columns |
| LineEditor.Editor.MoveToLineStart | common/console.cpp:529-537 | All cursors go to zero |
| LineEditor.Editor.Home | common/console.cpp:853-854 | The cursor of the abstract line goes to its start |
| LineEditor.Editor.MoveToLineEnd | common/console.cpp:539-547 | All cursors go to the end of the line |
| LineEditor.Editor.MoveWordLeft | common/console.cpp:581-617 | Back over spaces and then over a word, on characters, bytes and columns |
| LineEditor.Editor.MoveWordRight | common/console.cpp:619-664 | Forward over spaces, a word and the spaces after it, on characters, bytes and columns |
| LineEditor.Editor.ClearCurrentLine | common/console.cpp:484-495 | Blanks at least the width of the line and comes back |
| LineEditor.ClearWidthExactly | common/console.cpp:484-489 | What is blanked is the width of the line and one column for every character without a width |
| LineEditor.Editor.SetLineContents | common/console.cpp:497-527 | Replaces the line by any bytes and places the cursor; all cursors are in step afterwards exactly when the bytes are clean |
| LineEditor.Editor.RewriteLast | common/console.cpp:816-819 | A faithful row stays so exactly when the byte is redrawn where the line has it, or at the prompt |
| History.HistoryBuffer.Add | common/console.cpp:703-712 | Remembers a line that is neither empty nor a repetition; ends viewing unless the line is empty |
| History.HistoryBuffer.Prev | common/console.cpp:714-725 | Steps to the entry before, stopping at the oldest |
| History.HistoryBuffer.Next | common/console.cpp:727-738 | Steps to the entry after; past the newest the unfinished line comes back and viewing ends |
| History.BrowsingReturns | common/console.cpp:714-788 | Up and then down brings the unfinished line back exactly when down is pressed as often as up counted; until then it names the entry shown |
| History.ViewingSurvivesEmptyLines | common/console.cpp:703-712 | Finishing a line ends viewing exactly when the line is not empty |
| History.CleanPast | common/console.cpp:699-751 | Adding and browsing keep every remembered line free of stray bytes |
| ReadLine.Console.HistoryPrev | common/console.cpp:770-779 | The up key recalls what the history says, with everything in step |
| ReadLine.Console.HistoryNext | common/console.cpp:780-788 | The down key, likewise |
| ReadLine.Console.TryComplete | common/console.cpp:797-809 | The first candidate, whatever its bytes, replaces the line unless it is the only one and changes nothing; everything stays in step exactly when it is clean |
| ReadLine.Console.Press | common/console.cpp:791-1001 | Every key that does not end the line is the abstract step on characters, history and mark; it is defined unless a mark is pending on an empty line; everything stays in step exactly for keys that put whole characters on the line; after any but a completion the row is right exactly when the mark falls in its place |
| ReadLine.Console.ReadKeys | common/console.cpp:766-1002 | The keys of a line are the abstract run; the row shows the line at the end if no mark was drawn amid it and nothing completed under one |
| ReadLine.Console.FinishLine | common/console.cpp:1004-1030 | The mark is taken off, the newline added, and whether more follows is decided; undefined exactly for a marked empty line |
| ReadLine.Console.ReadLine | common/console.cpp:753-1043 | Reading a line, from its first key to its last, is the abstract run; the line, whether more follows and the history are those of the run; undefined exactly where the run is; the history is clean for the next line exactly unless a part of a long character was taken off |
| KeyLaws.HomeAndEnd | common/console.cpp:853-856 | After home the next character typed stands before the whole line, after end behind it |
| KeyLaws.Arrows | common/console.cpp:838-852 | After an arrow the next character typed stands one character further left or right, but not beyond the ends |
| KeyLaws.UnknownKeys | common/console.cpp:821-895 | A sequence that is not understood moves nothing |
| KeyLaws.Words | common/console.cpp:577-664 | One word back is the nearest start of a word before the cursor, or the start of the line; one word on is the nearest start of a word behind one that the cursor was before or in, or the end |
| KeyLaws.SpaceIsItsCodePoint | common/console.cpp:577-664 | What separates words is decided by the code point of a character, whatever its bytes |
| KeyLaws.Erased | common/console.cpp:456-482 | Backspace, by either code, takes the character before the cursor and delete the one at it; the next character typed stands in its place |
| KeyLaws.NothingErased | common/console.cpp:929-957 | At the start of the line backspace takes nothing, at its end delete takes nothing |
| KeyLaws.CompletedAt | common/console.cpp:797-809 | The first candidate becomes the line, and typing goes on at the last border of a character not behind the place it names; a single candidate that is the line already moves nothing |
| KeyLaws.Typed | common/console.cpp:958-996 | Any number of characters typed at the cursor stand there in order, with the rest of the line around them |
| KeyLaws.LineEnds | common/console.cpp:791-815 | A line lasts to the first return, line feed, end of input or end-of-transmission; the last two end the input |
| KeyLaws.TypedLine | common/console.cpp:753-1030 | From the first character to the end of the line: it is handed back as typed with a newline, unless the input ended; a backslash at its end is taken off and turns the wish for more lines round; a slash is taken off and asks for none, a single space before it going too |
| KeyLaws.RememberedOnce | common/console.cpp:1032-1040 | A line is remembered without its newline and viewing ends, unless nothing is left of it or the input ended; one like the last entry is not repeated |
| KeyLaws.Browsing | common/console.cpp:770-788 | At the keyboard: up and then down, any number of times, shows the entry that many steps back with the cursor at its end, or the unfinished line again |
| KeyLaws.NothingToBrowse | common/console.cpp:770-788 | Without a history up does nothing, and down does nothing unless something is being viewed |
| ReadLine.StepStaysEncoded | common/console.cpp:791-1001 | Without malformed bytes from outside, a key leaves only encoded characters on the line and in the history |
| ReadLine.RunIsUtf8 | common/console.cpp:753-1043 | In every run of such keys the buffer is the UTF-8 of a sequence of code points |
| ReadLine.StepIsSafe | common/console.cpp:797-818 | From a state where a mark has its byte, a key leads to one where it has none exactly when a marked line is completed to the empty one |
| ReadLine.SafeRun | common/console.cpp:766-1010 | Where nothing empty is offered no run looks at a byte that is not there |
| ReadLine.EmptiedLineIsUndefined | common/console.cpp:797-818 | A concrete run that does |
| ReadLine.MarkAfterStep | common/console.cpp:797-820 | After a key the mark agrees with the line exactly when nothing was offered, or what was offered ends as the old mark says |
| ReadLine.MarkAfterRun | common/console.cpp:766-1002 | At the end of every run the mark is that of the line after the last key that offered no completion |
| ReadLine.FreshWithoutCompletion | common/console.cpp:766-1002 | Without completions that line is the final one |
| ReadLine.WrongMarkShows | common/console.cpp:1004-1030 | A line finished under a mark is as if finished under the right one exactly when the mark is right |
| ReadLine.FinishedAsItEnds | common/console.cpp:766-1030 | Over every defined run, the line comes back as its own last byte asks exactly when the line after the last key without a completion ends alike |
| ReadLine.StaleMarkCutsTheLine | common/console.cpp:797-809 | A concrete run in which a completion makes the finished line lose its last byte |
| ReadLine.FinishedLine | common/console.cpp:1004-1030 | What was typed comes back whole, with a newline, exactly when no mark is set |
| ReadLine.RememberedClean | common/console.cpp:1032-1040 | The history stays clean exactly when the input ended, no mark was set, or the marked line ended with a character of at most two bytes, as every line with a fresh mark does |
| ReadLine.StaleMarkLeavesStrayBytes | common/console.cpp:1004-1040 | A concrete run in which two bytes of a three-byte character are handed back and remembered |
| ReadLines.HistoryOverLines | common/console.cpp:699-1043 | From a clean history, over any number of lines: it is clean at the end exactly when no line lost a part of a long character |
| ReadLines.LinesWithoutCompletion | common/console.cpp:699-1043 | Without completion every sequence of lines is defined and the history stays clean |
| JsonText.ReadEscaped | common/chat-peg-parser.cpp:69-76 | Reading an escaped text as the inside of a JSON string gives the text back |
| JsonText.EscapesAre | common/chat-peg-parser.cpp:69-76 | The escape of every character: the seven that have a letter, the other control characters by number, any other as it is |
| JsonText.BraceDepth | common/chat-peg-parser.cpp:41-67 | Counts the braces left open outside strings |
| JsonCounts.CountIsDepth | common/chat-peg-parser.cpp:41-67 | For any text cut into braces, whole strings and other characters: opening braces less closing ones outside strings, and whether it ends in a string or behind a backslash in one |
| JsonCounts.EveryTextHasPieces | common/chat-peg-parser.cpp:41-67 | Every text can be cut like that |
| JsonText.LiteralIsInert | common/chat-peg-parser.cpp:41-76 | A quoted and escaped text changes neither the brace count nor the string state, whatever the text |
| Quotes.NormalizeQuotes | common/chat-peg-parser.cpp:83-185 | The scanning loop computes the conversion that the lemmas below are about |
| Quotes.GrowsExactlyAtSafeCuts | common/chat-peg-parser.cpp:83-185 | The conversion of a text is a prefix of that of a longer text exactly when the cut is not between a backslash and a single quote in a single-quoted string, nor in a bare word that later stops being a literal; otherwise neither is a prefix of the other |
| Quotes.NormalizeIdempotent | common/chat-peg-parser.cpp:83-185 | Converting twice is converting once |
| Quotes.LiteralConverts | common/chat-peg-parser.cpp:83-185 | A single-quoted literal becomes a double-quoted one around its converted inside, and the rest is converted by itself |
| Quotes.MeaningKept | common/chat-peg-parser.cpp:94-154 | The inside of a single-quoted literal, read by the escapes Python shares with JSON, means what its conversion means as JSON (section 7 of RFC 8259); readable on one side exactly when on the other, but for an escaped slash |
| Quotes.DoublePasses | common/chat-peg-parser.cpp:114-142 | A double-quoted literal passes as it is, whatever follows |
| Quotes.DoubleMeaning | common/chat-peg-parser.cpp:114-142 | What Python reads in double quotes JSON reads alike exactly when no single quote is escaped, and not at all otherwise |
| Quotes.UnchangedExactly | common/chat-peg-parser.cpp:83-185 | Text passes unchanged exactly when it has no single quote and no bare word read as a literal outside double quotes |
| Quotes.LiteralsConvert | common/chat-peg-parser.cpp:156-178 | True, False and None, before anything that does not continue the word, become true, false and null |
| QuotePieces.PiecesConvert | common/chat-peg-parser.cpp:83-185 | The conversion of any text, piece by piece: literals in single quotes get double quotes and their escapes changed, double-quoted ones stay, a word that begins True, False or None becomes as much of true, false or null, all else stays; unclosed literals at the end included |
| QuotePieces.EveryTextHasPieces | common/chat-peg-parser.cpp:83-185 | Every text is made of such pieces |
| PythonValues.ValuePasses | common/chat-peg-parser.cpp:83-185 | Any Python value, with lists and dicts of any depth, literals in either quotes and blanks wherever they may stand, converts to its text with JSON quotes and words, whatever follows |
| PythonValues.NormalizedIsRead | common/chat-peg-parser.cpp:83-185 | After the conversion a JSON reader (RFC 8259) reads the value that Python gives the text, to its end, exactly when no double-quoted literal escapes a single quote; otherwise it reads nothing |
| PythonValues.EscapedSingleIsLost | common/chat-peg-parser.cpp:114-118 | A concrete double-quoted literal that Python reads and JSON does not |
| ToolCalls.CloseBraces | common/chat-peg-parser.cpp:406-409 | As many closing braces are added as are open |
| ToolCalls.Mapper.MapName | common/chat-peg-parser.cpp:320-335 | A name takes over the buffered arguments and makes the call visible |
| ToolCalls.Mapper.MapArgName | common/chat-peg-parser.cpp:350-363 | A key is added after a comma where one is due |
| ToolCalls.Mapper.MapArgString | common/chat-peg-parser.cpp:365-386 | A string value is opened once and escaped |
| ToolCalls.Mapper.MapClose | common/chat-peg-parser.cpp:395-417 | Open strings and braces are closed; a call without a name is dropped |
| ToolCalls.Mapper.Map | common/chat-peg-parser.cpp:277-418 | Every tagged event has the effect of the event function on the whole mapper state |
| ToolCalls.Mapper.FromAst | common/chat-peg-parser.cpp:246-275 | The message is that of the run over all events: pending named calls join, blank reasoning goes |
| ToolCalls.TrimmedExactly | common/chat-peg-parser.cpp:11-21 | All white space of the C locale at the end of a name, an id or whole arguments goes, and nothing else |
| ToolCalls.KeyTrimmedExactly | common/chat-peg-parser.cpp:23-37 | Of a key all white space behind goes, and one character of it in front |
| ToolCalls.UnquotedExactly | common/chat-peg-parser.cpp:312-318 | Of an id one pair of quotes around it goes; any other id stays |
| MessageDiff.StringDiffMeaning | common/chat.cpp:54-67 | A text diff exists exactly when one text begins with the other, and completes the old text exactly when it has grown |
| MessageDiff.ComputeDiffs | common/chat.cpp:264-330 | The loop over calls produces the diffs that the lemmas below are about, or the same error |
| MessageDiff.DiffsExist | common/chat.cpp:264-330 | No error exactly when texts and last arguments are comparable, no call disappears and the last name matches |
| MessageDiff.DiffsRebuild | common/chat.cpp:264-330 | A client that adds up the diff (as tests/test-chat.cpp:1081-1105 does) holds the new message exactly when that extends the old |
| MessageDiff.ClientHolds | common/chat.cpp:54-67 | Whatever has changed, if there is a diff: of each text the client then holds the longer one, so nothing is sent for a text that has shrunk; names and ids change unless they became empty; settled calls stay and new ones are all there |
| MessageDiff.DiffErrors | common/chat.cpp:264-330 | Which of the three errors is reported, and in which order they are looked for |
| MessageDiff.DiffsSent | common/chat.cpp:264-330 | One delta for each text and for the last call that differ and one for each new call, the reasoning first, calls in order; name and id together, and only when one of them changed |
| MessageDiff.ChainRebuilds | common/chat.cpp:264-330 | Over any chain of messages that extend one another, names appearing and growing included, no diff fails and the client ends with the last message |
| MessageDiff.SetToolCallIds | common/chat.h:108-120 | Ids handed out stay: the cache only grows, and every call carries the id cached for its position |
| Streaming.StepGrows | common/chat-peg-parser.cpp:277-418 | An event the grammars allow takes nothing back from the visible message |
| Streaming.NeverFlushed | common/chat-peg-parser.cpp:249-260 | No stream of events leaves a named call pending, so the calls handed out at the end are those collected on the way |
| Streaming.TruncatedGrows | common/chat-peg-parser.cpp:277-418 | An event cut within its text at two places: the message of the earlier cut grows into that of the later |
| Streaming.ValueCutsExactly | common/chat-peg-parser.cpp:380-385 | For a non-string value of a visible call it does so exactly when the cut is safe, and the diff fails exactly when it is not |
| Streaming.SecondStringBreaks | common/chat-peg-parser.cpp:369-379 | A string value that is empty so far grows into a longer one exactly when no string is open in the argument; otherwise the diff fails |
| Streaming.CutsGrow | common/chat-peg-parser.cpp:246-418 | The message at any cut of an event stream grows into the message at any later cut |
| Streaming.StreamRebuilds | common/chat.cpp:264-330 | For any sequence of later and later cuts with growing id caches no diff fails, and the sum of all diffs is the last message |
| CompleteCalls.ListedIsInert | common/chat-peg-parser.cpp:346-417 | A comma-separated list of entries leaves no brace and no string open, for any names and strings and for balanced other values |
| CompleteCalls.CallCompletes | common/chat-peg-parser.cpp:304-417 | A whole call, wherever its name stands among its arguments: one call more, named, its arguments one object with all entries in order, balanced, nothing pending |
| CompleteCalls.WholeCallCompletes | common/chat-peg-parser.cpp:304-417 | A call whose arguments come as one JSON text, before or after its name, keeps them as they are but for white space at the end |
| CompleteCalls.CallAsSpelled | common/chat-peg-parser.cpp:309-335 | A call whose name is written with white space behind, and whose id is in quotes or not and likewise, becomes one with just that name and that id |
| StrayEvents.NamedAgain | common/chat-peg-parser.cpp:320-335 | A name that comes again replaces the one before; buffered text becomes the arguments, arguments that are there stay, otherwise they are opened |
| StrayEvents.IdAgain | common/chat-peg-parser.cpp:312-318 | An id that comes again replaces the one before, for a call that has been shown or not |
| StrayEvents.BlankName | common/chat-peg-parser.cpp:320-417 | A name of white space only shows a call without a name, whose whole arguments arrive when it is closed |
| StrayEvents.NamedCloses | common/chat-peg-parser.cpp:395-417 | Closing a call that has its name adds the quote that is open and a brace for each that is open, and changes nothing else |
| StrayEvents.NeverNamed | common/chat-peg-parser.cpp:395-417 | A call closed without a name is dropped, whatever it had, and leaves nothing behind |
| StrayEvents.OutsideCalls | common/chat-peg-parser.cpp:304-417 | Outside of calls the events of a call change no text and no call |
| StrayEvents.WaitingIsShown | common/chat-peg-parser.cpp:249-260 | What is handed out of a named call that still waits: one call more, with the buffered arguments if any and the quote that is open |
| CompleteCalls.CloseBalances | common/chat-peg-parser.cpp:395-417 | However a call comes to its close, known open strings and braces are closed: the arguments end balanced and keep what was written |
| CompleteCalls.ReplyMapped | common/chat-peg-parser.cpp:246-418 | A reply of text, reasoning and calls in any order is mapped to just its parts, and never breaks the order that streaming relies on |
| CompleteCalls.ReplyMessage | common/chat-peg-parser.cpp:246-275 | The visible message of a whole reply; the arguments of all its calls are balanced |
| CompleteCalls.ReplyStreams | common/chat.cpp:264-330 | A reply streamed through any safe cuts: the client that sums the diffs holds the whole message with its completed calls |
| CallMeaning.ShownIsInert | common/chat-peg-parser.cpp:41-67 | The JSON text of any converted Python value leaves no brace and no string open |
| CallMeaning.ArgumentsMean | common/chat-peg-parser.cpp:346-417 | The finished arguments, read as JSON, are the object with every name and value that was meant, in order, exactly when no double-quoted literal escapes a single quote |
| CallMeaning.CallMeans | common/chat-peg-parser.cpp:277-418 | From the events of a call to its meaning: one call more, with its name and id, and arguments that a JSON reader takes for the object of all names and values, strings over any characters and Python values of any depth, exactly when no double-quoted literal escapes a single quote |
| CallMeaning.SpelledCallMeans | common/chat-peg-parser.cpp:277-418 | The same from the spelling of name, id and keys to the call and the JSON object of its arguments, entry by entry |
| Gemma4.ToJson | common/chat-peg-parser.cpp:926-1019 | The recursive rendering with its comma loops is the rendering function |
| Gemma4.RenderGrows | common/chat-peg-parser.cpp:926-1019 | The rendering of a tree cut off along its last path is a prefix of the rendering of the whole tree, for any tree; names without a partial mark, and empty nodes that later become something else, included |
| Gemma4.CompleteIsInert | common/chat-peg-parser.cpp:926-1019 | A complete value renders without leaving a brace or a string open |
| Gemma4.FoundFirst | common/peg-parser.cpp:286-300 | The bounded search finds the first node with the tag, in reading order, among those not too far down, and nothing exactly when there is none |
| Gemma4.FoundGrows | common/peg-parser.cpp:286-300 | The name or the arguments of a call that the bounded search finds in a cut tree it finds, at the same place, in the whole tree |
| Gemma4.Gemma4Mapper.Visit | common/chat-peg-parser.cpp:1021-1058 | Visiting a node appends to the message what the visiting function says |
| Gemma4.VisitGrows | common/chat-peg-parser.cpp:1021-1058 | The message of a cut tree grows into the message of the whole tree |
| Gemma4.TreesRebuild | common/chat.cpp:264-330 | For trees each of which is cut from the next no diff fails, and their sum is the last message |
| Gemma4.GrowingName | common/chat.cpp:1349 | A dict cut inside a name, whose node is not partial and still grows, is such a cut tree |
| Gemma4.ValueToCome | common/chat.cpp:1369-1374 | A dict cut before a value, where an empty string node stands in for it, is one for any value |
| Gemma4.ContentAtDelimiter | common/chat.cpp:1395-1397 | Content that stops where a delimiter may begin, with an empty message after it, is one for any content it grows into |
| JsonReader.ReadsLiteral | common/chat-peg-parser.cpp:69-76 | A literal of escaped text is read back up to its closing quote, whatever follows |
| GemmaMeaning.RenderingIsRead | common/chat-peg-parser.cpp:926-1019 | A complete value, followed by anything that cannot continue it, is read as JSON to just the value it stands for: nested lists, entries in order, keys and strings over any characters |
| GemmaMeaning.ToolMeans | common/chat-peg-parser.cpp:1032-1049 | The arguments of a call with a complete dict are JSON for that dict, and balanced |
| Gemma4Parser.StringMore | common/chat.cpp:1344-1345 | A string read from more input: the same once its delimiter has come, otherwise one it was cut from |
| Gemma4Parser.NumberMore | common/peg-parser.cpp:1328-1341 | A number is taken only before something that cannot go on with it, and then stays; until then it may still become any longer number or none |
| Gemma4Parser.NumberIs | common/peg-parser.cpp:1328-1341 | What is taken as a number is a JSON number (section 6 of RFC 8259) |
| Gemma4Parser.GroupIsWhole | common/chat.cpp:1351-1368 | A dict or an array that has been matched is complete, with all that is in it |
| Gemma4Parser.SuccessiveParses | common/chat.cpp:1343-1374 | For every text and every beginning of it: the tree of the beginning is the tree of the text cut along its last path, or the text is no beginning of a dict; what has matched stays |
| Gemma4Parser.ArgumentsArrive | common/chat-peg-parser.cpp:1032-1049 | The arguments shown for any beginning of a dict are a beginning of those shown later; when the dict is complete they are JSON for it and change no more |
| Gemma4Parser.ShownThenRejected | common/chat.cpp:1384-1394 | A family of dict beginnings whose entry has been shown and which the next character makes no dict |
| GemmaGrammar.SpacesAre | common/peg-parser.cpp:640-655 | What counts as white space, character by character |
| GemmaGrammar.DictExactly | common/chat.cpp:1343-1374 | A dict is taken from a text, and a rest left, exactly where the text is a written dict and that rest |
| GemmaGrammar.DictsExactly | common/chat.cpp:1343-1374 | For every text: a dict that is there is taken; more is asked for exactly when something can be added that makes it one; anything else is rejected |
| GemmaGrammar.CallExactly | common/chat.cpp:1389-1393 | A call is taken exactly where one is written, with one of the names, a dict and its end |
| GemmaWritten.GroupParsed | common/chat.cpp:1343-1374 | Any dict or list as it may be written, values of any depth, white space wherever the grammar has it, and anything behind: it is matched to its end, and the tree renders as the JSON text of what was written |
| GemmaWritten.WrittenIsShown | common/chat-peg-parser.cpp:926-1019 | A written dict is shown as its JSON text, in which a JSON reader (RFC 8259) finds what was meant, and which leaves nothing open |
| GemmaCuts.CutIsShown | common/chat-peg-parser.cpp:926-1019 | A value cut inside a text, a number or word, a key, or inside an item at any depth is shown as its JSON text as far as that goes; nothing is held back but what may begin a delimiter |
| Gemma4Reply.ThoughtMore | common/chat.cpp:1322-1332 | Reasoning read from more input, kept apart or as content: the same once its end has come, otherwise nothing shown yet or cut from the longer one |
| Gemma4Reply.MessageMore | common/chat.cpp:1396-1397 | A message read from more input: the same once a word has come that ends its content; before that it is cut from what it grows into, even when it counts as matched |
| Gemma4Reply.CallsMore | common/chat.cpp:1376-1393 | The calls, for any tools whose names hold no brace: those of more input are those calls with the last one grown, unless that one has been shown and is none; then there is one call less |
| Gemma4Reply.SuccessiveReplies | common/chat.cpp:1343-1399 | The same for whole replies: their nodes are cut from those of any longer reply, or one call has been rejected |
| Gemma4Reply.RepliesStream | common/chat.cpp:264-330 | For every reply and every beginning of it: the diff between their messages exists exactly unless the call under way has been shown and is rejected by what follows; where it exists nothing is taken back, otherwise there is one call less |
| Gemma4Reply.ReplyRebuilds | common/chat.cpp:264-330 | Over any number of longer and longer beginnings of a reply with no shown call rejected no diff fails, and their sum is the last message with its ids |
| GemmaReplies.ReplyAsWritten | common/chat-peg-parser.cpp:1021-1058 | A reply written in the grammar, with any thoughts, contents and calls, whole or cut in a content, in a thought or in the dict of a call: its message has exactly that reasoning, that content and those calls, each with its arguments as JSON text; reasoning that is not kept apart is content as it was written |
| GemmaReplies.OnlyOneCall | common/chat.cpp:1389-1393 | Where one call is allowed, text behind it is left as it is, further calls included |
| GemmaReplies.NoCallHere | common/chat.cpp:1389-1393 | The word for a call with no call behind it makes the reply fail exactly when a call is required, and otherwise shows nothing |
| Segments.SegmentizeMarkers | common/chat-auto-parser-helpers.cpp:269-299 | The scan with its last border and open marker yields the segmentation |
| Segments.SegmentedExactly | common/chat-auto-parser-helpers.cpp:269-299 | It is the only list of markers and marker-free stretches, perhaps with an unclosed one at the end, whose text is the input: nothing lost, nothing else possible |
| Segments.ShapesMean | common/chat-auto-parser-helpers.cpp:269-299 | The shapes spelled out: a marker is a pair of like brackets whose closer comes only at its end, plain text has no opening bracket |
| DiffSplit.CommonPrefixLen | common/chat-auto-parser-helpers.cpp:69-76 | The longest shared start |
| DiffSplit.CommonSuffixLen | common/chat-auto-parser-helpers.cpp:78-85 | The longest shared end |
| DiffSplit.Matcher.MatchRound | common/chat-auto-parser-helpers.cpp:114-139 | One round over four iterators and two flags keeps them and the collected text in step |
| DiffSplit.Matcher.MatchRounds | common/chat-auto-parser-helpers.cpp:102-139 | The two-ended loop ends, with the counts that the rounds function gives |
| DiffSplit.Matcher.MatchLast | common/chat-auto-parser-helpers.cpp:141-165 | All branches after the loop |
| DiffSplit.Matcher.TrimText | common/chat-auto-parser-helpers.cpp:167-183 | Shared characters of leading and trailing text move to the shared parts without overlap |
| DiffSplit.CalculateDiffSplit | common/chat-auto-parser-helpers.cpp:87-207 | The whole computation, both corrections at the end included, is the function the lemmas below are about |
| DiffSplit.RereadIsDoubled | common/chat-auto-parser-helpers.cpp:114-165 | A segment used up in the loop is compared and counted again exactly for the inputs described without the loop: one side is two halves, the other the same halves around something bordered by the same segment |
| DiffSplit.ConservedExactly | common/chat-auto-parser-helpers.cpp:87-207 | Prefix, own part and suffix give back both texts exactly when neither side is doubled in the other, or the left is a prefix of a clearly longer right |
| DiffSplit.DistinctConserved | common/chat-auto-parser-helpers.cpp:87-207 | Both texts are given back whenever no segment is repeated within a side |
| DiffSplit.NoDifferenceExactly | common/chat-auto-parser-helpers.cpp:185-190 | No difference is reported exactly for equal texts and for those that differ by one doubled marker |
| DiffSplit.NothingMoreShared | common/chat-auto-parser-helpers.cpp:87-207 | Where both sides of a split keep something, it is their segments between the first and the last that differ, less all that text at their ends still shares |
| DiffSplit.LeftBegins | common/chat-auto-parser-helpers.cpp:185-204 | A left side that begins the right is the whole prefix, and what follows it the right part; without a difference everything is prefix |
| DiffSplit.OneSideShared | common/chat-auto-parser-helpers.cpp:102-183 | Where only one side keeps something, how the other is divided: half of its segments in front and half behind, the odd one behind, as far as both ends match; then its text, as much as is shared behind and the rest in front |
| DiffSplit.DoubledParts | common/chat-auto-parser-helpers.cpp:141-150 | For doubled sides, what is counted twice stands in the prefix and in the suffix |
| DiffSplit.RepeatedSegmentIsLost | common/chat-auto-parser-helpers.cpp:141-150 | A concrete pair of texts whose left side is not given back |
| DiffSplit.RepeatedMarkerIsMissed | common/chat-auto-parser-helpers.cpp:161-190 | A concrete pair of different texts reported as equal |
| Glob.GlobClassMatch | common/common.cpp:727-765 | A character matches a class exactly when one of its ranges holds it, the other way round for negated classes |
| Glob.GlobMatch | common/common.cpp:767-816 | The backtracking matcher ends, and accepts exactly the texts that can be cut into one piece per token, each piece described by its token |
| Glob.MatchesStar | common/common.cpp:778-784 | A star takes nothing, or one character that is no slash and then again |
| Glob.MatchesAnything | common/common.cpp:772-777 | A double star takes nothing, or any character and then again |
| Glob.SlashesAreSpelledOut | common/common.cpp:767-812 | Without double stars and classes a text matches only if its slashes are those of the pattern |
| Glob.Kinds | common/common.cpp:767-812 | Each sign by itself: a double star stands for anything, a star for anything without a slash, a question mark for one character but a slash, a character for itself |
| Glob.PartsMatch | common/common.cpp:767-812 | Patterns one after the other match texts one after the other |
| Glob.TokensAreRead | common/common.cpp:767-812 | A pattern is read as the signs it is written with; a bracket that is never closed is a character |
| Glob.EveryPatternHasSigns | common/common.cpp:767-812 | Every pattern is written with such signs |
| Glob.ClassMeans | common/common.cpp:727-765 | What a class means as it is written: a negation, a first bracket or dash for itself, characters and ranges over signed bytes |
| Glob.EveryClassHasMembers | common/common.cpp:727-765 | Every inside of a class is written with such members |
| CommonSubstring.Lcs | common/common.cpp:469-488 | The result occurs in both texts, no common text is longer, and of those as long none occurs earlier in the first text |
| CommonSubstring.RunExactly | common/common.cpp:476-480 | A table cell counts how far back the two texts agree, no less and no more |
| SplitJoin.StringSplit | common/common.cpp:539-553 | The searching loop yields the pieces |
| SplitJoin.OccursMeans | common/common.cpp:539-553 | A delimiter occurs where the text is what is before, the delimiter, and what is after |
| SplitJoin.LoopEndsExactly | common/common.cpp:539-553 | The loop ends exactly for a delimiter that is not empty |
| SplitJoin.StringJoin | common/common.cpp:528-537 | The loop joins the values with separators between them |
| SplitJoin.JoinSplit | common/common.cpp:528-553 | Joining the pieces of a text gives the text back |
| SplitJoin.SplitJoinExactly | common/common.cpp:528-553 | Splitting a joined list gives the list back exactly when the delimiter begins nowhere in a piece and the one after it |
| SplitJoin.PiecesAreFree | common/common.cpp:539-553 | No piece of a split text holds the delimiter |
| SplitJoin.StringReplaceAll | common/common.cpp:506-521 | Replacing is splitting at one text and joining with the other; an empty search changes nothing |
| Escapes.ProcessEscapes | common/common.cpp:644-679 | Rewriting the buffer in place gives the processed text: what is still to be read is never overwritten |
| Escapes.SameLengthIsSame | common/common.cpp:644-679 | The text keeps its length exactly when nothing in it changes |
| Escapes.WrittenIsRead | common/common.cpp:644-679 | Any mixture of bare characters, letters, numbers in two characters (with a sign or white space, as the number parser allows) and backslashes that mean nothing, and a backslash at the end, is read as what its pieces mean |
| Escapes.EveryTextHasPieces | common/common.cpp:644-679 | Every text is written in such pieces |
| Escapes.HexMeaning | common/common.cpp:660-670 | Which two characters behind an x give a number, and which |
| Escapes.BackslashedIsRead | common/common.cpp:644-679 | Doubling the backslashes preserves any text |
| Base64.Encode | common/base64.hpp:80-144 | The loop over groups computes the encoding |
| Base64.EncodedSize | common/base64.hpp:338-341 | The encoding has exactly the required size |
| Base64.Decode | common/base64.hpp:200-244 | The bit-buffer loop computes the decoding or its error, and never more than the maximal size |
| Base64.DecodeInPlace | common/base64.hpp:294-298 | Decoding over the input gives the result of decoding elsewhere: a byte is written only where the characters have been read |
| Base64.RoundTrip | common/base64.hpp:80-244 | Every byte string is decoded from its encoding, in both alphabets (sections 4 and 5 of RFC 4648), with the alphabet given or detected, strict or loose |
| Base64.AutoIsEither | common/base64.hpp:344-389 | Detection accepts just what one of the two alphabets accepts, with the same bytes |
| Base64.EncodedBits | common/base64.hpp:80-144 | The encoding holds the bits of the bytes, six to a character, zeros behind the last, and padding up to a multiple of four |
| Base64.DecodedBits | common/base64.hpp:200-244 | Decoding succeeds exactly when there is only padding behind the characters, or anything goes; its bytes hold the bits of the characters, and bits that make no byte are dropped |
| Base64.NoSignFails | common/base64.hpp:346-391 | A character outside the alphabet, before any padding, is an error |
| Base64.SizesAreWhole | common/base64.hpp:325-341 | The sizes asked for are those of whole groups, and no more |
| Csv.ParseCsvRow | common/arg.cpp:1134-1176 | The character loop yields the fields |
| Csv.RowIsRead | common/arg.cpp:1134-1176 | A row is read back as its fields, each bare, quoted with or without text behind the closing quote, or, at the end, with a quote that is never closed |
| Csv.EveryTextIsRow | common/arg.cpp:1134-1176 | Every text at all is such a row |
| Csv.QuotedRowIsRead | common/arg.cpp:1134-1176 | Any nonempty list of fields over any characters survives the quoting of section 2 of RFC 4180 |
| Csv.PlainSurvivesExactly | common/arg.cpp:1134-1176 | A single field survives without quotes exactly when it has no comma and does not begin with a quote |
| MessageSpans.FindMatches | common/chat.cpp:150-172 | Collects every start outside the skips, in order, and ends even with skips of length zero |
| MessageSpans.MatchMeans | common/chat.cpp:150-172 | A delimiter stands where the tokens are what is before, its tokens, and what is after |
| MessageSpans.SkipsMean | common/chat.cpp:150-172 | The skips that count are those before the first one that reaches into the next |
| MessageSpans.StartMeans | common/chat.cpp:150-172 | A message starts where any delimiter stands outside the skips; the first of the list counts |
| MessageSpans.Split | common/chat.cpp:150-185 | The spans follow one another up to the last token, none empty, one exactly where a delimiter stands outside the skips in force, with the role of the first such delimiter |
| MessageSpans.SpansAreUnique | common/chat.cpp:174-185 | No other list of spans is like that |
| CacheGc.Cache.RemoveTag | common/download.cpp:926-1008 | Removes the listed entries of a tag and then the blobs no listed entry refers to, whichever removals fail |
| CacheGc.WhatStays | common/download.cpp:926-1008 | Entry by entry and blob by blob, what goes and what stays, whichever removals and reads fail |
| CacheGc.ListedLinksKeepBlobs | common/download.cpp:980-1005 | A listed link that survives and can be read keeps its blob, whatever fails |
| CacheGc.NothingDanglesExactly | common/download.cpp:926-1008 | No link at all is cut off exactly when every unlisted or unreadable one that shares a removable blob shares it with a listed survivor |
| CacheGc.OrphansAreGone | common/download.cpp:926-1008 | If everything succeeds, a blob goes exactly when its last listed link was removed |
| CacheGc.OtherSnapshotDangles | common/hf-cache.cpp:399-453 | A concrete cache in which the link of a snapshot that is not listed is cut off |
| Shards.GetAllParts | common/download.cpp:767-780 | The loop yields the parts from the first to the last |
| Shards.PartIsRead | common/download.cpp:510-538 | A generated part name is read back with its prefix, tag, number and count |
| Shards.InfoOfPart | common/download.cpp:510-538 | A name in parts is read with its prefix and the decimal values of its two numbers, "of" in letters of any case |
| Shards.InfoOfOther | common/download.cpp:510-538 | Any other name with the suffix is one part; without the suffix nothing is read |
| Shards.PartAsWritten | common/download.cpp:767-780 | A part is named by its prefix and two numbers of five decimal digits |
| Shards.TagAsWritten | common/download.cpp:529-535 | The tag is the word behind the last dash or dot at the end of the prefix, in capital letters, or nothing |
| Shards.PartsAgree | common/download.cpp:767-780 | Every part of a model generates the same list of parts, and is read as its own number |
| Shards.UrlIsAmongItsParts | common/download.cpp:767-780 | A url is among its parts exactly when it is not one of several, or its number is within the count and spelled as parts are |

## Left out

- Line editor, screen: one row without end. Wrapping at the terminal's width, and what finishing a line draws, are not modelled.
- Line editor, widths: a character of width zero occupies no cell, so its own bytes are not part of the picture; only its column counts.
- Screen.Terminal: the terminal is taken to move by the width it reports or, where none is reported, to answer a position query. A width belongs to a character wherever it is drawn; that of a tab, which can be typed when no completion is offered, depends on the column.
- Line editor, keys: decoding of escape sequences, the Windows branches and the simple fallback reader. A key is what the decoding yields.
- ReadLine.Console.Press: takes any key and any completion, and says exactly when the cursors go out of step; what a key then leaves behind is not modelled.
- ReadLine.Console.ReadLine: follows runs in which every key keeps the cursors in step; ReadLine.Console.Press says which keys do.
- Integers are unbounded; overflow of sizes and widths is not modelled. Byte classes such as white space are those of the ASCII locale.
- JsonText: the JSON library is modelled by the escape it applies to each character. Its reader takes a \u escape as one code unit; surrogates are not combined, and invalid UTF-8 is not rejected.
- ToolCalls.Mapper.MapClose: after a call without a name is dropped the source keeps a reference to an object that is gone; the model has no current tool then.
- ToolCalls.Mapper.Map: for the same reason, events between such a close and the next open, which the source writes through that reference, are ignored.
- Streaming.CutsGrow: about streams in the order the grammars keep: a call is named once and not with blanks only, whole arguments come before any others, an argument has one string value. CompleteCalls.ReplyMapped shows that whole replies keep it. A name, an id or a key that is still incomplete yields no event.
- GemmaReplies.ReplyAsWritten: likewise for tool names. A reply may be cut inside a content, a thought, or a text, number, word or key of a dict; what is shown between those places lies between what is shown at them (Gemma4Parser.ArgumentsArrive). Text behind the last call is not part of a written reply.
- Gemma4Reply.RepliesStream: tool names hold no brace, and the reply is one with tools and without a response format. A text that is no reply at all is an error in the source unless more is to come.
- Gemma4Parser, Gemma4Reply: texts of whole characters; a cut inside the UTF-8 of one, and invalid UTF-8, are left out. The engine is modelled by what it computes for these rules, not as an interpreter of grammars. The text of a rule that only holds others together is never read and not modelled to the character.
- GemmaMeaning.RenderingIsRead: number texts are kept as they are and not evaluated.
- DiffSplit: the helpers around it (until_common_prefix, after_common_suffix, pruning of blank segments) would only add easy members.
- Glob: bytes compare as signed characters, as on the common platforms; patterns and texts end at a zero byte as in the source.
- SplitJoin.StringSplit: an empty delimiter is excluded, because the source's loop never ends on one (SplitJoin.LoopEndsExactly).
- MessageSpans: tokenising the delimiters needs the vocabulary, which is not part of the model.
- CacheGc: paths, directories and locks. Links lead to blobs, the listing is a set of visible entries, and each removal succeeds or fails on its own. Removing a whole repository is a single recursive deletion and is left out.
- Shards: choosing the best file, quantisation guessing and sibling lookup are heuristics without a crisp contract.
- PythonValues: escapes that Python has and JSON has not (apart from the escaped single quote), and raw control characters in a literal, are left out, like values the grammar for Python values does not have.
- Not modelled at all: the parsing engine apart from what Gemma4Parser and Gemma4Reply need of it, the template runtime, grammar generation, the per-model handlers and template analysis in common/chat.cpp and common/chat-diff-analyzer.cpp, downloads over the network, the option table, sampling, embeddings and all floating-point code.
