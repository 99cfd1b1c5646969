# Verified model of the disting NT host harness and its plug-in runtimes

This project models, in Dafny, the parts of the repository in which most of its logic lies, and proves what they are
for. It has four groups of modules.

**The JSON stream, parser and cursor** (`harness/src/nt_jsonstream.cpp`). The writer is a class with the output, the
context stack and the automatic-root flag as fields. The parser is a lexer with a position and a node arena that mutually
recursive methods fill. The cursor is a stack of frames over that arena.

| file | what it holds |
|---|---|
| `Chars.dfy`, `Strings.dfy`, `Numbers.dfy` | bytes, C library conversions, string literals, number tokens |
| `Json.dfy` | JSON values, their tokens and texts |
| `Grammar.dfy` | the accepted language as functions on the remaining input, and its round trips |
| `Dialect.dfy` | the same language declared: what spells a value, and where a reader stops |
| `Arena.dfy`, `Parser.dfy` | the layout of a value in the arena, and the recursive-descent parser that produces it |
| `Cursor.dfy`, `ParseHost.dfy` | the reads as steps on positions, and the frame stack that implements them |
| `Writer.dfy`, `WriterLimits.dfy` | the stream object, the document a call sequence describes, and which calls spoil its text |
| `RoundTrip.dfy` | writing a value and reading it back |

**Its clients**: `Members.dfy` (reading an object member by member), `AppletState.dfy` (an applet's 64-bit state),
`SettingsBlob.dfy` (an app's settings blob), `ScenarioReader.dfy` (the scenario reader), `BusRecord.dfy` (the step loop that
collects bus output).

**The rasteriser**: `Lines.dfy` (the exact line), `Circles.dfy` (the offsets of a circle and their distance from its
radius) and `Raster.dfy` (shapes on the nibble-packed screen).

**Small state machines and codecs**: `Ticks.dfy`, `Inputs.dfy`, `Settings.dfy`, `Buttons.dfy`, `Upload.dfy`, `Glyphs.dfy`.

Bytes of text are `char`, integers are unbounded with every conversion to 16, 32 or 64 bits written out, and pixels are
8-bit vectors. Arguments passed as `const char*` have the type `CString`: the bytes before the NUL. What is not visible
in the repository is a parameter: the result of `%g`, of `strtod`, an applet's `Controller`, the reply to a message,
the samples on a bus, what applying a setting makes of a value.

## Where the code does less than a reader might expect

- A container that is entered while empty is never left: `advance` pops exhausted frames only after it has stepped, and
  behind an empty container every read fails. `Cursor.StepKeepsLive` and `Cursor.EnteringHidesTheRest` give the exact
  condition and `RoundTrip.ReadBehindEmptyArray` the text `[[], 1]`.
- So the order of a scenario's members can matter: an empty `params` or `input_buses` object must be the last member.
  `ScenarioReader.ScenarioIsReadIff` gives the condition, `ScenarioReader.EmptyParamsBreakOrder` the input.
- `buffer()` closes everything above an automatic root with `}`, arrays included, and supplies no value a name waits
  for. `WriterLimits.BufferFinishesObjects` says exactly when its text is JSON, `WriterLimits.BufferMisclosesArray`
  gives a text it spoils.
- A float that is infinite or not a number makes the output unparsable, whatever is written later, and a float that
  prints without dot and exponent is read back as an integer (`WriterLimits.FloatKeepsOutputViable`,
  `Json.AsReadKeepsMarked`).
- The circle drifts outwards, because the error term leaves out a step in y that is made together with one in x. No pixel
  falls inside the circle of the radius less one, but only for the radii up to 12, 14 and 15 do all pixels stay within
  one pixel of the radius (`Circles.CircleDistance`): radius 13 already plots the offset (10, 10).
- Restoring a settings blob only checks that its length is in range: bytes behind that length are handed to the app as
  they were stored (`SettingsBlob.BlobTakesLast`).
- An empty file is uploaded by sending nothing, and reported as a success (`Upload.UploadFile`).
- A pushed setting whose re-applied value comes out different is pushed again every time (`Settings.SecondPushIsQuiet`).

## Model

| member | source | states |
|---|---|---|
| Chars.DecimalInvertsIntText | harness/src/nt_jsonstream.cpp:360-366 | the decimal conversion of the parser undoes `%d` for every 32-bit integer |
| Chars.HexInvertsHex4 | harness/src/nt_jsonstream.cpp:57-60 | the four hex digits of a byte are read back as that byte |
| Chars.SpacesAre | harness/src/nt_jsonstream.cpp:118-118 | whitespace is that of RFC 8259, section 2, with vertical tab and form feed |
| Chars.DecimalOfDigits | harness/src/nt_jsonstream.cpp:266-266 | a digit text with or without a sign is the number of its digits modulo 2^32, and that of the largest or smallest 64-bit `long` where it does not fit |
| Chars.DigitsArePositional | harness/src/nt_jsonstream.cpp:266-266 | the first of several digits has the highest weight |
| Chars.NoLeadingZero | harness/src/nt_jsonstream.cpp:363-364 | a natural number is printed without sign and without a zero in front |
| Chars.HexIsPositional | harness/src/nt_jsonstream.cpp:144-144 | four hex digits of either case count by their places |
| Chars.LaxHexDigits | harness/src/nt_jsonstream.cpp:144-144 | spaces, signs, `0x` and trailing characters among the four are taken as `strtoul` takes them |
| Strings.SimpleEscapesAre | harness/src/nt_jsonstream.cpp:133-157 | the two-character escapes are those of RFC 8259, section 7, with their code points, and no others |
| Strings.UnicodeEscapeIsUtf8 | harness/src/nt_jsonstream.cpp:142-156 | a literal with a `\u` escape of four hex digits is read as one to three bytes that are the UTF-8 form of the code unit and decode to it |
| Strings.PlainIsQuotedAsIs | harness/src/nt_jsonstream.cpp:46-67 | printable text without quote and backslash is quoted as it is |
| Strings.QuotedIsPrintable | harness/src/nt_jsonstream.cpp:57-60 | no quoted string holds a control character |
| Strings.ScanInvertsQuote | harness/src/nt_jsonstream.cpp:124-166 | a quoted string before any text is read as that string, and reading stops where that text begins |
| Strings.QuotesArePrefixFree | harness/src/nt_jsonstream.cpp:46-67 | if one quoted string begins like another, they are the same string |
| Numbers.NumberTokenStops | harness/src/nt_jsonstream.cpp:240-256 | a number token before a delimiter is scanned whole, with the same flags as alone |
| Numbers.ScannedIsToken | harness/src/nt_jsonstream.cpp:240-256 | what a successful scan of any text takes is a number token by itself, of the same kind |
| Json.AsReadKeepsMarked | harness/src/nt_jsonstream.cpp:260-268 | a value is read back unchanged if and only if every float in it prints with a dot or an exponent |
| Grammar.ParseWeave | harness/src/nt_jsonstream.cpp:118-270 | the tokens of any value with any whitespace before each of them parse to that value as read, and parsing stops behind them |
| Grammar.ParseInvertsText | harness/src/nt_jsonstream.cpp:209-270 | the compact text of any value parses to that value as read and leaves the rest of the input |
| Grammar.TextInjective | harness/src/nt_jsonstream.cpp:46-67 | values of the same text are read alike, and are the same value where every float is marked as one |
| Grammar.ParsedIsCanonical | harness/src/nt_jsonstream.cpp:171-270 | whatever text is accepted, the value has 32-bit integers, marked floats and one name per member, and is read back as it is |
| Grammar.ReprintIsStable | harness/src/nt_jsonstream.cpp:209-270 | printing what was parsed from any accepted text, in the full dialect, and parsing that gives the same value |
| Dialect.ScansNumber | harness/src/nt_jsonstream.cpp:240-256 | a text is scanned as a number exactly if it is a sign or none, then digits with at most one dot and one exponent mark in any order, a sign only behind the mark, at least one digit, and the rest cannot continue it |
| Dialect.StringsAreSpelled | harness/src/nt_jsonstream.cpp:124-166 | a string is read exactly where whitespace and a literal of plain characters, two-character escapes and `\u` with any four characters stand, with the bytes these stand for |
| Dialect.WordsAre | harness/src/nt_jsonstream.cpp:220-239 | `null`, `true` and `false` are read as what they say, whatever follows |
| Dialect.SpellingParses | harness/src/nt_jsonstream.cpp:171-270 | every spelling of a value, with whitespace anywhere between its tokens, leading plus signs, leading zeros and any escapes, is parsed to its meaning |
| Dialect.ValueSpelled | harness/src/nt_jsonstream.cpp:171-270 | whatever is accepted is such a spelling of the value given |
| Dialect.ParsesExactlySpellings | harness/src/nt_jsonstream.cpp:209-270 | the parser gives a value and a rest if and only if the text is a spelling of the value followed by the rest, with a number taking all it can |
| Dialect.RefusesExactlyTheRest | harness/src/nt_jsonstream.cpp:519-529 | a text is refused if and only if it begins with no spelling of any value |
| Arena.TreeInvertsFlatten | harness/src/nt_jsonstream.cpp:171-207 | the pre-order layout of a value denotes that value, whatever stands before and behind it in the arena |
| Arena.FlattenFits | harness/src/nt_jsonstream.cpp:171-207 | in a layout every child stands behind its parent and inside the interval, and objects have as many names as children |
| Arena.FlattenReferences | harness/src/nt_jsonstream.cpp:171-207 | every node of a layout but the root is a child exactly once, the root and everything outside never |
| Parser.Lexer.MatchChar | harness/src/nt_jsonstream.cpp:122-122 | skips whitespace and consumes the character exactly if it is next; a failed match has still skipped the whitespace |
| Parser.Lexer.ParseEscape | harness/src/nt_jsonstream.cpp:132-158 | decodes one escape as the grammar does, `\u` into one to three bytes, and refuses exactly what it refuses |
| Parser.Lexer.ParseString | harness/src/nt_jsonstream.cpp:124-166 | succeeds exactly on the texts that begin with a string literal, with its content, behind it |
| Parser.Lexer.NumberToken | harness/src/nt_jsonstream.cpp:240-256 | takes the longest run the number loop accepts, and tells digits, dot and exponent |
| Parser.ParseScalarValue | harness/src/nt_jsonstream.cpp:213-239 | for strings, literals and numbers the arena grows by the one node of the parsed value, and the method fails exactly when the grammar does |
| Parser.ParseNumberValue | harness/src/nt_jsonstream.cpp:240-269 | a number adds one node holding its integer, or its token if it has a dot or exponent |
| Parser.ParseContainerValue | harness/src/nt_jsonstream.cpp:171-207 | objects and arrays: arena and position are those of the grammar's value, or the call fails and the grammar has no value there |
| Parser.ParseItemLoop | harness/src/nt_jsonstream.cpp:177-188 | the item loop keeps the arena equal to the container's node with the items so far, followed by their layouts |
| Parser.ParseAnyValue | harness/src/nt_jsonstream.cpp:209-270 | on every input the recursion ends, the position never goes back, the method succeeds exactly when the grammar has a value, and the nodes added are exactly that value's pre-order layout |
| Cursor.StepRefinesWorklist | harness/src/nt_jsonstream.cpp:407-493 | a successful read drops the head of the worklist of unread values; entering a container puts its children there |
| Cursor.ReadsFindTheirKind | harness/src/nt_jsonstream.cpp:407-493 | each read succeeds if and only if the next value is of the kind it asks for; skipping, if and only if it is an object member |
| Cursor.StepShrinksWork | harness/src/nt_jsonstream.cpp:407-493 | a successful read lowers the number of unread values by the size of what it read, by one if it entered |
| Cursor.StepKeepsLive | harness/src/nt_jsonstream.cpp:286-296 | a read keeps the cursor free of exhausted frames if and only if it does not enter an empty container |
| Cursor.LiveShowsHead | harness/src/nt_jsonstream.cpp:278-284 | without exhausted frames the value on offer is the head of the worklist |
| Cursor.RunStaysLive | harness/src/nt_jsonstream.cpp:407-493 | over every run that enters only filled containers, with failed calls anywhere in it, the cursor stays live |
| Cursor.RunsAreBounded | harness/src/nt_jsonstream.cpp:286-296 | no run has more successful reads than there are unread values |
| Cursor.StallsForever | harness/src/nt_jsonstream.cpp:407-428 | behind an exhausted container no call of any run succeeds or moves the cursor |
| Cursor.EnteringHidesTheRest | harness/src/nt_jsonstream.cpp:407-428 | entering a container hides unread values if and only if it is empty and something follows it |
| Cursor.EmptyContainerStalls | harness/src/nt_jsonstream.cpp:407-428 | in `[[], 1]` the number cannot be read once the empty array has been entered |
| Cursor.VisitReadsAll | harness/src/nt_jsonstream.cpp:407-493 | visiting a value without empty containers in pre-order leaves the cursor exactly behind it |
| Cursor.DocumentIsReadThrough | harness/src/nt_jsonstream.cpp:519-536 | a whole document without empty containers is read to its end |
| ParseHost.BuildParserState | harness/src/nt_jsonstream.cpp:519-536 | an accepted text gives an arena that is its value's layout behind which the array node with the document stands; any other text gives no frame |
| ParseHost.JsonParse.constructor | harness/src/nt_jsonstream.cpp:519-536 | an accepted text leaves the cursor in front of its value, laid out from node 0; any other text leaves no frame |
| ParseHost.EnterGroup | harness/src/nt_jsonstream.cpp:407-428 | the frame pushed for a container node shows all of the value that node denotes |
| ParseHost.JsonParse.PeekValue | harness/src/nt_jsonstream.cpp:278-284 | delivers the node of the next value, and none exactly when there is none |
| ParseHost.JsonParse.AdvanceCursor | harness/src/nt_jsonstream.cpp:286-296 | steps past the next value and leaves every container this exhausts |
| ParseHost.JsonParse.EnterContainer | harness/src/nt_jsonstream.cpp:407-428 | succeeds exactly on a container of the asked kind, tells its size, advances before it enters; otherwise changes nothing |
| ParseHost.JsonParse.MatchName | harness/src/nt_jsonstream.cpp:430-438 | true exactly if the next value is an object member of that name |
| ParseHost.JsonParse.SkipOneMember | harness/src/nt_jsonstream.cpp:440-449 | skips exactly one object member with everything in it; fails without effect elsewhere |
| ParseHost.JsonParse.Number | harness/src/nt_jsonstream.cpp:451-458 | reads exactly a number and steps past it; a failed call changes nothing |
| ParseHost.JsonParse.String | harness/src/nt_jsonstream.cpp:469-476 | reads exactly a string, as far as its first NUL; a failed call changes nothing |
| ParseHost.JsonParse.Boolean | harness/src/nt_jsonstream.cpp:478-485 | reads exactly a boolean; a failed call changes nothing |
| ParseHost.JsonParse.ReadNullValue | harness/src/nt_jsonstream.cpp:487-493 | reads exactly a null; a failed call changes nothing |
| Writer.WriterQuote | harness/src/nt_jsonstream.cpp:46-67 | appends the quoted form that the lexer inverts |
| Writer.JsonStream.DoOpenArray | harness/src/nt_jsonstream.cpp:310-318 | new state: comma where an array element needs one, bracket, new context; the pending-name flag stays |
| Writer.JsonStream.DoOpenObject | harness/src/nt_jsonstream.cpp:326-334 | as for arrays, with an object context |
| Writer.JsonStream.DoCloseArray | harness/src/nt_jsonstream.cpp:320-324 | new state: bracket and one context less, whatever its kind |
| Writer.JsonStream.DoCloseObject | harness/src/nt_jsonstream.cpp:336-343 | new state: brace, one context less, automatic root cleared at the bottom |
| Writer.JsonStream.AddMemberName | harness/src/nt_jsonstream.cpp:345-358 | new state: opens the automatic root at top level, then comma, quoted name and colon |
| Writer.FlagFollowsNames | harness/src/nt_jsonstream.cpp:310-358 | the pending-name flag is set by a name and cleared by a value in an object; opening a container behind a name leaves it set |
| Writer.JsonStream.AddNumber | harness/src/nt_jsonstream.cpp:360-366 | new state: the decimal text as the next value |
| Writer.JsonStream.AddFloat | harness/src/nt_jsonstream.cpp:368-374 | new state: what `%g` prints as the next value |
| Writer.JsonStream.AddString | harness/src/nt_jsonstream.cpp:376-380 | new state: the quoted string as the next value |
| Writer.JsonStream.Buffer | harness/src/nt_jsonstream.cpp:510-516 | the loop ends whenever the automatic root has a context, with one brace per context down to it |
| Writer.StepShows | harness/src/nt_jsonstream.cpp:310-398 | every call a well-nested use may make, with any float that prints as a number, keeps output and context stack those of the document in progress: commas and colons stand exactly where the grammar wants them |
| Writer.RunShows | harness/src/nt_jsonstream.cpp:310-398 | the same over every well-nested run |
| Writer.EveryOutputIsViable | harness/src/nt_jsonstream.cpp:310-398 | after every prefix of a well-nested run the output, with `null` for a value that is awaited and the closers of the context stack, is the text of the document described and parses to it as read; a complete document needs nothing added |
| Writer.DriveBuilds | harness/src/nt_jsonstream.cpp:310-398 | the pre-order calls for a value build that value where one may come next |
| Writer.WriteThenParse | harness/src/nt_jsonstream.cpp:310-398 | the pre-order calls on a new stream write the value's text, and that text parses to the value as read |
| WriterLimits.FailsInside | harness/src/nt_jsonstream.cpp:177-205 | behind any open containers, text that begins no value leaves the whole text unparsable |
| WriterLimits.FloatKeepsOutputViable | harness/src/nt_jsonstream.cpp:368-374 | where a value may come next, adding a float leaves an output that can be continued to a JSON text if and only if `%g` prints a number; then the writer invariant is kept |
| WriterLimits.BufferFinishesObjects | harness/src/nt_jsonstream.cpp:510-516 | with an automatic root open, the text of `buffer()` parses if and only if all open containers are objects and no name waits for its value, and then it is the text of the completed document |
| WriterLimits.BufferMisclosesArray | harness/src/nt_jsonstream.cpp:510-516 | a member whose array is still open is closed with braces |
| Writer.AutoRootIsExplicitRoot | harness/src/nt_jsonstream.cpp:345-358 | a run that begins with a member name and ends with `buffer()` gives the same text as one between explicit root brackets |
| RoundTrip.WriteMember | harness/src/nt_jsonstream.cpp:345-398 | writing a name and a value adds exactly that member, opening the automatic root where there is none |
| RoundTrip.WriteValue | harness/src/nt_jsonstream.cpp:310-398 | driving the stream over a value adds exactly that value to the document in progress |
| RoundTrip.WriteAndParse | harness/src/nt_jsonstream.cpp:510-536 | for every value whose strings are C strings, any depth, empty containers included: a new stream writes its text, and parsing that puts the value as read at node 0, its layout in the arena and the cursor in front of it; without unmarked floats that is the same value |
| RoundTrip.ReadBehindEmptyArray | harness/src/nt_jsonstream.cpp:407-428 | the text `[[], 1]` is accepted, both arrays can be entered, and then the number cannot be read |
| Members.EnterObjectPosition | harness/src/nt_jsonstream.cpp:420-428 | entering an object puts the cursor in front of its first member |
| Members.MemberAt | harness/src/nt_jsonstream.cpp:430-449 | in front of a member the cursor shows that name and value only, and one step leads to the next member |
| Members.LookupIgnoresOrder | harness/src/main.cpp:176-193 | looking up a name that is not repeated gives the same value in every order of the members |
| AppletState.JoinInvertsSplit | plugins/applets/_per_applet_runtime.h:290-290 | two signed words carry every 64-bit state |
| AppletState.WordsAreHalves | plugins/applets/_per_applet_runtime.h:274-290 | the first word is the high half and the second the low half, in saving and in restoring |
| AppletState.SavedText | plugins/applets/_per_applet_runtime.h:274-275 | the text of a saved state, member by member |
| AppletState.WriteDataRequest | plugins/applets/_per_applet_runtime.h:271-276 | adds exactly the two state members to the document in progress |
| AppletState.ReadDataReceive | plugins/applets/_per_applet_runtime.h:278-294 | result and delivered state are those of the members of the object at the cursor, at any cursor position; nothing but an object is accepted |
| AppletState.ReceiveTakesLast | plugins/applets/_per_applet_runtime.h:284-293 | restoring fails exactly if a state member is no number, and otherwise takes the last value under each name |
| AppletState.DeliveredIff | plugins/applets/_per_applet_runtime.h:284-293 | a state is delivered if and only if both members are there and all of either name are numbers; its halves are the last of each |
| AppletState.StateIsRestored | plugins/applets/_per_applet_runtime.h:278-294 | the two members in either order, anywhere among members of other names and any values, deliver exactly the state |
| AppletState.SaveAndRestore | plugins/applets/_per_applet_runtime.h:271-294 | saving among any other members, `buffer()`, parsing and restoring delivers exactly the 64-bit state |
| AppletState.RestoreAnywhere | plugins/applets/_per_applet_runtime.h:278-294 | so does any written object that has the two members in any two places |
| SettingsBlob.BlobWordName | plugins/apps/_per_app_runtime.h:707-719 | the digit loops produce the prefix and the decimal text of the index |
| SettingsBlob.UnpackInvertsPack | plugins/apps/_per_app_runtime.h:743-784 | a word gives back its four bytes also where it is stored as a negative number |
| SettingsBlob.WordsAreLittleEndian | plugins/apps/_per_app_runtime.h:743-784 | byte k of four is bits 8 k to 8 k + 7 of the word, in saving and in restoring |
| SettingsBlob.BlobNamesAre | plugins/apps/_per_app_runtime.h:769-777 | the blob members are `oc_len` and `oc_w0` to `oc_w127` |
| SettingsBlob.Serialise | plugins/apps/_per_app_runtime.h:728-753 | adds exactly the length and the words of the blob, and nothing for an app without hook or with too much storage |
| SettingsBlob.Deserialise | plugins/apps/_per_app_runtime.h:755-799 | result and blob are those of the members of the object at the cursor; the app is called exactly if the call succeeds |
| SettingsBlob.BlobTakesLast | plugins/apps/_per_app_runtime.h:768-795 | reading fails exactly if a blob member is no number; each word and the length is the last member of its name, other bytes stay 0 |
| SettingsBlob.BlobDeliveredIff | plugins/apps/_per_app_runtime.h:768-798 | a blob is delivered if and only if every blob member is a number and the last length is there and from 0 to 512; each byte is then that of the last word for it, or 0 |
| SettingsBlob.BlobIsRestored | plugins/apps/_per_app_runtime.h:755-799 | in every order of the saved members and any others, exactly the saved bytes come back, with zeros behind them |
| SettingsBlob.SaveAndRestore | plugins/apps/_per_app_runtime.h:728-799 | saving any blob of at most 512 bytes among other members, `buffer()`, parsing and restoring delivers that blob |
| ScenarioReader.FindBusFinds | harness/src/main.cpp:150-158 | exactly the decimal names of 1 to 64 stand for a bus, each for its own |
| ScenarioReader.ParseParams | harness/src/main.cpp:103-137 | parameters and result are those of the object's members, and success leaves the cursor behind the object |
| ScenarioReader.ParseInputBuses | harness/src/main.cpp:140-165 | the same for buses |
| ScenarioReader.ParseScenario | harness/src/main.cpp:168-195 | scenario and result are those of the members of the object at the cursor, with an empty nested object before another member failing; what is read holds what the members say, from an empty scenario of 64 frames on |
| ScenarioReader.ScenarioIsReadIff | harness/src/main.cpp:168-195 | a scenario is read if and only if each member has its shape, down to numbers for known parameters and strings for buses, and no empty nested object stands before another member |
| ScenarioReader.ScenarioHoldsMembers | harness/src/main.cpp:103-195 | whatever scenario is read, its plug-in is the text of the last `plugin`, its duration the number of the last `duration_frames`, its parameters one per known member of every `params` object in order, cut to 16 bits, and its buses number and text of every bus member in order |
| ScenarioReader.EmptyParamsBreakOrder | harness/src/main.cpp:181-184 | two members that are read in one order are refused in the other |
| ScenarioReader.ScenarioIsCollected | harness/src/main.cpp:168-195 | without repeated names and empty nested objects the scenario is what looking up its four members gives |
| ScenarioReader.ScenarioIgnoresOrder | harness/src/main.cpp:168-195 | every order of such members gives the same result |
| ScenarioReader.UnknownMembersAreSkipped | harness/src/main.cpp:189-192 | a member of another name, of any value and at any place, changes nothing |
| ScenarioReader.LoadScenario | harness/src/main.cpp:258-264 | from any text: fails exactly if the text has no object or its members are no scenario, and otherwise gives a scenario that holds what these say |
| ScenarioReader.LayoutAndOrderDoNotShow | harness/src/main.cpp:258-264 | neither whitespace nor member order of a text shows in the scenario |
| BusRecord.StepsCoverDuration | harness/src/main.cpp:301-306 | steps cover the duration with less than a block to spare; the count is negative exactly below -62 frames |
| BusRecord.CopyBlock | harness/src/main.cpp:329-333 | a block overwrites its frames of every bus and no other frame of any bus |
| BusRecord.RunSteps | harness/src/main.cpp:304-340 | each of the 64 buses of the record holds its blocks end to end, whatever the steps render |
| BusRecord.RecordAt | harness/src/main.cpp:329-333 | in such a record, sample k that step s rendered for a bus is at bus * total + 32 s + k |
| Lines.RoundIsNearest | harness/src/nt_runtime.cpp:28-39 | the rounding used for the ideal line is to the nearest integer |
| Lines.TurnIsNext | harness/src/nt_runtime.cpp:35-37 | the two comparisons of the error term lead from the rounded position after k turns to that after k + 1 |
| Lines.LineEnds | harness/src/nt_runtime.cpp:28-39 | the line starts and ends at the given points |
| Lines.LineEndsOnce | harness/src/nt_runtime.cpp:34-34 | the end point is reached in turn max(dx, dy) and not before |
| Lines.LineInBox | harness/src/nt_runtime.cpp:28-39 | no point leaves the bounding box of the ends |
| Lines.LineIsConnected | harness/src/nt_runtime.cpp:28-39 | each point is a neighbour of the one before, one step on along the longer axis |
| Lines.LineIsExact | harness/src/nt_runtime.cpp:28-39 | every point is within half a pixel of the ideal line, and ties go away from the start |
| Lines.OnLineIff | harness/src/nt_runtime.cpp:28-39 | the line consists of exactly the pixels of its box that are within half a pixel of the ideal line along the shorter axis |
| Raster.NibblesAreIndependent | harness/src/nt_runtime.cpp:20-22 | writing one nibble sets it and keeps the other |
| Raster.SetPixel | harness/src/nt_runtime.cpp:17-23 | exactly the one half of the byte at 128 y + x / 2 takes the colour modulo 16, the low half for even columns; no other byte changes, and nothing off screen |
| Raster.DrawLine | harness/src/nt_runtime.cpp:28-39 | for all integer ends the loop stops and paints exactly the points of the exact line that are on screen |
| Raster.DrawBox | harness/src/nt_runtime.cpp:40-45 | paints exactly its four lines |
| Raster.BoxIsPerimeter | harness/src/nt_runtime.cpp:40-45 | the four lines are exactly the perimeter |
| Raster.DrawRectangle | harness/src/nt_runtime.cpp:46-52 | sets exactly the pixels of rectangle and screen, in any order of the corners |
| Circles.OctantShape | harness/src/nt_runtime.cpp:55-68 | in the octant the loop visits, y counts up, x never rises and falls by at most one, and the last offset is next to the diagonal |
| Circles.OctantStaysOutside | harness/src/nt_runtime.cpp:55-68 | from any state the loop keeps, all later offsets lie outside the circle of the radius less one |
| Circles.LastIsFar | harness/src/nt_runtime.cpp:65-68 | from radius 31 on every offset at which the loop can end lies beyond the circle of the radius plus one |
| Circles.CircleDistance | harness/src/nt_runtime.cpp:53-69 | for every radius all offsets lie outside the circle of the radius less one, and they stay within that of the radius plus one if and only if the radius is at most 12, 14 or 15 |
| Raster.DrawCircle | harness/src/nt_runtime.cpp:53-69 | for every radius the loop stops and paints exactly the eight images of the visited octant, whose shape and distance are stated above |
| Raster.CircleIsSymmetric | harness/src/nt_runtime.cpp:57-64 | a pixel is plotted if and only if its image in the first octant was visited; all lie in the square of the radius and touch it |
| Raster.DrawShape | harness/src/nt_runtime.cpp:25-71 | every shape, a circle with the rounded distance of its points as radius, changes exactly the pixels it covers, and these become the colour modulo 16 |
| Raster.ShapesAre | harness/src/nt_runtime.cpp:25-71 | what each shape covers: a pixel, the pixels near a line, a perimeter, an area, and for a circle pixels outside the radius less one and inside its square, touching all four sides |
| Ticks.Runner.RunInnerTicks | plugins/applets/_per_applet_runtime.h:191-214 | runs the ticks of the step for any controller: as many as a set override says, which is used up, else a third of the frames rounded down and at least one |
| Ticks.TickIs | plugins/applets/_per_applet_runtime.h:202-213 | in every tick the applet is handed the frame with each positive countdown one lower, the output 0 exactly where a countdown was 1, and all else kept |
| Ticks.IdleTicks | plugins/applets/_per_applet_runtime.h:202-213 | with an applet that touches nothing, n ticks lower a countdown by n, to 0 at most, and clear exactly the outputs whose countdown was from 1 to n |
| Ticks.TicksAddUp | plugins/applets/_per_applet_runtime.h:202-213 | how ticks are grouped into steps does not matter |
| Ticks.ClearedExactly | plugins/applets/_per_applet_runtime.h:205-211 | an untouched countdown of c at tick s clears the output in tick s + c and in no other |
| Ticks.CountdownIsExact | plugins/applets/_per_applet_runtime.h:202-213 | for any arming trace, a tick clears an output if and only if the latest arming before it falls due in it; otherwise the applet is handed its own output |
| Ticks.TicksFollowFrames | plugins/applets/_per_applet_runtime.h:199-200 | without overrides T ticks for F frames in m steps satisfy 3T <= F <= 3T + 2m |
| Ticks.StepTicksFollowFrames | plugins/applets/_per_applet_runtime.h:199-200 | the bound holds for a step if and only if it has frames |
| Ticks.RunSteps | plugins/applets/_per_applet_runtime.h:191-214 | any sequence of steps and overrides leaves the frame after the total of their ticks, an override counting as it is |
| Inputs.SlotsAreDistinct | plugins/applets/_per_applet_runtime.h:152-169 | later inputs of one kind have later slots |
| Inputs.SlotsFit | plugins/applets/_per_applet_runtime.h:152-169 | with at most four gates and four voltages every slot exists |
| Inputs.SlotIsRank | plugins/applets/_per_applet_runtime.h:152-169 | the slot of an input is the number of inputs of its kind before it |
| Inputs.ReadGate | shim/include/hem_shim.h:30-44 | an edge is reported if and only if a connected input has a high sample behind a low one, against the carried level; the level carried on is the last sample |
| Inputs.Scanner.Populate | plugins/applets/_per_applet_runtime.h:144-170 | every input fills the slot of its rank in its kind from that input's own history, and the other slots are kept |
| Inputs.ReportedIsNear | plugins/applets/_per_applet_runtime.h:163-166 | after every step the input is within 32 of the last reported value |
| Inputs.ReportsAreApart | plugins/applets/_per_applet_runtime.h:163-166 | from one report up to the next, samples stay within 32 of the first; the next is made exactly when one differs by more |
| Inputs.EdgesIgnoreBlocks | shim/include/hem_shim.h:35-43 | edges are those of the unbroken sample stream, however it is cut into blocks |
| Inputs.ScanSteps | plugins/applets/_per_applet_runtime.h:144-170 | over any run of the scanner, with gates connected and disconnected at will, each gate reports in each step exactly the edges of its unbroken stream and its level, each voltage its value and exactly the changes of its own sequence, and the slots hold the levels and reported values that follow |
| Settings.App.ParameterChanged | plugins/apps/_per_app_runtime.h:607-628 | re-applies exactly the setting of the index, for a living app with an apply hook |
| Settings.App.SetParameterFromUi | harness/src/nt_runtime.cpp:213-244 | stores and re-applies exactly the parameter behind the offset, and does nothing out of range |
| Settings.OffsetCancels | harness/src/nt_runtime.cpp:221-223 | the setter takes off the offset that was added, in 32-bit arithmetic and whatever its size |
| Settings.App.PushSettings | plugins/apps/oc_customui_dispatch.h:44-59 | store, settings and calls after the loop; nothing for an app that is not alive or not the host's |
| Settings.PushedSoFar | plugins/apps/oc_customui_dispatch.h:50-58 | each setting is in the store as 16 bits and nothing else changed there; a setting changed only by re-applying its own pushed value |
| Settings.CallsAreDiverged | plugins/apps/oc_customui_dispatch.h:53-57 | the setter is called exactly for diverged settings, once each and in order |
| Settings.PushMirrorsSettings | plugins/apps/oc_customui_dispatch.h:44-59 | the store shows every setting, parameters before the settings are as before |
| Settings.SecondPushIsQuiet | plugins/apps/oc_customui_dispatch.h:44-59 | a second push makes no call if and only if every diverged setting kept its 16-bit value when it was re-applied |
| Settings.PushTwice | plugins/apps/oc_customui_dispatch.h:44-59 | where re-applying keeps values, two pushes keep the settings, and only the first calls the setter |
| Buttons.BitIndex | plugins/apps/_per_app_runtime.h:909-913 | the shifting loop finds the place of the highest bit of any mask, 0 for an empty one |
| Buttons.Ui.EmitEvents | plugins/apps/oc_customui_dispatch.h:76-92 | one event per released control in table order, with its classification, then one per turned encoder |
| Buttons.Ui.TrackControls | plugins/apps/_per_app_runtime.h:926-945 | the press tick moves for exactly the controls that went down |
| Buttons.OfReleases | plugins/apps/oc_customui_dispatch.h:76-89 | among the events of a snapshot each control finds exactly its own |
| Buttons.EarlierControlsFirst | plugins/apps/oc_customui_dispatch.h:76-89 | in a snapshot the events of controls earlier in the table come first |
| Buttons.PressTickIs | plugins/apps/_per_app_runtime.h:940-942 | for a control that is down, the tick remembered is that of the snapshot at which it went down and since which it has been down |
| Buttons.EventAtIs | plugins/apps/_per_app_runtime.h:878-890 | a control gives an event exactly on release: a press for a hold below 8333 ticks, else a long press if these are mapped and a long release if not |
| Buttons.RunUi | plugins/apps/oc_customui_dispatch.h:68-96 | over any run from nothing held, each control has one event per release, classified by the ticks since the press before it, for either mapping of long presses, and each encoder its turns in order |
| Buttons.EventsMatchPresses | plugins/apps/oc_customui_dispatch.h:68-96 | the events of a control are as many as its presses, less one if it is still held |
| Upload.AddCheckSum | harness/scripts/push_plugin_to_device.py:97-102 | appends the 7-bit complement of the sum from index 7 on |
| Upload.BuildMessage | harness/scripts/push_plugin_to_device.py:158-191 | the appended bytes are the message for that stretch of the file |
| Upload.MessageIsFramed | harness/scripts/push_plugin_to_device.py:160-191 | framing bytes at the ends, 7-bit bytes between them, and a sum of 0 modulo 128 from index 7 through the checksum |
| Upload.MessageLayout | harness/scripts/push_plugin_to_device.py:160-188 | where everything stands in a message: header with opcode 4, path, create flag, position and length in groups highest first, nibbles high one first |
| Upload.SeptetsCarry32Bits | harness/scripts/push_plugin_to_device.py:165-184 | the ten groups carry exactly the low 32 bits of a number |
| Upload.NibblesCarryBytes | harness/scripts/push_plugin_to_device.py:185-188 | the nibble pairs decode to the bytes |
| Upload.DecodeInvertsMessage | harness/scripts/push_plugin_to_device.py:160-191 | a receiver that checks frame, length and checksum gets back path, position, create flag and bytes |
| Upload.UploadFile | harness/scripts/push_plugin_to_device.py:143-201 | the loop ends; the messages are those of consecutive chunks; it fails exactly at a bad reply, which is to the last message sent; nothing is sent exactly for an empty file |
| Upload.AssembleMessages | harness/scripts/push_plugin_to_device.py:153-195 | the first n messages assemble to the first 512 n bytes of the file |
| Upload.UploadAndAssemble | harness/scripts/push_plugin_to_device.py:143-201 | a finished upload delivers the file, one that stops at a bad reply a prefix of it |
| Glyphs.MatchGlyph | harness/verifier/parser.py:30-36 | the result agrees better with the cell than every glyph before it and at least as well as every one behind it; `#` for an empty font |
| Glyphs.RestDoesNotCount | harness/verifier/parser.py:33-33 | of lists of different length only the common part is compared |
| Glyphs.FlippedCellIsDecoded | harness/verifier/parser.py:30-36 | in a font with bitmaps at least d apart, fewer than d/2 flipped pixels leave the glyph the only best match, in any order of the font |
| Glyphs.DecodeCell | harness/verifier/parser.py:30-36 | so the loop decodes it |
| Glyphs.CellReadsBitmap | harness/verifier/parser.py:22-27 | a block of the screen reads as a bitmap if and only if exactly the bitmap's pixels are lit, at any brightness |

## Left out

- Writer.JsonStream.AddFloat: the text of a float is a parameter, because `%g` is the C library's, and which values print as `nan` or `inf` is not modelled; floats stay tokens throughout.
- Writer.JsonStream.Buffer: needs a context above the bottom one while the automatic root is open; a caller that closes the root with `closeArray` makes the C++ code pop an empty stack.
- ParseHost.JsonParse.Number: the integer of a token with a dot or an exponent is a parameter (`strtod` and two casts); `number(float&)` is not modelled, as it differs only in the value delivered.
- ParseHost.JsonParse.constructor: assumes a 64-bit `long` in `strtol`, and does not model the arena's size as a 32-bit index.
- Raster.DrawShape: coordinates are unbounded, so overflow of `int` near its limits is not modelled; the radius is the exact integer square root, which the double one gives as long as the squares do not overflow; the float variant, which truncates and calls this one, and text are not part of the model.
- Ticks.Runner.RunInnerTicks: ticks and countdowns are unbounded integers, and the clock manager's own tick is part of the abstract controller.
- Inputs.Scanner.Populate: the average of a bus over a block and the gate threshold are float arithmetic; the model starts from the integer voltage and the boolean samples.
- Buttons.RunUi: the table of controls is any table of distinct bits and controls; the screensaver stamp is not modelled.
- Settings.App.PushSettings: applying a setting is an arbitrary function of that setting and value; hooks that change other settings are not covered.
- BusRecord.RunSteps: what a step renders is a parameter of the step's number; input buses are silent in the C++ code and do not appear.
- Upload.UploadAndAssemble: paths are ASCII without NUL, device ids are below 128 and files below 4 GiB, as the message format needs; message transport is a predicate telling which replies are acknowledgements.
- `addFourCC`: four bytes passed on to `addString`, so an easy case of it.
- `emit_base_parameters` and `write_outputs_to_bus`: table layout and float mixing, which would add only easy members.
- The base64 helpers of the app runtime, which nothing calls.
- Numeric readout and scope classification of the verifier, which are float computations on top of the decoded glyphs.
- Command line, files, MIDI ports, the plug-in loader, fonts and text drawing, the vendor applets and their drawing.
