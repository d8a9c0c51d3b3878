# Verified models of the firmware's self-contained components

The firmware drives a C64 cartridge; most of it talks to hardware. This project models the parts
that do not, and proves what they are for:

- the JSON tokenizer, tree builder and printers (`software/api/jsmn.h`, `json.cc`, `json.h`), in
  the configuration `json.cc` compiles: strict, with parent links; and the formatted output the
  stream printer goes through (`software/system/small_printf.cc`);
- the wildcard matcher and the two PETSCII name codecs (`software/components/pattern.cc`);
- the REST mouse: validation, report queue, pacing timer (`software/api/input_api.h`,
  `rest_mouse_queue.h`, `route_input.cc`), and the keys held for the menu (`route_input_menu.h`);
- the configuration page (`software/components/config.cc`);
- the Intel HEX writer and reader (`tools/bin2hex.c`, `tools/hex2bin.c`);
- the growing list with its comb sort, and replacing in strings
  (`software/components/indexed_list.h`, `mystring.cc`);
- the CRC of the 1581's address fields (`software/drive/c1581.cc`) and the two-pass assembler
  (`tools/parse_nano.py`), against the decoder of the processor it assembles for
  (`fpga/ip/nano_cpu/vhdl_source/nano_cpu.vhd`).

## How it is laid out

Each component has a specification on values, the code itself as methods that change arrays and
objects and are proved to refine it, and lemmas about the specification. Where a format, a table
or a request has a meaning of its own, that meaning is written down a second time without the
specification's functions and proved equal to it.

| component | on values | in place | laws |
|---|---|---|---|
| tokenizer | `Jsmn` | `JsmnParser` | `JsmnInvariants`, `JsmnStrict`, `JsmnEnds`, `JsmnResume`, `JsonSpelling`, `JsonLexis` |
| JSON trees | `Json`, `JsonTokens` | `Json`, `JsonConvert` | `JsonTree`, `JsonConvertSteps`, `JsonRoundTrip`, `JsonReading`, `JsonAcceptance`, `JsonNumbers`, `JsonPrinted`, `JsonEnds`, `JsonOwners` |
| JSON streams | `Printf`, `JsonStream` | `Printf.Stream`, `JsonStream` | `JsonStream` |
| names | `Petscii`, `PetsciiText`, `PetsciiFat`, `Glob` | the same modules | `PetsciiText`, `PetsciiSpelling`, `PetsciiFatRoundTrip`, `FatSpelling`, `GlobCase` |
| mouse | `MouseInput`, `MouseQueue`, `MousePacing` | `MouseRing`, `RestMouseDevice` | `MouseRequests`, `MouseQueue`, `MouseReports`, `MousePacing`, `MouseDraining`, `RestMouseDevice` |
| menu keys | `MenuKeys` | `MenuKeyboard` | `MenuKeys`, `MenuTyping` |
| configuration | `Config`, `PageBytes` | `ConfigObjects` | `PageBytes`, `ConfigObjects`, `ConfigRoundTrip`, `ConfigLayout` |
| Intel HEX | `IntelHex`, `IntelHexReader` | `IntelHex.Output`, `IntelHexReader.Input` | `IntelHexRoundTrip`, `IntelHexSegments` |
| lists, strings | `IndexedList`, `Replacing` | `IndexedList.IndexedList`, `MString` | the same modules |
| CRC | `Crc16` | `Crc16` | `Crc16` |
| assembler | `NanoAssembler` | `NanoObject` | `NanoPasses`, `NanoDecode` |

`dafny verify dfyconfig.toml` checks everything.

## What came out

Some expectations one could have of the code do not hold; each is stated exactly.

- Reserved device names: `petscii_to_fat` puts braces in front of a name that is a device name,
  but it looks at the name with its padding and then drops the padding. `CON` and one shifted
  space come out as `CON` (`PaddedDeviceExample`); `DeviceNamesExactly` and `PaddedDeviceNames`
  say for all names when this happens.
- The two JSON printers do not always give the same text. One call of the stream's `format` writes
  at most 9999 characters, so a string of 9998 or more loses its closing quote, or more, and a key
  of 9993 or more part of what follows it (`LongStringExample`). The texts are the same if and only
  if no string has more than 9997 characters and no key more than 9992 (`StreamTextExactly`). A
  string printed too long by itself is refused by the tokenizer (`LongStringIsRefused`).
- A text with a second value at the top, like `[] []`, is accepted. The object handed out is the
  first, and the others are never deleted (`SecondListExample`). Deleting it deletes no object
  twice, and all of them if and only if only the first token has no parent (`FreedExactly`).
- The tokenizer takes a token for an opening bracket before it looks whether the bracket may
  stand there. Below an object it may not, and the parse stops with one token too many, blank,
  which starts nowhere: after `{[` the tokens' starts do not increase (`RefusedBracketExample`).
  A parse keeps the whole invariant if and only if it does not stop with `JSMN_ERROR_INVAL` at
  an opening bracket; if it does, all but the last token keep it (`RunKeepsInv`). It stops there
  if and only if it comes to an opening bracket below an object with a token left
  (`RefusedByGuard`).
- The NUL written behind a JSON token falls into another token's bytes exactly where a primitive
  follows, with nothing between, a bracket that closes something (`EndFallsByText`). It then
  counts as the number 0, whatever it was (`PrimitiveMade`): `[[1]2]` is taken for `[[1],0]`
  without an error (`ClashingConverts`). Printed trees never have that (`PrintedIsParsed`).
- The tree read from a text keeps less than the text says: escapes in strings stay as they are
  written, fractions and exponents of numbers are cut off, and null is the number 0
  (`SpelledParses`).
- A bare number or boolean, alone at the top, is refused by the strict tokenizer for want of a
  delimiter (`TokenizePrinted`, `PrintThenParse`).
- `hex2bin` takes a highest offset of 0 for a failure, so files of no byte or one are not
  written (`HexRoundTrip`).
- In a file with segment records (type 2) `hex2bin` puts a data record's own address in place of
  the low 16 bits of the segment's. It lands where the format says if and only if the segment is a
  multiple of 1000 hex (`SegmentsExactly`, `SegmentExample`).
- A string's `alloc` has 16 bits and a sign: after a replacement it is the size of the buffer if and
  only if that is below 32768, and otherwise less (`MString.Short`).
- The assembler's passes disagree when a `.blk` or `=` uses a name that is defined further down
  and is not 0 (`LateBlockDisagrees`); `PassesAgree` gives the exact condition.
- The mouse's clock register has 32 bits. When it has gone round since the last report, an idle
  queue may hold its first report back; `IdleQueueSendsAtOnce` says exactly when, and
  `WrappedClockExample` is a run in which it happens. The delay is never longer than the
  shortest spacing (`HeldBackNoLonger`), and the spacing itself is never violated
  (`SendsAreSpaced`).

## Model

| member | source | states |
|---|---|---|
| Jsmn.Step | software/api/jsmn.h:282-446 | one turn of the parse loop moves on inside the text, or stops and leaves the state as it was, but for the blank token a refused bracket has taken |
| JsmnParser.Parser.AllocToken | software/api/jsmn.h:113-126 | takes the next slot, blank, or reports that there is none and changes nothing |
| JsmnParser.Parser.ParsePrimitive | software/api/jsmn.h:142-195 | the scan, the error codes and the token pushed are those of `Bare`; on an error the position is back at the start |
| JsmnParser.Parser.ParseString | software/api/jsmn.h:200-269 | the same for strings and their escapes, with and without a token array |
| JsmnParser.Parser.CloseContainer | software/api/jsmn.h:315-342 | the walk up the parent links closes the token that `Close` names, or fails as it does |
| JsmnParser.Parser.OpenContainer | software/api/jsmn.h:288-314 | an opening bracket is `Open`; a refused one leaves its token blank with the kind the array held there |
| JsmnParser.Parser.Turn | software/api/jsmn.h:282-446 | one turn of the loop on the array is one `Step`, whatever its result |
| JsmnParser.Parser.Parse | software/api/jsmn.h:274-458 | the loop over a token array computes `Run`: result, tokens, position and superior token, errors included, but for the kind of a token left blank |
| JsmnParser.Parser.Count | software/api/jsmn.h:274-458 | the loop without a token array computes `DryRun` |
| JsmnInvariants.StepKeepsInv | software/api/jsmn.h:282-446 | a turn, on any text, keeps parents below children, starts increasing, closed spans inside the text, and all open tokens on the last token's chain, if and only if it does not refuse an opening bracket below an object for which it has a token; without that token all of it holds then too |
| JsmnInvariants.RunKeepsInv | software/api/jsmn.h:274-458 | over whole runs the invariant holds where the run stops if and only if that is not an opening bracket refused with `JSMN_ERROR_INVAL`; without the blank token it holds there too; success means the count is the number of tokens and all of them are closed, and the array is never overrun |
| JsmnInvariants.ParseKeepsInv | software/api/jsmn.h:274-458 | the same for every parse that starts fresh |
| JsmnInvariants.RefusedByGuard | software/api/jsmn.h:294-304 | a parse ends with a blank token if and only if it comes to a state in which the next character is an opening bracket, there is a token for it, and the superior token is an object |
| JsmnInvariants.RefusedBracketExample | software/api/jsmn.h:294-304 | after `{[` the second token is blank and starts in front of the first |
| JsmnInvariants.WalkFindsLastOpen | software/api/jsmn.h:321-342 | the walk at a closing bracket ends at the open token with the highest number |
| JsmnInvariants.ClosingKeepsInv | software/api/jsmn.h:327-333 | closing that token keeps all of the invariant |
| JsmnInvariants.EndFallsExactly | software/api/json.cc:35-41 | after any successful parse the byte behind a token lies in another leaf if and only if the leaf is a primitive, the token is none, and one ends where the other starts |
| JsmnEnds.EndFallsByText | software/api/json.cc:35-41 | the same read off the text: a token's end falls on a leaf that starts at a place if and only if the parse comes to a closing bracket right in front of it with a container open, and a primitive starts there |
| JsmnEnds.ClashingExample | software/api/jsmn.h:274-458 | the parse of `[[1]2]` succeeds with four tokens, and the second ends in the fourth |
| JsmnEnds.StrayBracketExample | software/api/jsmn.h:335-340 | in `[]:]1 ` the second bracket closes nothing and no end falls into the 1, so that the condition cannot do without the open container |
| JsmnResume.ResumeEqualsRestart | software/api/jsmn.h:280-297 | a parse stopped for lack of tokens and continued with a larger array equals one run with that array; any other end does not depend on the array's size |
| JsmnResume.MoreTextEqualsRestart | software/api/jsmn.h:280-458 | a parse of the front of a text that ended, or stopped inside a token there, and is continued on the whole text equals one parse of it; any other stop does not depend on what follows |
| JsmnResume.DryRunAgrees | software/api/jsmn.h:288-293 | whenever a parse succeeds, counting without an array gives the same number |
| JsmnResume.DryRunSizesTheArray | software/api/jsmn.h:180-188 | with as many tokens as the dry run counts no parse runs out; with fewer none succeeds |
| JsonSpelling.TokenizeSpelled | software/api/jsmn.h:274-458 | for every tree and every spelling of it that RFC 8259 allows, with any white space or none between its parts and around it, simple and \u escapes, fractions, exponents and names, tokenizing gives exactly the tree's tokens as soon as there is room, and counting their number; only a number or name that ends the text waits for more |
| JsonLexis.PrimitiveExactly | software/api/jsmn.h:142-195 | a primitive is found at the first blank, comma or closing bracket if only printing ASCII stands before it, it waits for more if the text ends first, and anything else is refused |
| JsonLexis.StringExactly | software/api/jsmn.h:200-269 | a string is found at a quote exactly if what stands before it is a row of characters and whole escapes, and refused exactly if such a row is followed by a backslash with no escape behind it |
| JsonLexis.OtherCharacters | software/api/jsmn.h:282-446 | outside of strings and primitives every character but white space, brackets, colon, comma, quote and the first ones of primitives is an error, and white space only moves on |
| JsmnStrict.ParseIsStrict | software/api/jsmn.h:274-458 | after any successful parse each container spans from its opening bracket to a closing one of the same kind, each size is the number of children, objects have only strings below them, and a key has a primitive only as its first child |
| Json.IntRoundTrip | software/api/json.cc:64-67 | strtol reads back every 32-bit number that was printed |
| Json.RenderText | software/api/json.h:43-87 | printing into a string appends exactly `Render` of any tree |
| Json.RenderObjectText | software/api/json.h:188-203 | the loop over an object's members appends the specified text |
| Json.RenderListText | software/api/json.h:340-351 | the loop over a list's items does |
| Printf.Convert | software/system/small_printf.cc:13-52 | the digits collected last first and turned round are the number's text |
| Printf.Stream.VnPrintf | software/system/small_printf.cc:83-223 | the loop over the format writes the first `maxlen` characters of the format with its arguments put in, and nothing more |
| Printf.Stream.Format | software/io/stream/stream_ramfile.h:84-93 | one call writes at most 9999 characters of that |
| JsonStream.RenderObject | software/api/json.h:218-229 | printing an object to a stream writes each key and each value cut by its own call of `format`, and the separators whole |
| JsonStream.RenderList | software/api/json.h:364-373 | the same for lists |
| JsonStream.StreamTextExactly | software/api/json.h:43-58 | for every tree of 32-bit numbers the stream gets the text the string printer gives if and only if no string has more than 9997 characters and no key more than 9992 |
| JsonStream.LongStringIsRefused | software/api/json.h:58 | every longer string loses its closing quote, and the tokenizer then finds the text unfinished |
| JsonStream.LongStringExample | software/api/json.h:58 | 9998 letters come out with no quote behind them |
| JsonStream.StreamThenParse | software/api/json.cc:132-161 | what was printed to a stream parses to the tree again when strings and keys are short enough |
| JsonTokens.TokenizePrinted | software/api/jsmn.h:274-458 | tokenizing the printed text of any tree gives exactly the tree's tokens, with spans, sizes and parents, whenever there is room; only a bare number or boolean is refused |
| JsonTokens.StepClose | software/api/jsmn.h:315-342 | in printed text each closing bracket closes the container being filled |
| JsonConvert.Convert | software/api/json.cc:23-130 | the loop that writes NULs into the text, retypes keys and fills the object table computes `ConvertFrom` |
| JsonConvert.Build | software/api/json.cc:44-83 | the object made for one token, and the change of a key's type |
| JsonConvert.Link | software/api/json.cc:88-120 | linking an object to its parent's, or dropping it and marking the text invalid, for every shape of the token list |
| JsonTree.ConvertKeepsForest | software/api/json.cc:88-120 | whatever the tokens, objects are linked only to objects of later tokens and to each at most once, so the result is a forest and no object is owned twice |
| JsonOwners.FreedExactly | software/api/json.cc:123-129 | deleting the object handed out for an accepted text deletes no object twice, and deletes every object if and only if no token but the first has parent -1 |
| JsonOwners.SecondListExample | software/api/json.cc:123-129 | `[] []` is accepted and its second list is not deleted |
| JsonConvertSteps.LeafReads | software/api/json.cc:41-67 | the C string of a leaf is its own content from its turn on, although NULs are still being written |
| JsonConvertSteps.ConvertOneIs | software/api/json.cc:35-121 | one turn on the cut-up text does what a table step on the original text does |
| JsonEnds.PrimitiveMade | software/api/json.cc:41-67 | in the loop's turn for a number or boolean of any accepted text, the object is the number 0 if it stands right behind a bracket that closes something, and what its text says otherwise |
| JsonEnds.ClashingConverts | software/api/json.cc:132-161 | `[[1]2]` is accepted and read as a list of a list of 1, and 0 |
| JsonRoundTrip.PrintedIsParsed | software/api/json.h:188-373 | the tokens of printed text meet what `convert` relies on: no NUL ever lands in another token's bytes |
| JsonRoundTrip.TreeOfNodes | software/api/json.h:123-139 | following the links from an object gives the tree back |
| JsonRoundTrip.ConvertText | software/api/json.cc:132-161 | tokenizing and converting in place computes `ParseText`, error codes included |
| JsonRoundTrip.PrintThenParse | software/api/json.cc:132-161 | print then parse is the identity on all trees of printable strings, 32-bit numbers, booleans, lists and objects; a bare number or boolean at the top is the one exception |
| JsonReading.SpelledParses | software/api/json.cc:132-161 | for every tree and every spelling of it that RFC 8259 allows, parsing gives the tree: members and items in order, strings and keys as they are written, numbers cut to their whole part and to 32 bits, null as 0 |
| JsonReading.CompactExample | software/api/json.cc:132-161 | `{"x":5}` is an object with the member x, 5 |
| JsonAcceptance.AcceptedExactly | software/api/json.cc:23-161 | a text is made into objects if and only if tokens are found and no value stands behind something that is neither a key nor a list; then every list holds the tokens that belong to it in their order, every object such with its keys, and every leaf its own text, a primitive right behind a closing bracket being 0 |
| JsonNumbers.HexRead | software/api/json.cc:64-67 | 0x and hexadecimal digits, blanks and a sign before them, are the number they spell up to the first other character, or the nearest of 32 bits |
| JsonNumbers.OctalRead | software/api/json.cc:64-67 | the same for octal digits behind a 0 |
| JsonNumbers.DecimalRead | software/api/json.cc:64-67 | and for decimal digits |
| JsonPrinted.PrintedIsSpelled | software/api/json.h:188-373 | what the printer prints is, blank by blank and line by line, an RFC 8259 spelling of the tree, and that spelling stands for the same tree |
| Glob.PatternMatch | software/components/pattern.cc:84-128 | the loop returns true exactly when the declarative glob relation holds, within (pattern+1)(fixed+1) turns |
| Glob.LastStarSuffices | software/components/pattern.cc:98-104 | forgetting all stars but the last loses no match |
| Glob.StarDoesNotEndThePattern | software/components/pattern.cc:78-83 | at the end of the fixed string only stars may be left of the pattern |
| GlobCase.MatchExactly | software/components/pattern.cc:84-128 | a pattern matches exactly the strings that can be cut into one piece for each of its characters: any run for a star, any character for a question mark, the same one for the rest |
| GlobCase.CaseFoldsLetters | software/components/pattern.cc:106-114 | two characters are the same if they are equal or, unless the caller asks for the case, the two cases of one of the 26 letters, and in no other case |
| GlobCase.LiteralMatches | software/components/pattern.cc:84-128 | a pattern without stars and question marks matches the strings that are the same character by character |
| PetsciiText.PetsciiToText | software/components/pattern.cc:554-592 | writes exactly `Text` and its NUL within `len`, and returns true exactly when every byte got in |
| PetsciiText.TextToPetscii | software/components/pattern.cc:594-637 | decodes as `Decode` does, refuses exactly what that refuses, and stays inside the buffer |
| PetsciiText.TextRoundTrip | software/components/pattern.cc:537-637 | whatever the room, the text decodes to the normalised bytes that got in: 61-7A become C1-DA without `lossless`, all others stay |
| PetsciiText.LosslessRoundTrip | software/components/pattern.cc:554-637 | lossless text decodes to exactly the prefix of the name that got in |
| PetsciiText.LosslessTextsDiffer | software/components/pattern.cc:554-592 | two names with the same complete lossless text are the same name |
| PetsciiSpelling.ShownExactly | software/components/pattern.cc:540-570 | which byte shows as which character, and which show as none, lossless or not |
| PetsciiSpelling.TextExactly | software/components/pattern.cc:554-592 | the text of a name is its shown bytes as those characters and runs of the others in hexadecimal between braces, up to the first byte before which fewer than five characters are left |
| PetsciiSpelling.DecodesExactly | software/components/pattern.cc:594-637 | a text is read as some bytes if and only if it is a row of shown characters and of pairs of digits between braces that stand for them, none of them 0, and they and a NUL fit |
| PetsciiFat.PetsciiToFat | software/components/pattern.cc:397-485 | writes exactly `FatName` and its NUL, reserved names, trimming, escapes and type braces included |
| PetsciiFat.FatNameFits | software/components/pattern.cc:430-484 | name and NUL fit the given length, whatever the name |
| PetsciiFat.FatToPetscii | software/components/pattern.cc:487-535 | decodes as `PetName` does, with and without cutting an extension |
| PetsciiFatRoundTrip.FatRoundTrip | software/components/pattern.cc:397-535 | decoding a FAT name, bare or with an extension of three appended and cut off, gives the bytes that got in |
| PetsciiFatRoundTrip.EnoughRoom | software/components/pattern.cc:436-476 | three characters a byte and four more are room for the whole name without its trailing shifted spaces |
| PetsciiFatRoundTrip.FatNameLegal | software/components/pattern.cc:448-470 | no character FAT forbids, no lower case letter, no leading dot |
| PetsciiFatRoundTrip.FatNamesDiffer | software/components/pattern.cc:397-485 | names that differ after trimming have FAT names that differ in more than case |
| PetsciiFatRoundTrip.DeviceNamesExactly | software/components/pattern.cc:390-432 | the FAT name is a reserved device name if and only if the name is not recognised as one but the bytes that get in are one |
| PetsciiFatRoundTrip.PaddedDeviceNames | software/components/pattern.cc:399-445 | with room enough, if and only if the name is a bare device name with padding behind it |
| PetsciiFatRoundTrip.PaddedDeviceExample | software/components/pattern.cc:399-445 | CON and one shifted space become the bare name CON |
| FatSpelling.FatNameExactly | software/components/pattern.cc:397-485 | the FAT name: braces in front of a device name, the bytes up to the first that finds no room with each run of listed ones in hexadecimal between braces, and braces behind what ends like one of four file types, if they fit |
| FatSpelling.ByteStands | software/components/pattern.cc:448-470 | each byte stands for itself if it is not listed (below 20, from 60 up, eight signs, a dot in front), and in hexadecimal if it is |
| FatSpelling.HexPairIs | software/components/pattern.cc:432 | a byte in hexadecimal is two digits with capitals, the high one first |
| FatSpelling.FirstOutExactly | software/components/pattern.cc:452-465 | the byte at which the name stops is the first with too few characters left: five for a listed byte, three for another |
| FatSpelling.TrimExactly | software/components/pattern.cc:441-447 | what is dropped at the end is all shifted spaces and nothing else |
| FatSpelling.PlainNameStays | software/components/pattern.cc:397-485 | a name of other bytes that is no device and fits comes out as it is, with braces behind it exactly if it looks typed and they fit |
| FatSpelling.SpaceStays | software/components/pattern.cc:449 | `A B` stays `A B` |
| PetsciiSpelling.PlainFatName | software/components/pattern.cc:487-535 | a FAT name without braces is read in capitals, letter by letter, without its extension of at most three characters if that is asked for |
| MouseInput.ReadButtons | software/api/input_api.h:514-538 | the loop over button names accepts exactly lists of known names without repetition |
| MouseInput.ReadPath | software/api/input_api.h:600-618 | the loop over a path accepts exactly lists of pairs of integers in range, and reads them |
| MouseInput.ButtonsAreNamed | software/api/input_api.h:514-538 | the button set holds exactly the buttons named |
| MouseInput.MouseEventsAreValidated | software/api/input_api.h:543-665 | every JSON object that passes is a mouse event in the ranges the queue relies on |
| MouseInput.ValidateBatch | software/api/input_api.h:710-745 | a batch is accepted exactly when each of its events is; else the first one that is not is told |
| MouseRequests.EventReads | software/api/input_api.h:633-707 | an object is accepted as a mouse event if and only if it says so: its kind is mouse, it has the members of one thing to do and no other, and the buttons, numbers, steps, transition and interval of the event are the values of the members of those names, or their defaults |
| MouseRequests.OrderIsFree | software/api/input_api.h:633-707 | the order of an event's members does not matter |
| MouseRequests.AxesAreFree | software/api/input_api.h:543-585 | nor does that of the members of a move or of a turn of the wheel |
| MouseRequests.SpelledReads | software/api/input_api.h:497-665 | every mouse event in range is read from the object spelled for it, in any order and with members at their defaults left out |
| MouseRequests.RootReads | software/api/input_api.h:710-735 | a batch is an object with the one member events, a list of 1 to 64 entries |
| MouseQueue.RoundedTicks | software/api/rest_mouse_queue.h:68-72 | rounds up to the fewest ticks that are as long, and at least one |
| MouseQueue.TicksForIsLeast | software/api/rest_mouse_queue.h:68-72 | as long as the milliseconds, and one tick less is not |
| MouseQueue.ReportsAreExact | software/api/rest_mouse_queue.h:75-90 | a validated event makes as many reports as reportsFor says, and all their numbers fit the report's narrow fields |
| MouseQueue.AppendIsExact | software/api/rest_mouse_queue.h:115-155 | appending an event that fits adds exactly its reports, none cut or dropped |
| MouseQueue.BatchFitsExactly | software/api/rest_mouse_queue.h:95-110 | the counting loop accepts the rest of a batch if and only if applying it event by event never reaches the silent drop |
| MouseQueue.AdmissionIsExact | software/api/route_input.cc:903-911 | the same for a whole batch on a queue |
| MouseQueue.ReportsConserve | software/api/rest_mouse_queue.h:115-155 | the reports of an event add up to its displacement and detents |
| MouseReports.ButtonsDo | software/api/rest_mouse_queue.h:118-127 | per button: a press leaves down what was down and the named ones, a release takes exactly these out; a tap makes two reports, the first with the named ones down, the second with them up after the hold time, all others as before |
| MouseReports.MoveDoes | software/api/rest_mouse_queue.h:128-130 | a move is one report with its displacement, at once, the buttons as they are |
| MouseReports.WheelDoes | software/api/rest_mouse_queue.h:131-140 | a report a detent, the vertical ones first, each of one detent in its direction |
| MouseReports.PathDoes | software/api/rest_mouse_queue.h:141-150 | report i has the displacement of step i, and for i > 0 a wait of the fewest ticks as long as the interval |
| MouseReports.TailIsHistory | software/api/rest_mouse_queue.h:115-155 | in every reachable state the buttons the queue leaves down are those whose last event is a press, no release of all behind it |
| MouseRing.RestMouseQueue.PushReport | software/api/rest_mouse_queue.h:38-52 | the ring of 1024 holds the pending reports in order; a full ring drops the new one |
| MouseRing.RestMouseQueue.Append | software/api/rest_mouse_queue.h:115-155 | the loops push exactly the event's reports |
| MouseRing.RestMouseQueue.TakeDue | software/api/rest_mouse_queue.h:158-171 | hands out the oldest report exactly when it is due, and only then removes it |
| MouseRing.RestMouseQueue.Admits | software/api/rest_mouse_queue.h:95-110 | computes the admission; on refusal the numbers told are those of a part of the batch between releases that does not fit |
| MousePacing.MouseEventKeepsClock | software/api/route_input.cc:300-305 | the clamp of an idle queue moves the register's moment on, never past now, and to at most the idle time ago |
| MousePacing.TimerKeepsPace | software/api/route_input.cc:266-282 | a report sent by the timer leaves long enough after the one before, register wrap-around included |
| MousePacing.RunsArePaced | software/api/route_input.cc:266-319 | holds over every run of batches, ticks, releases and time passing |
| MousePacing.RunsAreOrdered | software/api/route_input.cc:266-319 | in every reachable state delivered and pending reports are those of the accepted events in order, a queue with reports has a running timer, and a detached mouse has an empty queue |
| MousePacing.SendsAreSpaced | software/api/route_input.cc:187-195 | two consecutive sends are at least the shortest spacing and the second's wait apart |
| MousePacing.SendsAreInOrder | software/api/route_input.cc:266-319 | reports leave first in, first out |
| MousePacing.MotionIsConserved | software/api/rest_mouse_queue.h:115-171 | between releases, motion sent plus motion pending is the motion asked for |
| MousePacing.TimerSendsExactly | software/api/route_input.cc:266-282 | a tick sends the first report if and only if it is due |
| MousePacing.IdleQueueSendsAtOnce | software/api/route_input.cc:300-309 | the first report on an idle queue leaves at the next tick if and only if the register does not say that less than the shortest spacing has gone by |
| MousePacing.HeldBackNoLonger | software/api/route_input.cc:300-309 | in any case it leaves at the first free tick that comes the shortest spacing later, or any later one below 2^31 ticks |
| MouseDraining.EveryReportLeaves | software/api/route_input.cc:266-282 | in every reachable state a queue of n reports is empty after n free ticks that come at least the longest wait apart, and all reports have left in order |
| MouseDraining.SpacedInMilliseconds | software/api/route_input.cc:187-195 | in every run two reports are sent at least 20 milliseconds apart |
| MouseDraining.EventDelaysNothing | software/api/route_input.cc:284-308 | accepting an event while reports are waiting does not change when the first of them is sent |
| MousePacing.WrappedClockExample | software/api/route_input.cc:266-309 | a report sent, 2^32 ticks of nothing, a move posted: the next tick does not send it |
| RestMouseDevice.RestMouse.TimerCallback | software/api/route_input.cc:266-282 | the callback on the module's state is `TimerTick` |
| RestMouseDevice.RestMouse.ApplyMouseEvent | software/api/route_input.cc:284-308 | attaching, the clamp and the append are `ApplyMouse` |
| RestMouseDevice.RestMouse.HandlePost | software/api/route_input.cc:901-915 | a batch is refused as a whole exactly when it would drop a report, and applied as a whole otherwise |
| RestMouseDevice.RunIsOnDevice | software/api/route_input.cc:266-319 | what the contracts of callback, post handler and release say of the object, one after the other at the times given, is a run: same state, same reports sent at the same times |
| RestMouseDevice.RestMouse.PerformAll | software/api/route_input.cc:266-319 | calling them on a fresh object leaves the state and sends the reports of the run, so that the laws of runs hold of the object |
| MenuKeys.RunKeepsInv | software/api/route_input_menu.h:20-71 | in every reachable state a modifier flag is up exactly when a held key has it, and the repeat is on exactly when one key that is no modifier is held, naming it |
| MenuKeys.HeldIsHistory | software/api/route_input_menu.h:86-178 | the held keys are exactly those pressed and not released since the last clear or menu change |
| MenuKeys.DelayThenKey | software/api/route_input_menu.h:201-218 | the delay's ticks type nothing, the next one types the key, then the delay is the repeat speed |
| MenuKeys.SameKeyKeepsDelay | software/api/route_input_menu.h:64-70 | a change that leaves the same single key held does not restart its delay |
| MenuTyping.TypesExactly | software/api/route_input_menu.h:103-155 | in every reachable state a press or tap types, in the request's order, the code of each key that is no modifier and has one, under flags with exactly the bits of the keys still pressed and of the request's own; a release types nothing |
| MenuTyping.TakesBackExactly | software/api/route_input_menu.h:180-199 | what a release takes back: such codes under the bits of the keys still pressed before it |
| MenuTyping.FlagsAreOne | software/api/route_input_menu.h:108-126 | there are such flags, and only one such byte |
| MenuTyping.TypedIsOne | software/api/route_input_menu.h:138-155 | and only one such list of codes |
| MenuTyping.RepeatsExactly | software/api/route_input_menu.h:201-218 | a tick types something only while exactly one plain key is still pressed, and when its delay is over that key's code under those flags |
| MenuTyping.DelayStarts | software/api/route_input_menu.h:34-71 | a tap changes nothing that is held; after a press or release that leaves one plain key that key repeats, with the whole first delay unless it was the one before |
| MenuKeyboard.MenuKeyboardState.ApplyKeyboardEvent | software/api/route_input_menu.h:157-178 | the bytes of the matrix, the flags, the repeat and the typed keys after an event |
| MenuKeyboard.MenuKeyboardState.ModifierFlags | software/api/route_input_menu.h:20-32 | the union of the held keys' flags |
| MenuKeyboard.MenuKeyboardState.FindPlain | software/api/route_input_menu.h:34-62 | the scan of the keyboard map finds whether none, one or more plain keys are held, and which |
| MenuKeyboard.MenuKeyboardState.CollectReleaseKeys | software/api/route_input_menu.h:180-199 | the codes a release takes back, under the modifiers held before it |
| MenuKeyboard.MenuKeyboardState.RepeatTick | software/api/route_input_menu.h:201-218 | one tick of the repeat timer |
| Config.GatherInt | software/components/config.cc:682-687 | the bytes of a 32-bit number, shifted together again, are the number, negative ones too |
| Config.RecordRestores | software/components/config.cc:672-759 | an item's own record restores it, whatever it held |
| ConfigLayout.RecordsAreLaidOut | software/components/config.cc:707-759 | the bytes of every record: id, type, length, and four bytes of a number with the highest first, one of a choice, or the characters of a text |
| ConfigLayout.RecordIsOne | software/components/config.cc:707-759 | and no other bytes are an item's record |
| ConfigLayout.NumberComesBack | software/components/config.cc:672-693 | a number that comes back is taken if it is in the item's range, and the default if not |
| ConfigLayout.TextComesBack | software/components/config.cc:694-700 | a text is taken up to a NUL, as far as the item has room |
| ConfigLayout.OthersStay | software/components/config.cc:672-705 | a record of another type, and an item that is not stored, change nothing |
| PageBytes.UnpackRecords | software/components/config.cc:398-424 | reading a page takes an item through all records on it, and never past the block's end |
| PageBytes.PageRoundTrip | software/components/config.cc:275-325 | after packing all stores, reading one restores each of its stored items and leaves all others as they were; separators leave no record |
| PageBytes.StrangersUnchanged | software/components/config.cc:412-421 | records with ids a store does not know do not affect it |
| ConfigObjects.NothingDropped | software/components/config.cc:311-323 | a block with a byte to spare takes every item |
| ConfigObjects.PackedOneByOne | software/components/config.cc:282-287 | packing stores one behind the other is packing all their items |
| ConfigLayout.PackedExactly | software/components/config.cc:305-325 | a block is the records of its items in order, each left out exactly if fewer bytes are left than it wants: 7 for a number, 4 for a choice, a text's length and 4 |
| ConfigObjects.ConfigItem.Pack | software/components/config.cc:707-759 | the record if it fits, nothing outside the room given, and no size if it does not fit |
| ConfigObjects.ConfigItem.Unpack | software/components/config.cc:672-705 | takes a record's bytes with the range and length rules of its type |
| ConfigObjects.ConfigStore.Pack | software/components/config.cc:305-325 | the records of the items that fit, in order, and a free byte behind them |
| ConfigObjects.ConfigStore.Unpack | software/components/config.cc:398-424 | the loop over the block gives every item all records with its id |
| ConfigObjects.ConfigStore.CheckBounds | software/components/config.cc:579-597 | numbers are clamped, and the stale flags go up exactly when one was |
| ConfigLayout.ClampedIsNearest | software/components/config.cc:579-597 | a number out of range becomes the nearest one in it, and everything else stays |
| ConfigObjects.ConfigStore.Read | software/components/config.cc:455-464 | what reading a store leaves in items and flags |
| ConfigObjects.ConfigPage.Pack | software/components/config.cc:275-290 | the block holds the id, the records of all stores and a free byte |
| ConfigRoundTrip.SaveEditRead | software/components/config.cc:275-464 | on the objects: a page is packed, the items of a store changed in any way, the store read again; its stored items hold what they held when it was packed, the others stay changed, and the flash is not stale |
| ConfigObjects.StoreRoundTrip | software/components/config.cc:275-464 | packing a page with room to spare and reading a store back restores its items, none out of range |
| IntelHex.WriteHexFile | tools/bin2hex.c:193-235 | the emission loop writes exactly the specified records, a segment record in front of each 64K segment's first byte |
| IntelHex.RecordSumsToZero | tools/bin2hex.c:203-232 | a record and its checksum sum to 0 modulo 256 |
| IntelHexReader.Input.ReadByte | tools/hex2bin.c:21-35 | two digits as a byte, 0 at the end of the file |
| IntelHexReader.Program | tools/hex2bin.c:160-200 | the bytes of a data record land at its address minus the offset, although the address wraps at 32 bits |
| IntelHexReader.ReadHexFile | tools/hex2bin.c:57-205 | the reader's loop computes `Read`: highest offset, buffer, failures |
| IntelHexRoundTrip.FileReads | tools/hex2bin.c:57-205 | the reader recovers exactly the writer's data, across segment boundaries, and leaves the rest of its buffer alone |
| IntelHexRoundTrip.HexRoundTrip | tools/bin2hex.c:193-235 | file to file the data comes back if and only if it has two bytes or more |
| IntelHexRoundTrip.FileSumsToZero | tools/bin2hex.c:193-235 | the bytes behind each colon of a written file, read back from its text, are the writer's records with their checksums, and each sums to 0 modulo 256 |
| IntelHexSegments.WrittenExample | tools/bin2hex.c:193-235 | three bytes at 30 hex are three lines, character by character |
| IntelHexSegments.SegmentFileReads | tools/hex2bin.c:115-197 | where a data record behind a segment record of type 2 lands: 65536 times the whole part of the segment divided by 4096, plus its own address |
| IntelHexSegments.SegmentsExactly | tools/hex2bin.c:115-162 | that is where the format puts it if and only if the segment is a multiple of 1000 hex |
| IntelHexSegments.SegmentExample | tools/hex2bin.c:115-162 | segment 1, address 0: the byte lands at 0 and not at 16 |
| IntelHexSegments.OtherRecords | tools/hex2bin.c:104-202 | start addresses are skipped; wrong lengths, unknown types and addresses outside the buffer end the reading |
| IntelHexSegments.DigitsExactly | tools/hex2bin.c:21-35 | only capitals count as digits above 9; any other character, and what is missing at the end, is 0 |
| IndexedList.OneInversionLess | software/components/indexed_list.h:215-220 | swapping neighbours in the wrong order takes away exactly one inversion |
| IndexedList.IndexedList.Sort | software/components/indexed_list.h:191-222 | the comb sort ends, for any total preorder, with the same elements and marks in order |
| IndexedList.IndexedList.Comb | software/components/indexed_list.h:215-220 | one comb permutes; with gap 1 each swap removes an inversion, and no swap means sorted |
| IndexedList.NextGap | software/components/indexed_list.h:207-213 | the gap gets smaller until it is 1, in spite of the rule that makes 9 and 10 into 11 |
| IndexedList.IndexedList.Append | software/components/indexed_list.h:90-100 | adds one unmarked element at the end, growing if need be |
| IndexedList.IndexedList.Expand | software/components/indexed_list.h:20-39 | keeps the contents in twice the room |
| IndexedList.IndexedList.Prepend | software/components/indexed_list.h:102-114 | adds one unmarked element in front |
| IndexedList.IndexedList.Remove | software/components/indexed_list.h:116-132 | removes the first equal element and tells its place, or -1 |
| IndexedList.IndexedList.RemoveIdx | software/components/indexed_list.h:134-147 | removes the element at a place, if there is one |
| IndexedList.IndexedList.MarkForRemoval | software/components/indexed_list.h:69-72 | marks an element; a mark behind the last element does not show |
| IndexedList.IndexedList.PurgeList | software/components/indexed_list.h:74-88 | drops the marked elements and keeps the others in order |
| IndexedList.UnmarkedKeeps | software/components/indexed_list.h:74-88 | a purge keeps every unmarked entry as often as it was there and no marked one |
| Replacing.PartsAreLeftmost | software/components/mystring.cc:380-383 | the search cuts by leftmost occurrences: none begins in front of a cut, and none is in the last piece |
| Replacing.PartsAreUnique | software/components/mystring.cc:380-383 | any cutting of a text by leftmost occurrences is the one the search gives |
| Replacing.ReplacedIs | software/components/mystring.cc:396-403 | the result is the pieces of that cutting with the new string between them |
| Replacing.PartsRejoin | software/components/mystring.cc:380-383 | the pieces and the old string give the text back |
| Replacing.ReplacedByItself | software/components/mystring.cc:396-403 | replacing a string by itself changes nothing |
| Replacing.LengthOfReplaced | software/components/mystring.cc:379-386 | the size computed from the count is the size of the result |
| MString.StrStr | software/components/mystring.cc:381 | the search in a buffer finds the first occurrence and never looks past a NUL |
| MString.MString.Replace | software/components/mystring.cc:358-407 | replaces every occurrence, in a buffer of just the size needed with every write inside it, and notes that size in 16 bits; nothing happens without a text or strings to work on |
| Crc16.ShiftSubtracts | software/drive/c1581.cc:650-683 | the branch-free shift is the usual one with polynomial 1021 |
| Crc16.TableIsEight | software/drive/c1581.cc:650-683 | every entry of the table is eight shifts of its index |
| Crc16.TableDrivenIsBitwise | software/drive/c1581.cc:685-691 | the table-driven CRC is the bit-by-bit one for every seed and all bytes |
| Crc16.Crc16Ccitt | software/drive/c1581.cc:685-691 | the loop over a buffer computes it |
| Crc16.SeedIsAddressMark | software/drive/c1581.cc:506 | the seed B230 stands for FFFF over A1 A1 A1 FE, whatever follows |
| Crc16.ResidueIsZero | software/drive/c1581.cc:506-508 | any bytes followed by their CRC, high byte first, have residue 0 |
| Crc16.AddressReader.ReadAddress | software/drive/c1581.cc:494-509 | the buffer holds the next sector's address field, whose CRC with its address mark is 0 |
| Crc16.BurstIsDetected | software/drive/c1581.cc:685-691 | messages that differ only within two neighbouring bytes never have the same CRC |
| NanoAssembler.OperandBitsAreFree | tools/parse_nano.py:182-207 | putting operands into any instruction's code with a bitwise or, one of eleven bits, or one of three and one of eight bits shifted above it, gives the sum the model uses |
| NanoDecode.WordDecodes | fpga/ip/nano_cpu/vhdl_source/nano_cpu.vhd:96-144 | the processor's decoder makes of the word of every instruction the operation its mnemonic names with its operands; an instruction has a word if and only if its operands have values and room |
| NanoAssembler.LabelsStay | tools/parse_nano.py:67-73 | what pass 1 says of a name it never changes |
| NanoAssembler.ExprsCollected | tools/parse_nano.py:22-27 | every expression behind a hash sign is remembered |
| NanoPasses.PassesAgree | tools/parse_nano.py:22-73 | pass 2 knows every name's pass 1 value and reaches every line at its pass 1 address if and only if each block size and definition is known when pass 1 gets there, or worth 0 |
| NanoPasses.GroundedAgrees | tools/parse_nano.py:130-135 | it does when blocks and definitions use numbers or earlier names |
| NanoPasses.LateBlockDisagrees | tools/parse_nano.py:130-135 | a block sized by a later name moves the label behind it |
| NanoPasses.WordsAreCounted | tools/parse_nano.py:54-58 | pass 2 writes one 16-bit word for each step of the program counter |
| NanoPasses.ImmediatesAreAddressed | tools/parse_nano.py:91-99 | the low ten bits of each instruction with an immediate value address a word of the program that holds the value |
| NanoPasses.ProgramIsWhole | tools/parse_nano.py:241-277 | the program is the pass 1 count of words and then the pool, each value once |
| NanoDecode.InstructionsDecode | tools/parse_nano.py:209-279 | in a program whose passes agree each instruction stands at its address, and the decoder makes of it what its line says |
| NanoDecode.DataStands | tools/parse_nano.py:209-279 | a data line leaves its value at its address, and a block as many zeros as it says |
| NanoDecode.NamesStand | tools/parse_nano.py:67-73 | a label is worth the address of what follows it, and a definition what its expression was worth there |
| NanoDecode.NamesOnce | tools/parse_nano.py:67-73 | no name is defined twice in a program that is assembled |
| NanoDecode.AddressesGoOn | tools/parse_nano.py:54-58 | addresses begin at 0 and go on by the words of each line |
| NanoPasses.PoolIsComplete | tools/parse_nano.py:241-251 | a value pass 2 can evaluate behind a hash sign is in the pool |
| NanoObject.Assembler.ParseLines | tools/parse_nano.py:209-239 | the loop over the lines is a pass, in either phase |
| NanoObject.Assembler.ResolveImmediates | tools/parse_nano.py:241-251 | the dictionary and the value list are the pool behind the program |
| NanoObject.Assembler.Assemble | tools/parse_nano.py:253-279 | both passes and the pool give `Assembled`, or fail where that fails |

## Left out

- Hardware and operating system: drive registers, DMA, flash and file access, FreeRTOS tasks. The
  input mutex is modelled as atomic steps, and ticks as an unbounded counter whose 32-bit
  register wraps.
- JSON: positions and sizes are unbounded (texts below 2^31 bytes); `strtol` has a 32-bit long;
  allocation never fails. `jsmn.h` without `JSMN_STRICT` or parent links is not modelled, and neither
  are `set`, `remove`, URLs and the compact printers. That accepted texts are valid JSON is not
  claimed; the tokenizer accepts more.
- JsonRoundTrip.ConvertText: the outcome of a failed allocation, `JSON_ALLOC_FAILED`, is left out.
- Printf: only the conversions `%s` and `%d` without a width. A string argument is its characters up
  to the NUL. The blocks in which the stream keeps what was written are not modelled.
- PetsciiFat.FatToPetscii: requires, for `cutExt`, a name of four characters or a dot, because the
  C code looks in front of the buffer otherwise.
- `pattern_match_escaped` keeps a behaviour its own comment calls wrong and has no clean
  specification.
- MouseInput.ValidateBatch: the validation of keyboard and joystick events is a parameter; error
  texts are not modelled.
- MouseQueue.ReportsAreExact: buttons are sets of the three buttons a request can name, which
  stands for the three low bits of the report's byte.
- RestMouseDevice.RestMouse.ApplyMouseEvent: creating the virtual mouse and the timer always
  succeeds; a batch is applied at one moment.
- MenuKeyboard: `Keyboard_C64::matrixModifierFlag` and `matrixToKeyCode` are not part of this model;
  they are arbitrary functions. The live keyboard matrix and its queue are left out.
- ConfigObjects.ConfigStore.Pack: requires a byte to spare in the block, because the C code writes
  its end mark behind a block that is full to the last byte.
- ConfigObjects.ConfigStore.Unpack: requires a page on which every length byte is inside the block.
- ConfigObjects.ConfigStore.Read: requires such a page too.
- ConfigObjects.ConfigPage.Pack: requires a byte to spare behind the records of all stores, for the
  same end mark.
- ConfigObjects.StoreRoundTrip: an enumeration's value has to be below 256, because its record has
  one byte, and a string below 256 characters.
- Configuration: `reset`, hooks, effectuation and the files that keep pages without flash are left
  out; a string's characters are bytes and its buffer the string up to the NUL.
- IntelHex.WriteHexFile: no options but the offset, and no more than 2^30 bytes, which is the
  program's own limit.
- IntelHexReader.ReadHexFile: a record of more than 59 data bytes is an outcome of its own, because
  the C code has no room for it; checksum messages and record mode are left out.
- IndexedList.IndexedList.Sort: the comparison is a function of the two elements.
- MString.MString.Replace: sizes are unbounded integers, except for the field `alloc`; allocation
  never fails.
- NanoAssembler.Step: lines are statements already; splitting them into fields, reading numbers and
  printing listings are left out.
- `C1581::decode_write_track`, `C1541::swap_disk`, `Dict::pop`, route handlers, reporting scripts,
  printer pages, benchmarks and recovery scripts: glue, or no specification to prove.
