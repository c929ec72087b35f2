# A verified model of the editor's text, regular expression and font engines

The project models three engines of the editor and proves what they are for.

**Edit buffers** (`buffer.c`). `PagedText.PagedBuffer` is the page table with its
read-only file mapping, its cursor cache and the counts cached in pages;
`PagedOps` the byte operations on it; `Positions` the line and character
positions; `UndoRecords` and `UndoLogs` the undo log, which is itself a paged
buffer of byte-encoded records; `SideTables` the registered offsets and the style
buffer. Every paged operation is proved equal to one operation on a flat byte
sequence. `UndoModels` says as a value what a buffer with its log and side tables
is and what an edit, an undo and a redo make of it; each method of `EditBuffers`
is proved to have exactly that effect, `UndoTheorems` and `UndoRedos` say what
undos and redos in a row give, `UndoLinks` which records lead back to the moment
before them, `UndoSessions` runs whole sessions, `UndoRuns` says which sessions go
through and what `nb_logs` counts, `UndoWholeRuns` what undos give after any
session, and `UndoTyping` which inserts share a record. `Tabs`, with the layout of
a line in `TabLayout` and the form it leaves in `TabForms`, `TabDecoders` and
`TabUndo` are tab conversion (`extras.c`), `Counting` the counting loops of
`charset.c`, `Utf8` the codec of `cutils.c`, and `Characters` joins the two.

**Regular expressions** (`libregexp.c`, `libregexp_backtrack.c`).
`RegexSemantics` gives the meaning of a pattern: the list of its matches from a
position, in priority order, with captures. `RegexEmit` is the instruction layout
the compiler produces, `Bytecode` its bytes, `RegexMachine` the machine as a step
relation. The main theorems say that the machine on compiled code delivers that
list; `RegexAlone` states it for code that stands alone, `RegexRecurrence` and
`RegexLimits` say when a loop without the zero-advance check ends. `RegexCaptures`
says what the capture slots of a match hold, and `RegexMeaning` what a pattern
matches, in terms of the subject alone. `RegexCompiler`, `RegexMain`, `RegexAnalysis`, `RegexStates` and `RegexExec` are the imperative compiler and
machine over byte buffers and arrays, proved against those; `RegexSearch.Search`
joins all of it.

**Font decoding** (`libfbf.c`). `ArithmeticCode`, `ArithmeticDecoder` and
`ArithmeticRuns` are the adaptive binary arithmetic decoder, proved to compute the
bit sequence whose interval holds the byte stream; `Glyphs` is the glyph decoder,
which is one such run over two arrays of contexts.

How the model reads the source:

- Page data is either a window of a mapping array or bytes the page owns. Bytes
  can be stored only in a page that owns its data and has no cached counts, which
  is what `update_page` provides; no method may modify a mapping array, so mapped
  bytes never change.
- A page pointer is an index in the page table; NULL is -1. A cached count is
  `Fresh` or `Stale` where the source has a flag and a field.
- `MAX_PAGE_SIZE`, `NB_LOGS_MAX` and the other constants have the values of
  `qe.h`, `libfbf.h`, `charset.h` and `libregexp.h`.
- `eb_addlog` returns at once while `save_log & 2` is set, so the two phases of
  undo that set it are the bare operations on the text.
- 16 and 32 bit fields are little endian. Where the code wraps at 32 bits
  (decoder registers, displacements, `lbuf`) the model does too.
- Case folding, character widths and the byte stream of a font are parameters.
- Where code and standard differ the model follows the code: an iteration that
  does not move leaves an unbounded loop instead of failing, and captures are
  reset once before an optional loop (section 21.2.2 of ECMA-262, 11th edition,
  resets them at each iteration).

Ten properties that one might expect are false of the code; each has a witness
and a condition:

- Redo does not give back a write that was undone: `UndoSessions.WriteUndoRedo`
  shows it on a buffer, `UndoRedos.RedoGivesAll` says that k undos and k redos pass
  through all moments again exactly when no write among them changed a byte, and
  `UndoRedos.RedoGivesEnd` that they end where they began exactly when no byte of
  the last text is lost (a later delete may hide a lost write).
- After an undo, a later undo need not give the moment before the last record: an
  undone write leaves a record that does not lead back.
  `UndoWholeRuns.WriteUndoUndo` shows it on a buffer, without redo.
  `UndoLinks.UndoLinked` says that an undo keeps all records leading back exactly
  when it takes back no write that changed something,
  `UndoWholeRuns.SessionLinkedIff` says the same for sessions, and
  `UndoWholeRuns.SessionThenUndo` what undos then give.
- An unbounded loop without the zero-advance check need not stop:
  `RegexLimits.UncheckedLoopEnds` says exactly when it does once what follows it
  fails. `RegexLimits.EmptyLoopDiverges` is the witness among lazy loops,
  `RegexLimits.OwnCaptureDiverges` among greedy ones, and
  `RegexAdvance.CheckedSupported` gives a test on the pattern under which every
  loop stops.
- `eb_goto_pos` need not find a column: `Positions.GotoPos` says exactly when it
  does, and `Positions.MisledOnFile` loads a file on which it does not.
- `nb_logs` need not count the records: `UndoRuns.CountsRecords` says that it does
  exactly as long as no redo takes effect, `UndoRuns.EmptyFull` when a log that
  counts as full holds no record, and `UndoSessions.FillByRedo` makes one.
- An undo after a redo need not find the text it expects: by `UndoRuns.SessionRuns`
  it does in every session in which no redo takes effect in a row with an undo that
  trimmed the record it played, and `UndoRuns.TrimmedRedo` says exactly when the
  first undo behind such a redo does; `UndoRuns.MisfitByRedo` brings a buffer to
  where it does not.
- An insert after an undo need not get a record of its own: the undo of a delete
  logs an insert, and an insert right behind the bytes it brought back grows that
  record. `UndoTyping.InsertAfterUndo` says that this is the only such case.
- One undo need not take back all that was typed: after many redos the log may stay
  full with few records and trim the record being typed. `UndoTyping.TypedUndone`
  says exactly when it does; `UndoSessions.FillByRedo` makes such a log.
- The estimate of a decoded bit may fall: `ArithmeticCode.EstimateKept` says that
  it does exactly when the count of that bit is full and the other one is 1, 5 or 9,
  so that halving rounds the other one up.
- With DOS line ends a CR LF counts as one character only where every line feed
  follows a carriage return: `Characters.DosChars` says that the count is right
  exactly for such texts, since a line feed alone is not counted at all.

`dafny verify dfyconfig.toml` checks everything.

## Model

| member | source | states |
|---|---|---|
| `RegexSearch.Search` | libregexp.c:1821-2079 | compiling and running any supported pattern gives, for every subject and start, the captures of the first match of the leftmost attempt that has one, or nothing when no attempt has one; it is rejected exactly for too many captures, too many ranges or too deep a nesting of counters; capture 0 is where that attempt starts and ends, no attempt before it matches, and every other capture is unset or the start and end of a text that the body of its group matches |
| `RegexExec.LreExec` | libregexp.c:2014-2079 | the machine loop ends on every image of a supported pattern and its result is the head of the denotational result list, with its captures, or no match exactly when that list is empty; the slots hold the start and end of the match and of texts that the bodies of the groups match |
| `RegexProgram.RunsToFirstMatch` | libregexp_backtrack.c:180-384 | from any position the emitted bytes reach, in finitely many steps, the verdict that the priority-ordered semantics gives |
| `RegexProgram.FoundIsLeftmost` | libregexp.c:1851-1859 | the search prefix tries the start positions in order: the result is that of the first start at or after the given one that matches, and of that start only for a sticky pattern; slot 0 of that result is the start, slot 1 its end |
| `RegexProgram.FoundCaptures` | libregexp.c:1851-1859 | the captures of a search, slot by slot: capture 0 from the first start that matches to the end of its match, every group unset or a text inside the subject that its body matches |
| `RegexCaptures.WholeCaptures` | libregexp_backtrack.c:341-360 | every match of a whole pattern has slots 0 and 1 at its start and end, and the two slots of each group are both -1 or the ends, in order and inside the subject, of a text that the body of the group matched, in the direction in which it was matched |
| `RegexCaptures.GroupEnds` | libregexp_backtrack.c:341-346 | after a match of group k slot 2k holds its start and slot 2k + 1 its end, in both directions, and its body matched just that text |
| `RegexCaptures.ResultsRecord` | libregexp_backtrack.c:341-360 | a match of any part of a pattern changes no slots but those of its own groups, and leaves each of these unset or at the ends of a text that its body matched, through loops, resets and look-arounds |
| `RegexCaptures.SetSlot` | libregexp_backtrack.c:341-346 | a save changes the slot of its number and no other |
| `RegexCaptures.ResetSlots` | libregexp_backtrack.c:347-360 | a reset empties both slots of the groups in its range and no others |
| `RegexMeaning.Meaning` | libregexp_backtrack.c:253-573 | a pattern without captures and back references has a match from i to j exactly when it matches the subject there, said with the characters alone: literals up to folding, line ends, word characters, look-arounds and repetitions as a number of matches in a row |
| `RegexMeaning.CodeMeaning` | libregexp.c:1215-1770 | the compiled code of such a pattern, run alone from i, offers j exactly then |
| `RegexMeaning.GreedyOrder` | libregexp.c:1592-1650 | the ends of a repetition of a character are tried from the farthest to the nearest when greedy and from the nearest to the farthest when lazy |
| `RegexCorrectness.NodePlays` | libregexp.c:1215-1770 | wherever the code of a pattern lies and whatever is saved below, it delivers exactly the matches of the pattern, one after the other on failure, and then fails with the saved states it was given |
| `RegexCorrectness.QuantPlays` | libregexp.c:1502-1700 | every form of quantifier code, with or without capture reset, counter, check or greedy opcode, delivers the results of the quantified pattern |
| `RegexCorrectness.LookPlays` | libregexp.c:1283-1313 | look-around code delivers at most one result, without moving, and discards the choices left inside a positive one |
| `RegexCorrectness.GroupPlays` | libregexp.c:1336-1357 | group code delivers the results of its body with both capture slots set, in either direction; `RegexCaptures.GroupEnds` says which slot holds what |
| `RegexCorrectness.BackRefPlays` | libregexp_backtrack.c:407-450 | a back reference accepts exactly a folded copy of the captured text, in either direction, and the empty string for an unset capture |
| `RegexCorrectness.CatPlays` | libregexp.c:1704-1736 | concatenated code delivers all results of the second part for each result of the first, in order; in the backward direction the parts are exchanged |
| `RegexCorrectness.AltCodePlays` | libregexp.c:1738-1770 | the code of an alternation delivers the results of the left side and then those of the right side |
| `RegexLoops.StarPlays` | libregexp.c:1617-1637 | the split/goto loop delivers the unbounded repetition, greedy or lazy, when it carries the zero-advance check or its atom always moves |
| `RegexLoops.UpToPlays` | libregexp.c:1638-1650 | the counted loop delivers at most k repetitions and leaves the counter stack as it was |
| `RegexLoops.ExactPlays` | libregexp.c:1652-1690 | the counted prefix delivers exactly k repetitions followed by what comes after |
| `RegexDelivery.DeliversAll` | libregexp_backtrack.c:195-250 | running code on each result of other code delivers the flattened list, in order, whatever splits remain on the state stack |
| `RegexProgress.ResultsLater` | libregexp_backtrack.c:253-340 | no match moves against the direction of matching or leaves the subject |
| `RegexGreedy.GreedyOpPlays` | libregexp_backtrack.c:215-237 | the greedy opcode, which steps back a fixed number of characters per failure, delivers the same ends in the same order with the same captures and counter stack as the general loop |
| `RegexGreedy.SimpleNode` | libregexp.c:1034-1071 | an atom that the analysis calls simple has at most one match at each place, reads a fixed number of characters and changes no capture |
| `RegexAdvance.CheckAdvanceSound` | libregexp.c:950-1030 | when the analysis answers 1, every match of the atom strictly moves: up in forward code, down in backward code |
| `RegexAdvance.CheckedSupported` | libregexp.c:1592-1637 | if every unbounded loop over an atom that has a branch without a character carries the zero-advance check, the pattern is supported: loops over other atoms, such as (?:a|b)*?, are supported whatever the analysis answers |
| `RegexAdvance.NeverEmptyAdvances` | libregexp.c:950-1030 | an atom all of whose branches read a character strictly moves with every match, in both directions |
| `RegexAdvance.AdmittedChecked` | libregexp.c:1592-1637 | the test holds in particular when the analysis answers at least 0 for the atoms of greedy unbounded loops and 1 for those of lazy ones |
| `RegexLimits.UncheckedLoopEnds` | libregexp.c:1592-1660 | the compiled form of any unbounded loop without the check, lazy or greedy, of zero or one round at least, with captures and back references in its atom, followed by any pattern that matches nowhere in the subject, ends without a match when from no start that is tried the loop can come back to a position with the same captures, and never halts otherwise |
| `RegexRecurrence.StopsIff` | libregexp.c:1592-1637 | the atom can be matched in a row without end exactly when the loop can come back to a position with the same captures |
| `RegexRecurrence.PlainRecurs` | libregexp.c:1592-1637 | for an atom without captures and back references that means: the loop comes to a place where the atom matches without moving |
| `RegexLimits.EmptyLoopDiverges` | libregexp.c:1592-1600 | on the code of a lazy loop over the empty pattern and a missing character the machine never halts |
| `RegexLimits.OwnCaptureDiverges` | libregexp.c:1019-1030 | for a greedy loop over an atom that refers to its own capture the analysis answers -1, no check is emitted, and the machine never halts |
| `RegexRecurrence.MovingNeverRecurs` | libregexp.c:1592-1637 | the loop over an atom all of whose branches read a character never comes back, on any subject |
| `RegexReversal.Reversal` | libregexp.c:1477-1499 | for patterns without captures and back references, matching backward leads from j to i exactly when matching forward leads from i to j |
| `RegexAlone.CodeReversal` | libregexp.c:1477-1499 | the backward code of such a pattern, run alone from j, offers i exactly when its forward code, run alone from i, offers j |
| `RegexAlone.CodeOffersResults` | libregexp_backtrack.c:180-384 | the code of any supported pattern, run alone and answered with a failure at each arrival at its end, arrives there with exactly the matches of the pattern |
| `RegexReversal.LookbehindMeaning` | libregexp.c:1288-1313 | a lookbehind holds at j exactly when some start i lets the body match forward from i to j; a negative one exactly when none does |
| `RegexInvariant.StackBound` | libregexp.c:1773-1815 | in every reachable state on compiled code the counter stack has the depth that the linear scan computes at that address, so it never underflows and never exceeds the size in the header |
| `RegexInvariant.StepKeeps` | libregexp_backtrack.c:361-384 | every step keeps the invariant on place, depth, captures and all saved states |
| `RegexInvariant.ScanDepthIs` | libregexp.c:1773-1815 | the depth at an address is that of the instruction list before it |
| `RegexInvariant.EmitCapOps` | libregexp_backtrack.c:341-360 | every capture operand in emitted code lies below the capture count, and range tables are sorted |
| `RegexTyping.EmitTyped` | libregexp.c:1773-1815 | emitted code is balanced: every jump lands on an instruction at the depth the scan expects, and no instruction pops an empty stack |
| `RegexClass.EmitClassCorrect` | libregexp.c:821-857 | the emitted 16 or 32 bit range opcode accepts a character exactly when it lies in some range of the class |
| `RegexClass.BoundsMembership` | libregexp.c:838-854 | the inclusive bounds stored in the code have the same members as the half-open points of the class |
| `RegexRange.RangeSearch` | libregexp_backtrack.c:451-527 | the binary search over the bytes of the table decides membership for every sorted table, its index never wraps and it ends |
| `RegexAnalysis.CheckAdvanceScan` | libregexp.c:950-1030 | the scan over the bytes with its capture bitmap computes the analysis on the instruction list |
| `RegexAnalysis.IsSimpleQuantifier` | libregexp.c:1034-1071 | the scan over the bytes computes the character count of a simple atom, and -1 for any other |
| `RegexAnalysis.ComputeStackSize` | libregexp.c:1773-1815 | the scan over the bytes computes the largest depth, or -1 above the limit |
| `RegexAnalysis.InstrLen` | libregexp.c:1783-1810 | the length of the instruction at a position, with its range table |
| `Bytecode.FetchEncoded` | libregexp-opcode.h:27-56 | any encodable instruction is fetched back from its bytes, wherever they lie |
| `Bytecode.AtStored` | libregexp-opcode.h:27-56 | an encoded instruction list is fetched back instruction by instruction |
| `DynamicBuffer.DynBuf.Realloc` | cutils.c:263-282 | growing keeps the contents |
| `DynamicBuffer.DynBuf.Put` | cutils.c:296-305 | the bytes are appended |
| `DynamicBuffer.DynBuf.PutSelf` | cutils.c:307-316 | a window of the contents is appended by copying inside the buffer, after a reallocation that may have moved it |
| `DynamicBuffer.DynBuf.Insert` | libregexp.c:114-121 | room is made at a position: the bytes before and after it are kept |
| `RegexCompiler.Compiler.EmitGoto` | libregexp.c:409-416 | a jump to an absolute position is stored as a displacement from the end of its operand |
| `RegexCompiler.Compiler.Quantify` | libregexp.c:1502-1700 | inserting and patching around the atom in the byte buffer yields exactly the encoding of the quantifier code, and leaves the bytes before the atom alone |
| `RegexCompiler.Compiler.CompileCat` | libregexp.c:1704-1736 | terms are appended, and in the backward direction moved in front of the earlier ones |
| `RegexCompiler.Compiler.CompileAlt` | libregexp.c:1738-1770 | the split is inserted before the left side and both jumps are patched |
| `RegexCompiler.Compiler.CompileGroup` | libregexp.c:1336-1357 | capture numbers are given out in order of opening and the capture limit is enforced |
| `RegexCompiler.Compiler.CompileLook` | libregexp.c:1283-1313 | the forward jump over a look-around body is patched once its length is known |
| `RegexCompiler.Compiler.Compile` | libregexp.c:1215-1770 | the buffer gains exactly the encoding of the emitted code; failure happens exactly for too many captures or ranges |
| `RegexEncodable.EmitEncodable` | libregexp.c:394-428 | every operand of emitted code fits its field |
| `RegexMain.LreCompile` | libregexp.c:1821-1909 | the image has the flags, capture count, stack size and length in its header and the encoded program after it; it fails exactly for the three limits |
| `RegexMain.Seal` | libregexp.c:1894-1897 | the header fields are written without touching the program |
| `RegexStates.StateStack.Grow` | libregexp.c:1974-1984 | a full block grows by half, to at least eight records, and every record in it survives the move |
| `RegexStates.StateStack.Push` | libregexp.c:1963-1999 | the record written word by word behind the others holds a copy of the registers, captures and counters, and all earlier records keep theirs |
| `RegexStates.StateStack.Peek` | libregexp_backtrack.c:199-224 | the words of the last record are read back as the state that was saved |
| `RegexStates.StateStack.CopyCaptures` | libregexp_backtrack.c:204-205 | the captures come back as they were saved |
| `RegexStates.StateStack.CopyCounters` | libregexp_backtrack.c:209-211 | the counter stack comes back as it was saved |
| `RegexStates.StateStack.Lower` | libregexp_backtrack.c:231-232 | the last record changes position and count in place and nothing else changes |
| `RegexExec.Machine.Execute` | libregexp_backtrack.c:180-573 | one round of the opcode loop is one step of the machine |
| `RegexExec.Machine.ExecGreedy` | libregexp_backtrack.c:534-573 | the greedy opcode counts the iterations the text allows and saves one state for all of them |
| `RegexExec.Machine.Unwound` | libregexp_backtrack.c:195-250 | one round of the unwinding loop is one step of the machine, and the loop makes progress |
| `PagedText.PagedBuffer.FromMapping` | buffer.c:2038-2059 | the pages of a mapped file stand for its bytes and share its memory; all but the last are full |
| `PagedText.PagedBuffer.FindPage` | buffer.c:38-59 | the page and offset found are those of the flat offset, with or without the cursor cache, which stays right |
| `PagedText.PagedBuffer.UpdatePage` | buffer.c:62-76 | a mapped page becomes an owned copy without cached counts, and the text stays |
| `PagedText.PagedBuffer.Read` | buffer.c:97-122 | the bytes read are the clipped window of the flat text |
| `PagedText.PagedBuffer.WriteRaw` | buffer.c:146-160 | the page loop overwrites exactly the window |
| `PagedText.PagedBuffer.Insert1` | buffer.c:170-208 | the bytes go in front of page i, the pages before it stay, and the number of added pages is the one computed in advance |
| `PagedText.PagedBuffer.ShiftBack` | buffer.c:236-266 | one retry keeps the text and the place, and either goes to an earlier page or makes the previous page full |
| `PagedText.PagedBuffer.Settle` | buffer.c:227-266 | the retry loop ends, by page index and fullness of the previous page |
| `PagedText.PagedBuffer.InsertAt` | buffer.c:228-291 | pushing out the tail, copying what fits and putting the rest in further pages is one splice |
| `PagedText.PagedBuffer.InsertLowlevel` | buffer.c:213-295 | the paged insert is the flat splice for every layout, offset and data; pages keep size 1..MAX_PAGE_SIZE, sizes sum to total_size, the cache is valid |
| `PagedText.PagedBuffer.InsertFrom` | buffer.c:327-352 | inserting page by page from another buffer is one splice of its window, and leaves that buffer's text alone |
| `PagedText.PagedBuffer.DeleteRaw` | buffer.c:493-530 | cutting pages and removing whole ones is one flat deletion, and every page left has at least one byte |
| `PagedOps.ReadOneByte` | buffer.c:82-91 | the byte of the flat text, or -1 outside it |
| `PagedOps.Write` | buffer.c:129-166 | overwrite and append with clipped arguments |
| `PagedOps.WriteIsOverwriteThenInsert` | buffer.c:129-166 | the clipped write is an overwrite followed by an insert at the end |
| `PagedOps.Insert` | buffer.c:442-462 | insert with clipped arguments, and the count returned |
| `PagedOps.Delete` | buffer.c:466-532 | delete with clipped arguments, and the count returned |
| `PagedOps.InsertBuffer` | buffer.c:301-352 | insert from another buffer with clipped arguments on both sides |
| `PagedOps.Run` | buffer.c:38-532 | every run of reads, writes, inserts, deletes and copies gives the final text and the read results of the same run on a flat byte sequence, and keeps the page table and cache valid |
| `Counting.PosConcat` | charset.c:1501-1534 | the position after two blocks follows from the positions after each |
| `Counting.CharsConcat` | charset.c:325-356 | character counts of blocks add up |
| `Counting.LinesCount` | charset.c:1501-1534 | the lines of a text are its line feeds, or carriage returns for DOS and Mac line ends |
| `Counting.GetPos8` | charset.c:1501-1534 | the loop returns the number of line ends and the bytes after the last one |
| `Counting.GotoLine8` | charset.c:1536-1564 | the offset is the start of the requested line, or of the last line when there are fewer |
| `Counting.GetChars8` | charset.c:1566-1584 | the loop counts the counted bytes |
| `Counting.GetCharsUtf8` | charset.c:325-356 | the loop counts the counted bytes; `Characters.TextChars` says what these are |
| `Counting.GotoChar8` | charset.c:1586-1608 | the offset is that of the counted byte with the requested rank, or the end |
| `Counting.GotoCharUtf8` | charset.c:361-387 | the offset is that of the counted byte with the requested rank, or the end; `Characters.CodeFound` says where that is |
| `Positions.SetCharset` | buffer.c:1407-1440 | changing the charset keeps the text and drops every cached count |
| `Positions.GetPos` | buffer.c:1720-1758 | the position computed from cached page counts is that of counting over the whole prefix |
| `Positions.GotoPos` | buffer.c:1676-1718 | the offset is that of the column of the line, or of the end of the line, exactly unless the page taken begins inside the line, the column carried to it from earlier pages is not the column it begins at, and the line does not end before that shows; at column 0 it is always the start of the line, and the end of the text when there is no such line |
| `Positions.OnePage` | buffer.c:1676-1718 | a text in one page never misleads it |
| `Positions.MisledOnFile` | buffer.c:1693-1697 | on a loaded file of four pages whose only line end begins the second one, going to a column that line 1 has ends elsewhere |
| `Positions.LineStartUnique` | buffer.c:1676-1718 | a line has one start |
| `Positions.LineRoundTrip` | buffer.c:1676-1758 | going to a line and asking for the position gives the line and column 0 |
| `Positions.GotoChar` | buffer.c:1765-1793 | the offset is that of the counted byte with the requested rank in the whole text |
| `Positions.GetCharOffset` | buffer.c:1795-1840 | the result counts the counted bytes of the whole prefix up to the rounded offset |
| `Positions.CharRoundTrip` | buffer.c:1765-1840 | going to a character and asking for its number gives the smaller of the number and the count, for UTF-8 and one byte charsets, well formed text or not, all line ends and all page layouts |
| `Characters.TextChars` | charset.c:325-356 | the UTF-8 encoding of any codes below 2^31 counts as many characters as there are codes, but for DOS line ends the line feeds |
| `Characters.DosChars` | charset.c:325-356 | for DOS line ends the count is that of the characters with each CR LF as one, exactly when no line feed stands alone |
| `Characters.CodeFound` | charset.c:361-387 | in such a text the counted byte of rank k is the first byte of code k |
| `Characters.GotoCode` | buffer.c:1765-1840 | on a buffer with such a text eb_goto_char(k) is the length of the encoding of the first k codes, and eb_get_char_offset there is k |
| `UndoRecords.HeaderRoundTrip` | qe.h:444-450 | a header read back is the header written |
| `UndoRecords.Walks` | buffer.c:1256-1262 | the trailer before the end of any record leads to its start, the header at its start to its end, and the data lies between |
| `UndoRecords.CoalescedLinks` | buffer.c:1190-1202 | the grown insert record undoes both inserts |
| `UndoRecords.CounterLinks` | buffer.c:1281-1305 | the record that undo logs leads back to the moment before the undo, always for inserts and deletes, and for a write exactly when the write changed nothing |
| `UndoLogs.UndoLog.Trim` | buffer.c:1172-1187 | a full log loses its oldest record, and the current position stays before the same record, or at the start when that record is the one that goes |
| `UndoLogs.UndoLog.TryMerge` | buffer.c:1189-1202 | the last record grows in place exactly when it is an adjacent insert |
| `UndoLogs.UndoLog.Append` | buffer.c:1204-1233 | one record is written at the end with the bytes about to be lost |
| `UndoLogs.UndoLog.Add` | buffer.c:1150-1234 | the log bytes afterwards are those of the trimmed and then extended or grown record list |
| `UndoLogs.UndoLog.RemoveLast` | buffer.c:1394-1401 | redo removes one record and clears the current position exactly when it reaches the end |
| `UndoTyping.TypedOneRecord` | buffer.c:1189-1202 | after a delete, a write or with an empty log, any number of inserts of any size, each starting where the one before ended, leaves one record more, of their joint size, behind what a full log keeps |
| `UndoTyping.TypedUndone` | buffer.c:1189-1308 | one undo then gives the text and flag from before the first of them, exactly when the run does not trim its own record: it has no more inserts than the log has records (or just one), or nb_logs exceeds the records by at most NB_LOGS_MAX - 3; in a log that counts right it always does |
| `UndoTyping.InsertGrows` | buffer.c:1189-1202 | on any log, full or not, an insert grows the last record exactly when the last thing logged was an insert that ended where it starts, and gets a record of its own otherwise |
| `UndoTyping.InsertAfterUndo` | buffer.c:1189-1308 | an insert after an undo grows a record exactly when a delete was undone and the insert starts behind the bytes that came back |
| `UndoTyping.FreshAfter` | buffer.c:1203-1204 | the last thing logged is something else than an insert exactly after the other edits |
| `UndoTyping.Type` | buffer.c:442-462 | typing on a buffer is the run of adjacent inserts, and its text the one with all of them at the place |
| `UndoTyping.TypeThenUndo` | buffer.c:1189-1308 | on a buffer, typing and one undo give text and flag from before the first key, under exactly that condition |
| `UndoModels.EnteredOk` | buffer.c:1133-1234 | logging an edit keeps the value of a buffer consistent: records, moments, cursor, counts and side tables fit each other |
| `UndoModels.EnteredLinks` | buffer.c:1133-1234 | trimming, coalescing and appending keep every link between a record and the moments around it, and the new record is linked when it undoes its own edit |
| `EditBuffers.EditBuffer.AddLog` | buffer.c:1133-1234 | offsets, origins and styles are told, the buffer becomes modified, the record is added: the whole state is that of the value model |
| `EditBuffers.EditBuffer.Insert` | buffer.c:442-462 | the flat insert, and the whole state after it: records, moments, modified flag, log position, offsets, origins and styles are the old ones with one insert entered; nothing changes when nothing is inserted |
| `EditBuffers.EditBuffer.Delete` | buffer.c:466-532 | the flat delete, and the whole state after it in the same sense |
| `EditBuffers.EditBuffer.Write` | buffer.c:129-166 | the flat write, and the whole state after it: one write entered for the bytes overwritten and one insert for those appended |
| `EditBuffers.EditBuffer.InsertBuffer` | buffer.c:301-352 | the flat copy, and the whole state after it with one insert entered |
| `EditBuffers.EditBuffer.Undo` | buffer.c:1236-1308 | the record before the log position is played and its counter record logged: text, flag, log, offsets, origins and styles become those of the value model, and nothing changes when there is no record left |
| `EditBuffers.EditBuffer.Redo` | buffer.c:1313-1402 | the last record is played and removed, whatever it is; the whole state becomes that of the value model, and the log position is cleared exactly when it reaches the end |
| `UndoLinks.EditedFrom` | buffer.c:1133-1234 | an edit keeps the links of the records from any place on, and its own record is linked |
| `UndoLinks.UndoLinks1` | buffer.c:1236-1308 | an undo keeps them too, and the record that it logs is linked exactly when the undo takes back no write that changed something |
| `UndoLinks.UndoLinked` | buffer.c:1279-1289 | on a log all of whose records lead back, they all do after an undo exactly when it takes back no such write |
| `UndoLinks.RedoFrom` | buffer.c:1313-1402 | a redo keeps the links |
| `UndoTheorems.UndoBack` | buffer.c:1236-1308 | after k undos in a row the text and flag are those of the moment before the last j records, j being the undos that found one, and the records not yet undone are still linked, with records of all kinds, coalesced or not, and with trimming on the way |
| `UndoTheorems.UndoGives` | buffer.c:1236-1308 | the moment that k undos give needs only the last k records to lead back |
| `UndoTheorems.WalkAll` | buffer.c:1236-1308 | while the log is not full every undo finds a record until none is left |
| `UndoRedos.UndoRedo` | buffer.c:1236-1402 | k undos and j redos give moment n - k + j but for the bytes that undone writes lose, named one by one; with j = k the records are those of the start |
| `UndoRedos.RedoGivesAll` | buffer.c:1279-1402 | k undos and then redos pass through every moment again exactly when no write among the k records changed a byte |
| `UndoRedos.RedoGivesEnd` | buffer.c:1279-1402 | k undos and k redos give the last moment back exactly when no byte of its text is among the lost ones |
| `UndoSessions.Edits` | buffer.c:1133-1234 | any run of reads, writes, inserts, deletes and copies gives the text and results of the flat run, and the state of the value model: records and moments with coalescing and trimming, offsets, origins and styles |
| `UndoSessions.RunText` | buffer.c:1133-1234 | the value model of a run has the text of the flat run |
| `UndoSessions.RunLinked` | buffer.c:1133-1234 | over a run of edits the links of the records from any place on are kept, and every record that the run adds leads back to the moment before it |
| `UndoSessions.EditsThenUndo` | buffer.c:1133-1308 | after any run of edits, on a buffer with whatever undos before, k undos that stay behind the first linked record give moment n - j of the log that the run has left, n being its records and j the undos that found one |
| `UndoWholeRuns.SessionLinked` | buffer.c:1133-1402 | over every session of edits, undos and redos, with coalescing and trimming, linked records stay linked and every record added is linked, as long as no undo takes back a write that changed something |
| `UndoWholeRuns.SessionLinkedIff` | buffer.c:1133-1308 | in a session without redo that cannot fill the log that is also necessary |
| `UndoWholeRuns.SessionThenUndo` | buffer.c:1133-1402 | after any such session k undos give the moment before the last j records in the log, j being the undos that found one |
| `UndoWholeRuns.SessionThenUndos` | buffer.c:1133-1402 | the session and the undos on a buffer end in that state and at that moment |
| `UndoWholeRuns.OneUndoGives` | buffer.c:1236-1308 | one undo gives the moment before the last record exactly when that record is linked |
| `UndoWholeRuns.WriteUndoUndo` | buffer.c:1279-1289 | a write, an undo and another undo end with the text before the write, whereas the moment before the last record is the written text |
| `UndoSessions.UndosThenRedos` | buffer.c:1236-1402 | on a buffer, k undos and j redos give the text of the moment but for the lost bytes, and its flag; with j = k the log is byte for byte that of the start |
| `UndoSessions.Session` | buffer.c:1133-1402 | a session of edits, undos and redos whose commands find what they need (`Runs`) is, on a buffer, the session on its value |
| `UndoRuns.SessionRuns` | buffer.c:1133-1402 | edits, undos and redos in any order, on full logs and with trimming, always find what they need as long as the texts stay small, the log can be written and no redo takes effect in a row with an undo that trimmed the record it played |
| `UndoRuns.BoundedSafe` | buffer.c:1133-1402 | that is so when the longest moment and all bytes to be added fit an int together and no redo comes after the log may be full |
| `UndoRuns.RunSession` | buffer.c:1133-1402 | every such session on a buffer ends in the state of the session on its value, with the side tables in lockstep |
| `UndoRuns.SessionCount` | buffer.c:1150-1402 | over every session nb_logs minus the number of records grows by one with each redo that takes effect, and by nothing else |
| `UndoRuns.CountsRecords` | buffer.c:1394-1396 | from a log that counts right, nb_logs is the number of records exactly as long as no redo takes effect |
| `UndoRuns.EmptyFull` | buffer.c:1172-1187 | a session leaves a log that counts as full and holds no record exactly when it is full and the effective redos, with the excess at the start, make up the whole count |
| `UndoRuns.FewRedos` | buffer.c:1172-1187 | with fewer redo commands than that the log can always be written |
| `UndoRuns.TrimmedRedo` | buffer.c:1172-1308 | in a full log, undoing the oldest record, redoing and undoing again plays a record on a text of the expected length exactly when that record is a write |
| `UndoRuns.MisfitByRedo` | buffer.c:1172-1402 | inserts that fill the log, undos to its end and one redo leave a buffer on which the next undo does not find that length |
| `UndoSessions.SessionLockstep` | buffer.c:1013-1147 | over every session that runs, every registered offset divides the surviving bytes as at the start, every surviving byte is the byte that its origin names, and every untouched byte keeps its style |
| `UndoRuns.SessionStaysInStep` | buffer.c:1013-1147 | the same for the sessions of `UndoRuns.SessionRuns`, which are shown to run |
| `UndoSessions.WriteUndoRedo` | buffer.c:1279-1402 | write, undo and redo on a buffer always end with the text before the write, so the write is there again exactly when it changed nothing |
| `UndoSessions.FillByRedo` | buffer.c:1394-1396 | undoing and redoing one insert often enough leaves a log that counts as full and holds no record; `UndoRuns.EmptyFull` has the exact condition |
| `SideTables.MovedDivides` | buffer.c:1013-1037 | a registered offset stays in the text and keeps before it exactly the surviving bytes that were before it |
| `SideTables.MovedInsert` | buffer.c:1018-1025 | after an insert the text before an offset is the old one, with the new bytes in it when they went in before the offset, or at it and the offset is an edge |
| `SideTables.MovedDelete` | buffer.c:1026-1032 | after a delete the text before an offset is the old one without the deleted bytes, and ends at the gap when the offset was inside |
| `SideTables.EditedSurvives` | buffer.c:1013-1037 | the table of origins follows the text: a surviving byte is the byte of the start that the table names |
| `SideTables.RestyledBytes` | buffer.c:1065-1119 | an edit of the style buffer at scaled offsets is the edit of the style values |
| `SideTables.Watchers.PutStyles` | buffer.c:1085-1112 | the chunk loop inserts or overwrites exactly the styles of the range |
| `SideTables.Watchers.SetStyle` | buffer.c:1065-1119 | the style buffer stays one style per byte, and only the styles of the range change |
| `SideTables.ToldInStep` | buffer.c:1013-1147 | one callback keeps offsets, origins and styles in step with the start |
| `SideTables.Watchers.Notify` | buffer.c:1144-1147 | the registered offsets, the origins and the styles become the moved, traced and restyled old ones |
| `Tabs.LayoutKept` | extras.c:346-469 | what comes before a blank is read the same before another blank, so replacing the text from a blank on by one that looks the same keeps the whole layout |
| `TabLayout.NextBlank` | extras.c:387-406 | a run of blanks, each a space or a tab up to its stop, looks like a number of spaces |
| `Tabs.GotoBol` | buffer.c:2546-2556 | the offset is at a line end read by eb_prevc, or at the start; no line end is read between it and the argument |
| `TabForms.NormalIsNeat` | extras.c:387-409 | the form said place by place (no space short of a stop is followed by a tab or by a space that reaches the stop, inside the region) is the form said along the text |
| `Tabs.InsertSpaces` | buffer.c:2194-2207 | the chunk loop inserts exactly the spaces |
| `Tabs.Tabify` | extras.c:346-409 | from the start of the line on, the tab-expanded text is unchanged for every text, tab width, region and decoder; so is every byte before the region and behind it, but for a character across its end; log, offsets and styles are those of a run of logged edits that begins with a delete; a region behind the end of the text changes nothing; in the region no space short of a stop is followed by a tab or by a space that reaches the stop, so every run of two spaces that reaches a stop is a tab; the text never grows, and it stays as it is exactly when it has that form already |
| `Tabs.Untabify` | extras.c:427-469 | the tab-expanded text is unchanged, no character that begins in the region is a tab in whatever encoding, the text before it is unchanged, and so is the text behind it and a run of tabs across its end; log, offsets and styles are those of a run of logged edits that begins with a delete; a region behind the end of the text changes nothing |
| `TabUndo.RunUndone` | buffer.c:1150-1308 | as many undos as records were made give the text and modified flag from before either command, whatever the log held before, when nothing is trimmed |
| `TabUndo.UndoRun` | buffer.c:1236-1308 | the same on a buffer |
| `TabDecoders.DecoderFits` | buffer.c:1443-1491 | eb_nextc around a suitable character decoder meets what both commands ask of it, for Unix, DOS and Mac line ends |
| `TabDecoders.OneByteFits` | buffer.c:1456-1459 | a one byte charset that keeps space and tab is suitable |
| `TabDecoders.LaxUtf8Fits` | util.c:2221-2253 | the lax UTF-8 decoder is suitable, also on malformed text and overlong forms |
| `Utf8.ToUtf8` | cutils.c:367-400 | the bytes are the encoding for codes below 2^31, and none for larger ones |
| `Utf8.FromUtf8` | cutils.c:416-480 | the loop computes the decoding of the first bytes |
| `Utf8.DecodeSound` | cutils.c:416-480 | bytes that are accepted are the encoding of the result, so no overlong form is accepted |
| `Utf8.DecodeComplete` | cutils.c:416-480 | the encoding of any code below 2^31 is decoded to it and consumed exactly, whatever follows |
| `Utf8.TextRoundTrip` | cutils.c:367-480 | any sequence of codes survives the way to bytes and back |
| `Utf8.BytesRoundTrip` | cutils.c:367-480 | any byte sequence that decodes is the encoding of what it decodes to |
| `ArithmeticCode.LevelBounds` | libfbf.c:334-339 | the decision level lies strictly inside the range, at most half of it and at least 24, without 32 bit overflow |
| `ArithmeticCode.LevelShare` | libfbf.c:281-339 | the level is within a fifth of the share of the range that the counts give to the rarer bit, but for rounding down |
| `ArithmeticCode.BumpedCounts` | libfbf.c:261-276 | in terms of the two counts: that of the decoded bit grows by 2 and the other stays; when it is full both become the rounded halves; both stay odd and between 1 and 31 |
| `ArithmeticCode.EstimateKept` | libfbf.c:264-276 | the estimate of the decoded bit falls exactly when its count is 31 and the other one 1, 5 or 9 |
| `ArithmeticCode.AdaptedCounts` | libfbf.c:264-276 | a context that starts at 0 holds the numbers of zeros and ones seen, until one of them passes 15 |
| `ArithmeticCode.NarrowedLegal` | libfbf.c:341-358 | after any bit and at most one renormalisation the range is between RANGE_MIN and 2^24 again |
| `ArithmeticCode.NarrowedContains` | libfbf.c:341-358 | exactly one bit keeps the stream inside the narrowed interval, the one found by comparing with the level |
| `ArithmeticDecoder.ContextTables.FillIncr` | libfbf.c:261-279 | the table holds the context after one more bit, with both counts halved when one is full; `ArithmeticCode.BumpedCounts` says what that does to the counts |
| `ArithmeticDecoder.ShiftEntry` | libfbf.c:281-310 | each entry rounds the probability of the rarer bit to 6/8 or 8/8 of a power of two, with a shift of at most 5 (7 for three quarters) |
| `ArithmeticDecoder.Decoder.constructor` | libfbf.c:312-319 | the decoder starts on the whole interval of three bytes |
| `ArithmeticDecoder.Decoder.Renormalise` | libfbf.c:354-358 | one byte is enough and the mask cuts nothing off |
| `ArithmeticDecoder.Decoder.DecodeCtx` | libfbf.c:321-366 | alow < arange and RANGE_MIN <= arange <= 2^24 are kept, the interval becomes the part of the decoded bit, and only the used context changes |
| `ArithmeticRuns.CodedUnique` | libfbf.c:321-366 | a stream holds at most one bit sequence of each length |
| `ArithmeticRuns.CountsOwnBits` | libfbf.c:350-352 | along any code each context has counted exactly the bits for which it was chosen, in order |
| `ArithmeticRuns.Decode` | libfbf.c:321-366 | for every stream and every choice of contexts the decoded bits are exactly those whose interval contains the stream, from any legal interval on; every context has counted exactly the bits decoded with it |
| `ArithmeticRuns.RoundTrip` | libfbf.c:312-366 | any bits are decoded from the bytes of the low end of their interval, whatever follows |
| `Glyphs.CtxInjective` | libfbf.c:371-414 | different neighbourhoods have different context numbers |
| `Glyphs.GetCtx` | libfbf.c:371-414 | every pixel read is inside the bitmap and the context number inside the table |
| `Glyphs.CtxOfPicture` | libfbf.c:371-414 | each field of the context is the pixel of the picture at its column and row distance, set where the picture has none, and the two far ones 2 near the edge |
| `Glyphs.CanvasShows` | libfbf.c:428-461 | at every pixel of any picture the bitmap shows exactly the pixels decoded so far |
| `Glyphs.CanvasCtx` | libfbf.c:433-439 | so the context of the next pixel is that of its neighbours in the picture |
| `Glyphs.YoungCounts` | libfbf.c:434-436 | a context is young when it has counted at most one bit |
| `Glyphs.DecodePixel` | libfbf.c:433-444 | a young context decodes with the shared context of its low bits, and both are counted; the interval becomes the part of the decoded bit under the context used |
| `Glyphs.PackedFull` | libfbf.c:445-450 | the low byte of the shifted buffer holds the last eight pixels |
| `Glyphs.PackedBit` | libfbf.c:445-460 | bit 7 - i of byte k of a packed row is pixel 8k + i, or 0 behind the end |
| `Glyphs.DecodeRow` | libfbf.c:431-462 | a row goes on with the code of the pixels before it and is packed into its bytes, padded with zeros |
| `Glyphs.DecodeGlyph` | libfbf.c:416-463 | the packed rows are those of the one picture whose code, with both context arrays adapting, contains the stream; both arrays have counted its pixels |
| `Glyphs.GlyphRoundTrip` | libfbf.c:312-463 | every picture is written from the bytes of the low end of its interval, whatever follows |

## Left out

- EditBuffers.EditBuffer.Insert: the other edits too need a log that is not full or holds a record (`Loggable`); `UndoRuns.EmptyFull` says exactly when a session breaks it. `eb_addlog` then takes a length from an uninitialised header (buffer.c:1176-1181), which has no model.
- EditBuffers.EditBuffer.Delete: as for `EditBuffers.EditBuffer.Insert`.
- EditBuffers.EditBuffer.Write: as for `EditBuffers.EditBuffer.Insert`.
- EditBuffers.EditBuffer.InsertBuffer: as for `EditBuffers.EditBuffer.Insert`.
- EditBuffers.EditBuffer.AddLog: as for `EditBuffers.EditBuffer.Insert`.
- UndoLogs.UndoLog.Trim: as for `EditBuffers.EditBuffer.Insert`.
- UndoLogs.UndoLog.Add: as for `EditBuffers.EditBuffer.Insert`.
- EditBuffers.EditBuffer.Undo: needs the text to have the length that the record it plays expects, which `UndoRuns.SessionRuns` shows for its sessions. After an undo that trimmed its own record and a redo it may not have it (`UndoRuns.TrimmedRedo`); `do_undo` then tells its callbacks offsets outside the text, and what follows is not modelled.
- UndoSessions.Session: needs `Runs`; `UndoRuns.RunSession` is the form without it.
- UndoSessions.SessionLockstep: needs `Runs`; `UndoRuns.SessionStaysInStep` is the form without it.
- UndoRedos.UndoRedo: for k undos that trim nothing; a trimmed log has lost the records that redo would need.
- Positions.GetPos: one byte charsets with Unix or Mac line ends only; for DOS line ends and UTF-8 columns the code keeps no state across pages (charset.c:311-315, charset.c:1514-1516).
- RegexExec.LreExec: patterns whose unbounded loops all carry the zero-advance check or always move; the loops without it need not stop.
- RegexLimits.UncheckedLoopEnds: loops of zero or one round at least, over an atom whose own loops are supported.
- RegexMain.LreCompile: code of less than 2^31 bytes.
- RegexReversal.Reversal: patterns without captures and back references, for which a set of end positions says everything.
- RegexAlone.CodeReversal: the same patterns.
- Tabs.Tabify: a region behind the end of the text returns at once; where `eb_goto_bol` stops there is not modelled and changes nothing. Charsets in which space or tab is another byte (UTF-16, EBCDIC) are not covered.
- Tabs.Untabify: as for `Tabs.Tabify`, and a text that stays below 2^31 bytes even if every byte from the region on is a tab.
- Parsing of pattern text, escapes, named groups, property classes and case tables: the compiler is modelled on parsed patterns, and folding is a parameter.
- UTF-16 surrogate stepping and the flavour of the machine that reads from an edit buffer.
- Allocation failure, file loading and saving, tracing, status messages, the end of the font stream.
- `int` overflow of offsets: texts are shorter than 2^31 bytes, and the length of the log is not bounded.
- The lazy creation of the log buffer; a buffer here has one from the start.
- Charset detection, stateful charsets, the property list of a buffer, colours, windows, key maps and commands other than undo, redo, tabify and untabify: interface, tables or easy members.
