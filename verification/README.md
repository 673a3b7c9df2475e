# Verified models of the 8086 tools and utilities

This project models, in Dafny, the parts of the repository whose correctness is not plain from reading one procedure,
and proves what they are for. Each area follows one source file or a few that work together:

* **compress** (`Primes`, `BitStream`, `Lzw`, `CodeStream`, `CodeTable`, `Mirror`, `Longest`, `Compress`, `Decompress`,
  `Format`, `RoundTrip`): the compressor with its hash table and bit buffer, the decompressor with its string table and
  stack. Whatever was compressed comes back, for every input, code size, mode and policy of clearing the table, and
  every code stands for as much of the text as the table allows.
* **The assembler's branches** (`Relax`, `Branches`, `Sdi`, `Program`, `Assembler`): two passes over a program, the
  list of branches that may be short or long, and its fixed point between the passes. Pass 2 finds everything where
  pass 1 said, every branch lands on its label, and no branch is longer than it has to be.
* **Conditions and switches of the C compiler** (`Machine`, `CBranch`, `Emitter`, `Switch`, `CaseSort`, `SwitchTable`):
  boolean trees turned into branches, long comparisons, and the code of `switch`, run on one small machine.
* **The linker's symbols and addresses** (`Symbols`, `Buckets`, `Segments`, `LinkTable`, `Layout`, `Placement`,
  `LinkPasses`): quadratic probing over segments, taking back a library member, and, on that table, both passes: where
  everything ends up, and whether the addresses of the second agree with those of the first.
* **The C compiler's scopes** (`Scopes`, `ScopeTable`): linear probing, and the sweep that closes a scope in place.
* **Initializers** (`Aggregates`, `InitStack`): the stack that walks over the scalars of nested arrays and structures.
* **Constants** (`Bitwise`, `Optim`): the tree rewriting of `optim` and `conval` in wrap-around arithmetic.
* **crypt** (`Rotors`), **diffh** (`DiffLines`, `Diff`), **files over records** (`RecordFile`) and **the boot loader's
  files** (`BlockMap`).

Procedures that work on tables, buffers and counters are methods of classes with the same state. Their contracts tie
the new state to functions of the old one, and the lemmas are about those functions. Input that the source takes from
outside (characters, random numbers, the order in which library members are tried, the outcome of the test that clears
the compressor's table, transfers that fail) is arbitrary.

Where the code does not do what one would expect, the project says exactly when it does:

* The compressor takes a key of 0 for a slot not in use, so it can lose the pair of code 0 and character 0
  (`CodeTable.ZeroPairLost`); no other pair is lost (`CodeTable.EnterCompletes`, `Longest.LongestMatch`).
* `symfree` with a null mark empties the table and leaves `nextsym` behind (`LinkTable.SymbolTable.SymFree`). This
  happens exactly if the first module with external symbols is a library member that is ripped out
  (`Layout.LostExactly`, `Layout.MarkIsLost`).
* A full hash segment can block a name for good (`Segments.LookupIs`, `Segments.BotchHappens`).
* A name that is defined once is reported as multiply defined if its definition is a function and another module asked
  for room for it before (`Layout.OnceButCommon`), or if it is in bss and a file with nothing but bss comes before it
  (`Layout.OnceBehindBss`); `Layout.NoOdds` says exactly when.
* `clearst` can lose an entry that has no type yet (`Scopes.SweepEnd`, `Scopes.LossExample`).
* The span of a branch that is already long can be wrong; this never matters (`Relax.LongSpanInexact`,
  `Relax.LongTracks`).
* `diffh` cuts the rest of a file at its idea of infinity (`Diff.Differ.Run`, `Diff.CutOff`).
* The boot loader stops at a directory entry that is not in use (`BlockMap.FindsLive`, `BlockMap.UnusedFirst`).
* `_rwlen` keeps record numbers in a short, and so may write zeros within a file (`RecordFile.LengthensWhen`,
  `RecordFile.ZerosWithin`, `RecordFile.ZerosWritten`).
* When a file ends with a full record, a write 128 bytes or more past its end leaves out the next record
  (`RecordFile.ZeroGapWhen`).
* A case given twice in a switch makes the switches around it report one too (`SwitchTable.SwitchTable.End`).

`dafny verify dfyconfig.toml` checks the whole project.

## Model

| member | source | states |
|---|---|---|
| BitStream.Store | usr/contrib/compress/compress.c:889-907 | `output`'s bit packing: after it the next n bits of the buffer, least significant first, are the code, and all bits before them are what they were, whatever bits lay behind |
| BitStream.Extract | usr/contrib/compress/compress.c:1111-1135 | `getcode`'s unpacking reads exactly the n bits at the offset, across one, two or three bytes |
| BitStream.StoredField | usr/contrib/compress/compress.c:889-907 | the masks and shifts of `output` put the low bits of a code behind the bits kept and the rest in the next bytes: read back as one field they give the code |
| BitStream.FieldInThreeBytes | usr/contrib/compress/compress.c:1111-1135 | a field that spans three bytes is the sum `getcode` forms, whatever the bit offset |
| BitStream.FieldSplits | usr/contrib/compress/compress.c:889-907 | a field of bits is its low part plus its shifted high part, at every split |
| Lzw.StepKeeps | usr/contrib/compress/compress.c:1005-1053 | one code taken by the decoder keeps its table well founded (every prefix older than its entry) and appends exactly the string of the code, the code not yet entered included |
| Lzw.StrExtends | usr/contrib/compress/compress.c:1028-1048 | entering more strings changes none that are there |
| Lzw.StrLength | usr/contrib/compress/compress.c:1028-1033 | a string is no longer than its chain of prefixes, so it is bounded by the number of its code |
| Lzw.NextWidthKeeps | usr/contrib/compress/compress.c:1088-1098 | every change of code width keeps it between 9 and the largest, with the matching largest code |
| CodeStream.StreamDecodes | usr/contrib/compress/compress.c:1082-1140 | for every code sequence laid out slot by slot as the encoder packs it, the reader returns exactly that sequence, restarts its width at the same code, skips the padding behind a width change and takes no padding at the end for a code |
| CodeStream.ReadNext | usr/contrib/compress/compress.c:1082-1139 | from the slot of one code the reader comes to the slot of the next, through a width change, a CLEAR or a fresh buffer |
| CodeStream.ReadEnd | usr/contrib/compress/compress.c:1099-1104 | behind the last code the reader reports the end, because what is left is shorter than a code |
| CodeStream.RunFrom | usr/contrib/compress/compress.c:1003-1054 | from any point of a packed stream the decoder's output is that of the rest of the codes |
| CodeStream.PackedExtends | usr/contrib/compress/compress.c:873-954 | storing a code in the next slot extends a packed stream by it |
| CodeStream.CodeFits | usr/contrib/compress/compress.c:924-947 | a code the decoder has a string for fits in the width it is sent with |
| CodeStream.WidthIs | usr/contrib/compress/compress.c:924-947 | the width is always the least in which the number of the next entry can be written, nine bits at least; only with the largest width may that number be one more |
| CodeTable.KeyInjective | usr/contrib/compress/compress.c:762 | the key of a prefix and a character determines both |
| CodeTable.FirstProbe | usr/contrib/compress/compress.c:749-763 | with the table size of its number of bits, the exclusive-or hash of the first probe lies in the table |
| CodeTable.ProbeReaches | usr/contrib/compress/compress.c:770-782 | with a prime table size the secondary probe reaches every slot from every other one, slot 0 and its displacement 1 included |
| CodeTable.FoundCode | usr/contrib/compress/compress.c:765-781 | a slot holding the key yields a code whose string is the prefix's string and the character |
| CodeTable.EnterKeeps | usr/contrib/compress/compress.c:792-793 | entering a key in any slot whatever, overwriting or not, keeps every stored code sound |
| CodeTable.EnterCompletes | usr/contrib/compress/compress.c:765-793 | entering a pair where its own search has ended keeps every entry with a key above 0 within reach of its search |
| CodeTable.Absent | usr/contrib/compress/compress.c:765-782 | a search that ends without success shows that the table does not have the pair, unless its key is 0 |
| CodeTable.ZeroPairLost | usr/contrib/compress/compress.c:780-793 | a text of ten bytes: a pair is entered with the key 0, which the loop takes for a slot not in use; another is written over it, and the pair is not found when it comes again |
| Mirror.SendMirrors | usr/contrib/compress/compress.c:783-793 | the encoder's table is the decoder's, one entry ahead: sending a code brings the decoder to the table the encoder had before, with the string of the code appended |
| Mirror.EnterMirrors | usr/contrib/compress/compress.c:784-797 | after the encoder's entry the two tables again differ by exactly the entry the decoder cannot complete yet |
| Mirror.ClearMirrors | usr/contrib/compress/compress.c:1380-1390 | CLEAR empties both tables |
| Compress.Compressor.Output | usr/contrib/compress/compress.c:873-954 | `output` of a code: the stream so far stays decodable and is followed by the code, with the width changed and the buffer flushed where the reader expects it |
| Compress.Compressor.FlushEnd | usr/contrib/compress/compress.c:955-971 | `output(-1)` writes what is left of the buffer; the file then holds every code |
| Compress.Compressor.Find | usr/contrib/compress/compress.c:762-782 | with fewer entries than slots the probe loop ends, at the first slot of the pair's own probe that holds its key or is not in use; found exactly if it holds the key |
| Compress.Compressor.ClearBlock | usr/contrib/compress/compress.c:1351-1391 | for any outcome of the ratio test the codes sent so far still decode to what was read, and after CLEAR the table is empty |
| Compress.Compressor.Enter | usr/contrib/compress/compress.c:790-793 | a new string gets the next code, the decoder's next one |
| Compress.Compressor.Compress | usr/contrib/compress/compress.c:714-828 | for every input, the empty one included, every largest width from 9 to 16, block mode or not, and every policy of clearing a full table: the file begins with 0x1f, 0x9d and the largest width, plus 128 in block mode; behind them lie codes that give back the input, each for as much of it as the table allows; and the file decompresses to the input |
| Compress.FileDecodes | usr/contrib/compress/compress.c:727-746 | header and packed codes of a text decompress to the text |
| Format.FirstEntered | usr/contrib/compress/compress.c:1000-1053 | in block mode the first code entered is 257, otherwise 256; it stands for the first two codes |
| Format.Clears | usr/contrib/compress/compress.c:1004-1012 | code 256 clears the table in block mode, keeping what is written; no other code does, nor any code otherwise |
| Format.FourTimes | usr/contrib/compress/compress.c:543-555 | the bytes of files, in numbers: 1f 9d 10 and the codes a, 256, a in the old format, 1f 9d 90 and a, 257, a in block mode, and so for every largest width, both give the character a four times |
| Format.ClearedText | usr/contrib/compress/compress.c:1004-1012 | a file in block mode with the codes a, 256, b gives a and b: what follows code 256 begins behind the nine bytes, whatever fills them |
| Longest.GreedyAt | usr/contrib/compress/compress.c:756-798 | of every code sent: no entry of the table goes on from it with the character that follows, but for the pair of code 0 and character 0, which can be lost; and the table is cleared only when it is full |
| Longest.LongestMatch | usr/contrib/compress/compress.c:756-798 | if nowhere in the text two zero bytes follow each other, every code that is sent stands for the longest string of the table that the text has there |
| Longest.TableUnique | usr/contrib/compress/compress.c:790-793 | of such a text no pair is entered twice |
| Decompress.Decompressor.GetCode | usr/contrib/compress/compress.c:1082-1140 | `getcode` on the buffer and file returns the next code of the reader's specification, or the end |
| Decompress.Decompressor.PushString | usr/contrib/compress/compress.c:1017-1033 | the stack receives the string of the code backwards, and its first character is reported; the stack never overflows |
| Decompress.StackSuffices | usr/contrib/compress/compress.c:1028-1033 | no string is longer than the room above the table |
| Decompress.Decompressor.Round | usr/contrib/compress/compress.c:1003-1054 | one turn of the loop writes what the decoder's step writes and keeps table, last code and last character its own |
| Decompress.Decompressor.UncompressFile | usr/contrib/compress/compress.c:543-560 | a file is not in compressed format exactly if it does not begin with 0x1f and 0x9d, and compressed with too many bits exactly if the low five bits of its third byte say so or it has none; otherwise, if its codes are those of a compressor, what is written is what the decoder's specification makes of the rest, beginning with codes of nine bits, in block mode exactly if the third byte is 128 or more, from whatever an earlier file left in the buffer |
| Primes.PrimeFactor | contrib/8086/a86/ld86.c:83-92 | Euclid's lemma, on which the distinctness of the linker's probes rests |
| Primes.Inverse | usr/contrib/compress/compress.c:770-775 | residues below a prime can be inverted, on which the reach of the compressor's probes rests |
| Primes.HashSizesArePrime | usr/contrib/compress/compress.c:75-87 | the five table sizes are prime |
| Relax.MoveTracks | contrib/8086/a86/sdi.c:130-153 | moving span and base of a short branch when another one grows keeps them the exact distance and place in the grown layout |
| Relax.LongTracks | contrib/8086/a86/sdi.c:130-153 | a branch that is long stays out of a byte's reach through every later growth, though its span is no longer exact |
| Relax.LongSpanInexact | contrib/8086/a86/sdi.c:143-151 | the span of a long branch can be wrong: a layout in which it is |
| Relax.LongStaysLeast | contrib/8086/a86/sdi.c:102-125 | a branch made long because it does not fit is long in every assignment of lengths in which all short branches fit |
| Relax.ExactMonotone | contrib/8086/a86/sdi.c:102-125 | growing branches never shortens a distance |
| Branches.RelationHolds | contrib/8086/a86/ins.c:73-82 | for all words x and y, by the flags of x - y: each of the ten conditions holds exactly if x and y stand in the relation its name says, signed or unsigned |
| Branches.Encode | contrib/8086/a86/ins.c:581-623 | the bytes of a short branch, a jump, or an opposite branch around a jump, executed, go to the target, and otherwise behind themselves: after a comparison of any words exactly if they stand in the relation the operation names, which is defined apart from the opcodes, and for flags however set exactly if they meet its condition |
| Sdi.Sdis.MakeSdi | contrib/8086/a86/sdi.c:37-69 | a descriptor is inserted behind those at or before its place; the list stays ordered |
| Sdi.Sdis.SdiInc | contrib/8086/a86/sdi.c:174-189 | the early exit at the first branch behind the offset loses nothing: the sum is that over all branches of the section |
| Sdi.Sdis.LongSdi | contrib/8086/a86/sdi.c:130-153 | one branch grows, all others move, and the list again describes the grown layout |
| Sdi.Sdis.Resolve | contrib/8086/a86/sdi.c:102-125 | the fixed point is reached, never by way of the error, and is the least assignment of lengths in which every short branch fits |
| Sdi.NotPathological | contrib/8086/a86/sdi.c:112-123 | no branch ever wants to be shorter than it is |
| Sdi.LongKeeps | contrib/8086/a86/sdi.c:130-153 | lengthening keeps spans exact for short branches and the assignment below every one that fits |
| Sdi.SettledFits | contrib/8086/a86/sdi.c:112-124 | when nothing changes any more every short branch fits |
| Program.RealIsOffset | contrib/8086/a86/sdi.c:174-189 | a pass 1 offset plus the growth before it is the offset in the final layout |
| Program.LinkedPlaced | contrib/8086/a86/ins.c:596-597 | the descriptors of pass 1 are those of the branches, in order and apart |
| Program.FinalLength | contrib/8086/a86/ins.c:598-618 | with symbols fixed, the length `branch` picks in pass 2 is the resolved one |
| Assembler.Assembler.SymFix | contrib/8086/a86/sym.c:98-116 | every label gets its offset in the final layout plus the start of its section |
| Assembler.Assembler.EndFirst | contrib/8086/a86/ps.c:3-29 | what happens between the passes settles the layout, the section sizes and all labels |
| Assembler.Assembler.BranchFirst | contrib/8086/a86/ins.c:596-597 | pass 1 records the branch and reserves its short length |
| Assembler.Assembler.BranchSecond | contrib/8086/a86/ins.c:594-618 | pass 2 puts out a branch of the resolved length that lands on its label |
| Assembler.Assembler.LabelSecond | contrib/8086/a86/scan.c:166-172 | pass 2 finds every label where pass 1 and `Sym_Fix` put it, so it reports nothing |
| Assembler.Assembler.Scan | contrib/8086/a86/scan.c:117-123 | a pass over all statements keeps the location counters those of the layout |
| Assembler.Assembler.Assemble | contrib/8086/a86/ps.c:3-47 | pass 1 complains exactly about programs with a label defined twice; otherwise pass 2 complains about nothing, every branch lands on its label, sections do not run into each other and branch lengths are the least that fit: a branch to a label takes two bytes exactly if the label is in its section, at most 128 bytes before its end or 127 behind |
| CBranch.HalvesDecide | contrib/8086/c86/local2.c:621-632 | for all pairs of longs and all ten relations, the two conditions on the upper halves and the one on the lower decide the comparison |
| CBranch.NegatedHolds | contrib/8086/c86/reader.c:858 | the negative of each relation holds exactly when the relation does not |
| CBranch.RelDoes | contrib/8086/c86/reader.c:870-924 | a relation, negated when only the false label is given and simplified against 0, goes where its truth value says |
| CBranch.AndDoes | contrib/8086/c86/reader.c:926-932 | `&&` goes to the label its short-circuit value calls for |
| CBranch.OrDoes | contrib/8086/c86/reader.c:934-940 | `||` goes to the label its short-circuit value calls for |
| CBranch.QuestDoes | contrib/8086/c86/reader.c:953-964 | `?:` with its shared and made-up labels goes where its value says |
| CBranch.GenLabels | contrib/8086/c86/reader.c:860-989 | labels made up for an expression are fresh and defined once, in its own code |
| CBranch.Correct | contrib/8086/c86/reader.c:860-989 | for every boolean tree and every pair of labels with one given, the emitted code evaluates the leaves that short-circuit evaluation does, in its order, and comes to the label the value calls for, or falls through |
| Emitter.Emitter.CbGen | contrib/8086/c86/local2.c:634-666 | a condition is one branch, or the three branches and the label of a comparison of longs put off until then |
| Emitter.Emitter.CBranch | contrib/8086/c86/reader.c:860-989 | the recursive procedure, putting out instructions and taking labels from a counter, emits the code that `CBranch.Correct` is about |
| Emitter.Compiled | contrib/8086/c86/reader.c:860-989 | a compiled condition, put before any code and run from its start, behaves as its value says |
| Switch.PickIs | contrib/8086/c86/code.c:266-312 | among ascending cases the one with the value is found wherever it is, and the default only if there is none |
| Switch.BinaryGoes | contrib/8086/c86/code.c:315-337 | the search takes any word to its case, to the default, or out at the end; without a default, a left half that finds nothing runs on into the right half, which finds nothing either |
| Switch.DirectGoes | contrib/8086/c86/code.c:278-312 | the subtraction, the unsigned bounds check and the jump through the table take any word, in wrap-around arithmetic, to its case, the default, or behind the jump |
| Switch.SwitchGoes | contrib/8086/c86/code.c:266-313 | whichever way is chosen, the word comes to the same label |
| Switch.SwitchDispatches | contrib/8086/c86/code.c:266-337 | for cases in any order that were sorted, the code dispatches on the cases as they were given |
| CaseSort.Sort | contrib/8086/c86/cgram.c:176-200 | the bubble sort whose bound drops to the last exchange ends, in order, with value and label pairs permuted and everything outside untouched |
| CaseSort.Sweep | contrib/8086/c86/cgram.c:182-198 | after one sweep what follows the last exchange is in place; the bound falls except once |
| SwitchTable.SwitchTable.Begin | contrib/8086/c86/cgram.c:108-168 | a switch opens on top of the entries of the ones around it, without a default |
| SwitchTable.SwitchTable.AddCase | contrib/8086/c86/cgram.c:128-146 | a case gets the next entry and a fresh label, or the error that applies |
| SwitchTable.SwitchTable.AddDefault | contrib/8086/c86/cgram.c:148-158 | a default gets a fresh label unless there is one |
| SwitchTable.SwitchTable.Words | contrib/8086/c86/code.c:303-306 | the table put out word by word holds, for each value in range, the label that value selects |
| SwitchTable.SwitchTable.Binary | contrib/8086/c86/code.c:315-337 | the recursion over the array puts out the search of the specification, with its label before it |
| Buckets.ProbesDistinct | contrib/8086/a86/ld86.c:83-92 | the 1103 probes of a name hit distinct buckets |
| Buckets.CrowdedFull | contrib/8086/a86/ld86.c:83-92 | a segment in which all probes of a name find symbols is full |
| Buckets.SearchIs | contrib/8086/a86/ld86.c:1639-1657 | a search finds the name exactly when it is in the segment; with room it otherwise ends at the empty bucket where the name belongs; in a full segment it gives up, or ends in the error exactly if all probes find other names |
| Buckets.AddSound | contrib/8086/a86/ld86.c:1700-1714 | entering a symbol at that bucket keeps every symbol reachable |
| Buckets.DropSound | contrib/8086/a86/ld86.c:1676-1683 | taking back the newest symbol hides none of the others |
| Buckets.Determined | contrib/8086/a86/ld86.c:1663-1683 | the buckets follow from the symbols |
| Segments.LookupIs | contrib/8086/a86/ld86.c:1613-1661 | over all segments a live name is found where it is; a new one gets the bucket where it belongs in the first segment with room; the table error comes exactly when a full segment blocks the name |
| Segments.CutRestores | contrib/8086/a86/ld86.c:1663-1687 | whatever was entered since a mark, cutting back to it restores names and buckets |
| LinkTable.Segment.Probe | contrib/8086/a86/ld86.c:1639-1657 | the probe loop with its growing step is the quadratic search, and ends |
| LinkTable.SymbolTable.Lookup | contrib/8086/a86/ld86.c:1613-1661 | `lookup`, allocating segments as it goes, is the search over all segments |
| LinkTable.SymbolTable.Enter | contrib/8086/a86/ld86.c:1700-1720 | the bucket from `lookup` is in the current segment, so there is no enter botch; the symbol is new exactly when the bucket is empty |
| LinkTable.SymbolTable.LookupEnter | contrib/8086/a86/ld86.c:777-777 | a name is live afterwards, is new exactly if it was not live before, and no other name moves |
| LinkTable.SymbolTable.SymFree | contrib/8086/a86/ld86.c:1663-1687 | everything behind the mark goes and nothing else; a mark that is not in the table is an error; a null mark empties the table and leaves nextsym where it was |
| Scopes.SoundReached | contrib/8086/c86/pftn.c:1671-1687 | a table that passes `checkst` has no empty slot between the home of an entry and its place, seen from any empty slot |
| Scopes.ReachedSound | contrib/8086/c86/pftn.c:1671-1687 | and the other way round |
| Scopes.StepMoved | contrib/8086/c86/pftn.c:1747-1751 | moving an entry up to the first hole behind its home leaves everything before it findable and everything after it as it was |
| Scopes.StepRemoved | contrib/8086/c86/pftn.c:1731-1746 | an entry of an inner scope goes |
| Scopes.StepStays | contrib/8086/c86/pftn.c:1747-1751 | an entry with no hole before it stays |
| Scopes.StepLost | contrib/8086/c86/pftn.c:1696-1701 | an entry that has no type yet and is looked up where it lies is emptied |
| Scopes.LossIsSeen | contrib/8086/c86/pftn.c:1696-1701 | such a loss could be told from the table as it was |
| Scopes.SweepEnd | contrib/8086/c86/pftn.c:1709-1762 | after the sweep all entries are found where they lie; of those to be kept all with a type are there, and all there are exactly if none was to be lost |
| Scopes.TypedKept | contrib/8086/c86/pftn.c:1696-1701 | no entry is lost when all that stay have types |
| Scopes.LossExample | contrib/8086/c86/pftn.c:1696-1701 | a table in which the sweep loses an entry |
| ScopeTable.SymbolTable.Lookup | contrib/8086/c86/pftn.c:1617-1667 | the circular probe finds the key or makes an entry in the first empty slot, or reports a full table |
| ScopeTable.SymbolTable.Relook | contrib/8086/c86/pftn.c:1691-1707 | the entry is found where it is or can move to, and nothing else changes |
| ScopeTable.SymbolTable.Clearst | contrib/8086/c86/pftn.c:1709-1762 | with an empty slot, distinct keys and every entry findable, the table afterwards holds what `Scopes.Cleared` says; a full table is left alone |
| Aggregates.PushRest | contrib/8086/c86/pftn.c:814-871 | pushing a type puts its first scalar on top, with exactly the rest of its scalars still to come |
| Aggregates.AdvanceRest | contrib/8086/c86/pftn.c:1047-1085 | when a scalar is done the next one to come is on top, at its offset |
| Aggregates.WalkVisits | contrib/8086/c86/pftn.c:1047-1085 | the k-th scalar visited is the k-th of the recursive flattening, at its offset; an array at the bottom goes on for as many elements as there are initializers |
| Aggregates.WalkApart | contrib/8086/c86/pftn.c:1047-1085 | for a variable whose struct members lie apart, in order and within the struct, the scalars visited ascend, do not overlap and lie within the variable |
| Aggregates.SlotsApart | contrib/8086/c86/pftn.c:686-712 | so do the scalars of a type, between its offset and its offset plus its size |
| Aggregates.SlotsTouch | contrib/8086/c86/pftn.c:686-712 | the scalars of an array of arrays of scalars fill it without a gap |
| Aggregates.WalkEnds | contrib/8086/c86/pftn.c:1053-1066 | behind the last scalar only the variable itself is left on the stack |
| InitStack.InitStack.Instk | contrib/8086/c86/pftn.c:814-871 | the loop on the array of entries is the recursive push, and stays in the array for types no deeper than it |
| InitStack.InitStack.Gotscal | contrib/8086/c86/pftn.c:1047-1085 | one call turns the stack into the next one of the walk |
| Bitwise.BitsAssoc | contrib/8086/c86/optim.c:94-105 | the bitwise operations associate, so towers of them can be turned |
| Bitwise.BitsLow | contrib/8086/c86/trees.c:556-564 | bits of a long operation below the width of a word are those of the word operation |
| Bitwise.PowerBits | contrib/8086/c86/optim.c:171-176 | a positive number shares no bit with its predecessor exactly when it is a power of two |
| Optim.Ispow2 | contrib/8086/c86/optim.c:171-176 | the exponent is found, for exactly the powers of two |
| Optim.ConvalSame | contrib/8086/c86/trees.c:518-562 | two constants made one have the value of the operation, in wrap-around arithmetic of 16 or 32 bits, addresses included |
| Optim.MergeSame | contrib/8086/c86/optim.c:113-115 | (x op a) op b is x op (b op a) |
| Optim.MinusPlusSame | contrib/8086/c86/optim.c:106-112 | x - a + b is x + (b - a) |
| Optim.ShiftSame | contrib/8086/c86/optim.c:126-133 | a multiplication by a power of two is the shift |
| Optim.RelSame | contrib/8086/c86/optim.c:146-164 | a comparison with its sides exchanged is the reversed one |
| Optim.Collect | contrib/8086/c86/optim.c:80-139 | the commutative cases, with their swaps, turns and merges, keep the value, and leave no constant at the right of the left operand that could be taken into the one at the right |
| Optim.Optim | contrib/8086/c86/optim.c:32-169 | for every expression over the operators covered the rewritten one has the same value, whatever its leaves and addresses are; nowhere in it is a plain constant left of a commutative operator, or behind another one that it could be taken together with, a multiplication by a power of two, an addition of a negative constant, a division by one or a comparison that could be turned |
| Rotors.AnotherUnpaired | usr/src/cmd/crypt.c:58-64 | a slot without a partner is never the last one without, by parity: the search for a partner has something to find and its modulus is not zero |
| Rotors.Crypt.constructor | usr/src/cmd/crypt.c:49-67 | for any random numbers setup ends, with t1 shuffled by them, t2 its inverse, and t3 pairing each slot with the first free one around from a random place: an involution that leaves no slot where it is |
| Rotors.Crypt.Encipher | usr/src/cmd/crypt.c:83-92 | the loop with its two counters enciphers byte j by the rotors as turned j times |
| Rotors.TurnedPairs | usr/src/cmd/crypt.c:84-84 | a byte and what becomes of it stand, behind the first rotor turned by n1, at slots that the third, turned by n2, pairs off |
| Rotors.TurnedTwice | usr/src/cmd/crypt.c:84-84 | through the rotors twice comes back, and no byte comes out as it went in |
| Rotors.ShuffledApart | usr/src/cmd/crypt.c:49-57 | two rounds of random numbers make the same rotor exactly if every one of them chooses the same slot of those left |
| Rotors.ShuffledAny | usr/src/cmd/crypt.c:49-57 | every permutation can come of it |
| Rotors.EncipheredTwice | usr/src/cmd/crypt.c:83-92 | enciphering any text twice gives it back, and no byte is ever enciphered to itself |
| DiffLines.Window.Getl | usr/src/cmd/diffh.c:22-54 | within the window the line asked for is delivered, read when it has to be, or the end is seen |
| DiffLines.Window.Clrl | usr/src/cmd/diffh.c:57-66 | lines up to n are forgotten and the others kept, in place |
| Diff.ReplaysLine | usr/src/cmd/diffh.c:91-98 | a line that compares equal extends the replay |
| Diff.ReplaysHunk | usr/src/cmd/diffh.c:145-174 | a change extends the replay by the lines it brings |
| Diff.HeaderNumbers | usr/src/cmd/diffh.c:145-190 | both ranges of a header have the numbers of the lines gone and come, or of the line they would follow |
| Diff.Differ.Output | usr/src/cmd/diffh.c:145-174 | what is printed is a change of the lines between the current ones and the match, and the windows move behind it |
| Diff.Differ.Easysynch | usr/src/cmd/diffh.c:113-143 | the change printed is the one the search of the specification comes to first, and no line outside the window is asked for; without one nothing is printed |
| Segments.BotchHappens | contrib/8086/a86/ld86.c:1641-1657 | a full segment can end the search for a new name in the error: one filled with 1103 names of one hash value, and a name more |
| Segments.ListIndex | contrib/8086/a86/ld86.c:1639-1652 | over all segments a name is in one place of the order of entry |
| LinkTable.SymbolTable.Merge | contrib/8086/a86/ld86.c:777-790 | one symbol of a file, looked up, entered or joined to the one that is there, leaves the list of symbols that the specification says, and the mark behind it |
| LinkTable.SymbolTable.Load1 | contrib/8086/a86/ld86.c:724-816 | on the hashed segments: the symbols of a file are merged, kept if it is no library member or defines one that was asked for, and otherwise cut back to the mark, whatever the mark is; from a good mark names and buckets are restored, and the mark is good afterwards exactly if it was not null or the member has no symbols |
| LinkTable.SymbolTable.Find | contrib/8086/a86/ld86.c:1689-1698 | a name is found exactly if it is in the list, at its place, and nothing changes |
| Symbols.ValueAll | contrib/8086/a86/ld86.c:777-790 | what becomes of a name depends on the symbols of that name alone, in their order |
| Symbols.TakeBack | contrib/8086/a86/ld86.c:809-815 | a member taken back leaves of every name there was what its symbols have made of it, and no other name |
| Symbols.LoadMarked | contrib/8086/a86/ld86.c:1663-1687 | from a good mark `symfree` never botches; the mark is lost exactly if it was null and something was entered |
| Layout.LostWhen | contrib/8086/a86/ld86.c:1671-1685 | the mark is lost when a member is ripped out whose symbols were the first |
| Layout.LostExactly | contrib/8086/a86/ld86.c:1671-1685 | told from the modules looked at: the mark is lost exactly if the first one with external symbols is a library member |
| Layout.MarkIsLost | contrib/8086/a86/ld86.c:1671-1685 | an input on which it is, and the symbol that then stays in the table though its module is not loaded |
| Layout.KeptWhen | contrib/8086/a86/ld86.c:776-802 | told from the modules looked at: a module with symbols is loaded exactly if it is no library member or defines a name that a module loaded before mentions and none has defined, functions passed over for common storage not counting |
| Layout.TraceAll | contrib/8086/a86/ld86.c:776-815 | after any number of modules the table has of a name what the modules say: common if it was asked for before every definition and all are functions, with the value of the first other definition if there is one |
| Layout.AfterPass1 | contrib/8086/a86/ld86.c:776-815 | a name defined in a loaded module is common after pass 1 exactly if all its definitions are functions and each comes behind a request for room |
| Layout.RoomApart | contrib/8086/a86/ld86.c:864-879 | common symbols get aligned room, each behind those before it, within what is taken in all |
| Layout.MiddleIs | contrib/8086/a86/ld86.c:857-928 | defined symbols get the base of their segment added, common ones are placed between data and bss or left |
| Layout.OriginsAgree | contrib/8086/a86/ld86.c:1199-1201 | the origins of pass 2 are the sizes of pass 1 plus the bases, and the bss of the files that pass 1 passed over |
| Layout.PassesAgree | contrib/8086/a86/ld86.c:735-737 | what pass 1 and `middle` make of a symbol is what pass 2 makes of it, exactly if it is not in bss or no bss was passed over before it |
| Layout.CommonReported | contrib/8086/a86/ld86.c:1178-1184 | a function whose name is left common is reported |
| Layout.NoOdds | contrib/8086/a86/ld86.c:1178-1184 | none of the definitions of a name is reported exactly if it is not left common, all put it in one place, and no bss was passed over before the first if that is in bss |
| Layout.Agreement | contrib/8086/a86/ld86.c:1178-1184 | nothing that pass 2 loads is reported exactly if this holds of all names |
| Layout.OnceIsCoherent | contrib/8086/a86/ld86.c:1178-1184 | with one definition for each name, none of them a function asked for as common storage before, and no bss in files without symbols, nothing is reported |
| Layout.OnceButCommon | contrib/8086/a86/ld86.c:786-787 | two files of which the first asks for room for a name and the second has a function of it: defined once, and reported |
| Layout.OnceBehindBss | contrib/8086/a86/ld86.c:735-737 | two files of which the first has nothing but bss: the one bss symbol of the second is reported |
| LinkPasses.LibList.Add | contrib/8086/a86/ld86.c:676-690 | members are recorded in order over segments of 250, up to 10000 |
| LinkPasses.LibList.Next | contrib/8086/a86/ld86.c:1054-1063 | they are read back in the order recorded, and the botch never happens |
| LinkPasses.Linker.Load1 | contrib/8086/a86/ld86.c:724-816 | on the hashed table, with its sizes and its mark, one module more is what the specification makes of it, the early return for a file without symbols, text and data included |
| LinkPasses.Linker.Load1Arg | contrib/8086/a86/ld86.c:561-690 | for any order in which members are looked at, those kept are recorded in that order, with the end marked |
| LinkPasses.Linker.Middle | contrib/8086/a86/ld86.c:818-929 | the table in place, with the linker's own symbols, room for the common ones and final values, and the origins, are those of the specification |
| LinkPasses.Linker.Load2Arg | contrib/8086/a86/ld86.c:1041-1071 | pass 2 loads exactly the files and the members kept, in order, skipping those that were not, and reports exactly if a definition disagrees with the table |
| LinkPasses.Linker.Link | contrib/8086/a86/ld86.c:561-1203 | over both passes: the segments lie where the sizes and the parameters put them, and in the final table every name has the place that follows from the files, both stated apart from what the passes compute; nothing is reported as multiply defined exactly when every defined name is sane, as told from the modules looked at and the bases; otherwise the run has ended with an error whose cause is stated, for a full table the symbol of the last module looked at, or the name of the linker's own, that it refuses |
| Placement.AllPlaced | contrib/8086/a86/ld86.c:818-929 | text begins at the text base, data at the first multiple behind it and the header's size further, bss behind the data and the common room, with nothing wasted; a name with a definition that counts has the address as far behind the start of its module's part of the segment as in the file; a name left common has aligned room of the largest size asked for, apart from all others, between data and bss; a name nobody defines stays undefined, or is an end of a segment; no other name is there |
| Placement.PartsApart | contrib/8086/a86/ld86.c:794-797 | the parts of a segment that loaded modules take lie one behind the other in the order of loading |
| Placement.EveryName | contrib/8086/a86/ld86.c:757-793 | every name is not mentioned in what is loaded, has a definition that counts, has been asked room for, or is unknown: nothing is left unsaid |
| Placement.DecidesIs | contrib/8086/a86/ld86.c:757-793 | after pass 1 the table has for a name the first of its definitions that is not passed over |
| Placement.CommonIs | contrib/8086/a86/ld86.c:781-785 | or the largest size asked for |
| RoundTrip.RoundTrips | usr/contrib/compress/compress.c:714-1058 | several texts through one compressor and one decompressor, one after the other, come back unchanged |
| SwitchTable.SwitchTable.End | contrib/8086/c86/cgram.c:170-212 | duplicate cases are reported exactly when there are some, and then the sorted entries stay behind those of the outer switch, which is current again, fit for more cases, and has a case twice from then on; otherwise the code put out dispatches on the cases as given and the table is what it was before the switch |
| DiffLines.AlikeEqual | usr/src/cmd/diffh.c:197-213 | without the option for blanks lines compare equal exactly if they are equal |
| DiffLines.AlikeSqueezed | usr/src/cmd/diffh.c:197-213 | with it, exactly if they are equal once every run of spaces is made one |
| DiffLines.Cmp | usr/src/cmd/diffh.c:197-213 | the comparison loop decides that |
| Diff.SearchMoves | usr/src/cmd/diffh.c:113-143 | a change that is found takes at least one line, so the run goes on |
| Diff.SearchNone | usr/src/cmd/diffh.c:113-143 | nothing is found only if both files go on for a window and no three lines of one compare equal with three of the other in it |
| Diff.ReplayedIs | usr/src/cmd/diffh.c:145-195 | what has been printed, read back line by line, makes of the first file what the changes make of it |
| Diff.Differ.Run | usr/src/cmd/diffh.c:75-110 | the run comes to the place that `Settle` gives for the two files: the end of one, or lines that differ with no match in the whole window; what is printed, replayed on the first file, gives the second, up to lines that compare equal, exactly if it is the end of one and no more than 16385 lines of the other are left there |
| Diff.CutOff | usr/src/cmd/diffh.c:104-109 | an empty file and one of 16386 lines: the last line is missing |
| RecordFile.LengthensWhen | contrib/8086/MSDOS/syscalls.c:424-431 | for every size with the pointer in the file, when `_rwlen` goes on to write zeros: never up to 32767 records, then up to 65535 exactly with the pointer before record 32768 |
| RecordFile.LeavesAlone | contrib/8086/MSDOS/syscalls.c:424-431 | the sizes at which it never does, wherever the pointer is |
| BlockMap.Reader.NextBlock | contrib/boot/boot.c:345-363 | the cursor with its two buffers of addresses names, block after block, the one the direct, indirect and doubly indirect addresses assign, and none only past the last of them |
| BlockMap.WordBytes | contrib/boot/boot.c:345-363 | an address is read exactly where its lowest byte comes first and its highest last |
| BlockMap.Reader.FsRead | contrib/boot/boot.c:329-370 | the k-th call fetches block k of the file and returns how much of it belongs to the file; the lengths add up to the size, and the panic comes exactly when more is left than 10 + 128 + 128 * 128 blocks hold |
| BlockMap.EntryIn | contrib/boot/boot.c:266-285 | entries counted over blocks are those of the directory as one file |
| BlockMap.Hit | contrib/boot/boot.c:266-285 | the first match in a block is the first in the directory |
| BlockMap.Reader.FsFind | contrib/boot/boot.c:256-289 | the first entry with the name, over all blocks of the directory; 0 if there is none, the panic if the rest is out of reach |
| BlockMap.FindsLive | contrib/boot/boot.c:280-281 | what is found is the first entry in use exactly if no entry of the name that is not in use comes before one that is |
| BlockMap.UnusedFirst | contrib/boot/boot.c:280-281 | an input: a name entered twice, first in an entry not in use, is not found |
| RecordFile.ZerosWithin | contrib/8086/MSDOS/syscalls.c:432-440 | the records `_rwlen` writes while the pointer is in the file have negative numbers or lie before the pointer |
| RecordFile.ZerosWritten | contrib/8086/MSDOS/syscalls.c:424-440 | two inputs: 32767 records with the pointer at 0, and 65535 with the pointer behind the first |
| RecordFile.File.Setup | contrib/8086/MSDOS/syscalls.c:259-302 | the next piece to move: a whole record when the pointer is at one and enough is left, otherwise what of the record lies behind the pointer, up to what is left |
| RecordFile.File.Read | contrib/8086/MSDOS/syscalls.c:357-383 | the bytes at the pointer, cut at the end of the file, are delivered, nothing behind them in the buffer changes, and the pointer moves behind them |
| RecordFile.File.Write | contrib/8086/MSDOS/syscalls.c:306-329 | the bytes go exactly over those at the pointer and past the end, no other byte of the file changes and the size grows to what was written, also with the pointer past the end, when the file is lengthened first; after a failing transfer the first of them are written and the size is what lengthening made it |
| RecordFile.File.Lengthen | contrib/8086/MSDOS/syscalls.c:424-442 | records of zeros are written from the one behind the record the file ends in to the one before the pointer's, and the size grows by as much |
| RecordFile.BeforeAt | contrib/8086/MSDOS/syscalls.c:417-422 | every byte between the end of the file and a pointer past it: what the device has there, zeros, or what is not known of a record that is left out |
| RecordFile.ZeroGapWhen | contrib/8086/MSDOS/syscalls.c:417-422 | the gap is zeros on every device exactly if what is left of the last record is and either that record is there or the pointer lies in it |
| RecordFile.SpliceOn | contrib/8086/MSDOS/syscalls.c:306-329 | two writes, one behind the other, make the file one write of both makes |
| RecordFile.WrittenWithin | contrib/8086/MSDOS/syscalls.c:320-325 | reading a record, changing a part and writing it back changes that part only, at the end of the device too |

## Left out

compress:

- File names, permissions, statistics, signals and the variants for `vax`, `XENIX_16` and `COMPATIBLE`.
- The smaller hash tables for short files. With the full table of a code size the first probe lies in the table.
- Decompress.Decompressor.UncompressFile: codes that no compressor sends are outside its contract, as the source does not check them.
- Error returns of output; the file grows without bound.

Assembler:

- Instructions other than branches stand for their lengths; expressions, object files, `.globl`, `.comm`, absolute symbols and `.=` are not modelled, nor `.even`.
- A branch to a symbol plus a constant: `sdi_off` is recorded and never used.
- Assembler.Assembler.Assemble: names that the assembler predefines are not modelled: a label called like a register is an error on its first definition, and a branch to `.` resolves against its last value.
- Assembler.Assembler.Scan: after an error in pass 1 the model stops, where the source runs pass 2 on.
- The list of branches is a sequence and the symbol table a map: `sdi_free`, the hash chains and `sdi_bound` are not modelled.

Boolean trees and switches:

- Operands are opaque values. Comparisons of floating numbers, the code of operands, and the optimizer's special case of `&&` and `||` compared with zero are not modelled.
- Case values are 16 bit words; labels are numbers. The check that a case is a constant, `brklab`, `contlab`, `flostat` and changes of segment around the jump table are not modelled.
- The table of cases starts out zeroed, so a `default` outside any switch is reported as the second one of a switch.

Linker:

- Reading and writing files, archive headers, debug symbols, `-A`, `-D`, `-y` and running out of memory. Sizes and addresses are unbounded integers.
- Which member of a library is looked at when is arbitrary; that a look-up of a name in a table of contents may itself end in an error is left out.
- LinkPasses.Linker.Load1: ends the run when the mark is lost.
- LinkPasses.Linker.Link: ends when the mark is lost. In the source the mark is then behind symbols that are gone, and names still in the table may have been freed, so what follows depends on memory; `Layout.MarkIsLost` has the first two steps with names as values.
- Names are values: `savestr` and the freeing of string tables are not modelled.

Scopes:

- Hidden names (`hide`, `unhide`) and the messages of `clearst`. With distinct names the inner loop of `relook` is never entered.
- Names are compared as they are stored, cut to eight characters.

Initializers:

- Braces, strings and `ibseen`; a union counts as a scalar. Arrays without elements inside others are excluded.
- InitStack.InitStack.Instk: takes types no deeper than the ten entries of the stack, which the source does not check.

Constants:

- Trees are rewritten as values, not in place. Conversions, `UNARY AND`, `UNARY MUL`, FORTRAN calls, enumerations and `conval` on unsigned comparisons are not modelled.
- Leaves have no side effects.

crypt, diffh, record files, boot loader:

- `makekey` and the arithmetic on the seed: the random numbers are arbitrary.
- Options, opening files and the text of messages of `diffh`; lines come as `fgets` delivers them, output is a sequence of records.
- RecordFile.File.Read: the pointer is at or before the end of the file, as `_read` otherwise takes a negative length for a very large one.
- RecordFile.File.Write: with 32767 records and more, where record numbers do not fit a short, states in which `_rwlen` goes on to write or the pointer is past the end are outside its contract. Opening, closing, seeking and devices other than disk files are not modelled.
- BlockMap.Reader.FsRead: disk errors, which the source reports before it goes on with what is in the buffer.
- Path names, `load` and the console of the boot loader.

Register allocation, the parsers, the code templates, device drivers, games and the shell commands are outside the project.
