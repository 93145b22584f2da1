# Symbian build tools: compressed resources, tries, images and checksums

A Dafny model, with proofs, of the code in the Symbian build tools that packs data and promises that
it can be unpacked:

- **rcomp**, the resource compiler: its compressor for the Standard Compression Scheme for Unicode
  (Unicode Technical Standard #6), the stream of bytes and marks in which a resource is laid out, the
  resource file, the export of strings as UTF-16 and numbers in scripts;
- **readtype**, which indexes the Unicode character data by two-level tries;
- **elftran** and **petran**, which make E32 images of ELF and PE files: relocation sections, the section
  for looking up exports by name, and the import section;
- **elf2e32**'s checksums.

## How it is built

Code of the tools that changes state step by step is written here as methods, with classes and arrays
where the tools have objects and buffers. Each method is proved against a function, and the lemmas say what the
functions mean. Wherever there is something to read back, the reader is written apart from the
writer: a decoder with the tables and tags of UTS #6, a reader of alternating runs, a trie lookup, the loader's loop over relocations, the
dump tool's loop over exported names.

| module | of | builds on |
|---|---|---|
| `Bytes`, `Buffers` | octets, code units, little-endian values, strings in buffers | |
| `ScsuWindows`, `ScsuTables`, `ScsuDecoder`, `ScsuEncoder`, `UnicodeCompressor` | the Unicode compressor: tables, decoder, functional form, and the object with its circular queues | `Bytes` |
| `ResourceImage` | what a resource means: a script of operations and the uncompressed image it denotes | `Bytes` |
| `ResourceMarks`, `ResourceLayout`, `ResourceSettling` | the stream as a value: the step that drops a compressed run, the bytes written, the restarts | `ResourceImage`, `ScsuDecoder` |
| `ResourceBuilding`, `ResourceScripts`, `ResourceGrowth` | what each operation adds, the stream that a script makes, and when writing makes it longer | the above |
| `ResourcePasses`, `BinaryStream`, `ResourceDataStream` | the stream as an object: its operations and the three passes | the above |
| `ResourceItems`, `ResourceHeader`, `ResourceFile` | the items of a resource, a whole resource, a whole file | the above |
| `Trie`, `TrieLimits`, `JaggedPlane` | tries, how many changes they always carry, and an array that they do not | `Bytes` |
| `CharacterData`, `CharacterLimits` | ranges, records and the tables of all planes; files that their tables do not tell | `Trie` |
| `Relocations`, `RelocWriter`, `PeRelocations` | relocation sections: format and loader, writer in place, and the PE side | `Bytes` |
| `ExportSorting`, `ExportNames`, `LookupSection`, `NamedExports` | exports by name: sorting a linked list, placing names, the section and its reader, the object | `Buffers` |
| `PeImports` | the import section and the import address table | `Buffers` |
| `StringExport`, `NumericValues`, `Checksum` | strings, numbers, checksums | `Bytes` |

Three layers of the resource compiler meet in one statement. `ScsuEncoder.RoundTrip` makes every compressed run
expand to its text, `ResourceSettling.SettledReadBack` makes every resource read back as its image whichever runs were
dropped, and `ResourceFile.WriteResourceFile` makes the file delimit its resources and say which of them to expand.

## Where the code and what is said of it differ

The model follows the code. Where that differs from its comments, or a property holds only under a condition, the
condition is proved to be exact or a counterexample is given.

- bintools/rcomp/src/RCOSTRM.CPP:262-268 takes one octet more than the text for the worst case of compression
  (and allocates one less than that). The worst case is three octets for every two of the text:
  `ScsuEncoder.TriplesAreReached`. The comment is right about texts with at most one run of characters that ask for a
  window or for Unicode mode: `ScsuEncoder.TaggedRunsBound`. The limit on output is what keeps the buffer from overflowing.
- Dropping compressed runs that do not pay never considers the first of several, so a resource can end up longer than
  without compression. It does exactly if the first run that is left loses more than the later ones save, and by two
  octets at most (`ResourceGrowth.GrowsExactlyIf`, `ResourceHeader.ItemsGrowth`). A caller can tell beforehand that it does
  not: the resource has no runs, or it begins with a run that is its only one or pays for itself
  (`ResourceGrowth.HarmlessNeverGrows`). For a single run behind other items the condition is in closed form
  (`ResourceHeader.OnlyTextGrowsExactlyIf`). 128 octets and the text "AB" get longer (`ResourceHeader.LongerResourceGrows`).
- srctools/readtype/readtype.cpp:320-333 describes the lookup with the wrong bits and without adding the index.
  `Trie.Lookup` is the lookup that the masks at lines 424-426 and the generated tables support. A trie gives back
  its array exactly if every block can be carried in sixteen bits and the data is short enough
  (`Trie.FaithfulExactlyIf`). The entry for no data, -1, comes back as 0x7FFF or as 0xFFFF (`Trie.NoDataIsAmbiguous`), and
  nothing else does (`Trie.MarkIsNoData`), so that either can be read as a mark. The tables of a plane are right, with a record
  or a mark for every code, exactly if the data of its smallest trie is short enough and its first code is in a range or has
  data (`CharacterData.MakeTables`). Nothing refuses a file for which this fails. There is one within the limits of 1000 records
  and 4000 ranges whose data is too long (`CharacterLimits.MakeWrongTables`); a plane in which at most 3583 ranges start always
  has room (`CharacterData.FewRangesFit`), and that file has 3603 changes in the plane, so the sharp bound lies between.
  Where codes that are not listed have no data, as in a file for a locale, a code before the first range gets the first record
  instead of a mark (`CharacterLimits.MakeUnmarkedTables`).
- srctools/readtype/readtype.cpp:812-817 speaks of a gap at the end of the encoding. Codes after the last line are made unassigned
  only when that line is below 0xFFFF: `CharacterData.AfterLastLine`.
- `String::Export` (bintools/rcomp/src/ASTRING.CPP:345) is said to return false on truncation. It returns true when the only
  unit that did not fit is the second one of the last character: `StringExport.String.Export`, `StringExport.LoseUnit`. The buffer
  that an item allots (bintools/rcomp/src/RCOSTRM.CPP:346-348) is not always the worst case: it is enough for single-byte sets and for
  well-formed UTF-8 (`StringExport.UnitsWithin`, `StringExport.TextWithin`).
- An escape in a CP1252 string gives its code as UTF-16 exactly for codes below 0x80 and from 0xA0 to 0xFFFF:
  `StringExport.EscapeIsExported`.
- The export of names is refused exactly if some address is exported more often than it is defined
  (`ExportNames.AllNamedExactlyIf`), and the section is read back exactly for fewer than 0x10000 names
  (`LookupSection.RegionsFill`, `NamedExports.AllRead`). Equal names come out with those of the second half first
  (`ExportSorting.EqualNamesSwap`).
- `FixImportThunk` (bintools/petools/pefile/pe_imp.cpp:198-234) reports a corrupt file for every address that is not that of a thunk,
  except that of the zero that ends a table: `PeImports.FixImportThunk`.

## Model

| member | source | states |
|---|---|---|
| ScsuTables.FirstHolding | bintools/rcomp/src/UNICODE_COMPRESSOR.CPP:107-113 | the least window of a table, from a given one on, that holds a code, or none |
| ScsuTables.OffsetIndexHoldsCode | bintools/rcomp/src/UNICODE_COMPRESSOR.CPP:119-162 | a code has an offset index exactly if it is above ASCII and outside 0x3400 to 0xDFFF; the index is one octet, legal, and its window is above ASCII and holds the code; the seven windows that cross half-blocks are preferred |
| ScsuTables.TreatmentMeaning | bintools/rcomp/src/UNICODE_COMPRESSOR.CPP:240-257 | each treatment code is given to exactly the codes it stands for; static treatment only to controls that are tags, so only for window 0 |
| ScsuEncoder.TablesAgree | bintools/rcomp/src/UNICODE_COMPRESSOR.CPP:38-71 | static windows, initial dynamic windows and the windows of all offset indices are those of UTS #6, as the decoder has them |
| ScsuEncoder.CharacterIsRead | bintools/rcomp/src/UNICODE_COMPRESSOR.CPP:385-452 | from every legal mode a decoder reads what is written for a character as that character and stays in step |
| ScsuEncoder.SelectIsRead | bintools/rcomp/src/UNICODE_COMPRESSOR.CPP:330-382 | the tags that select a treatment bring a decoder to the new mode, active window and windows, which are legal again, and give no text |
| ScsuEncoder.RunIsRead | bintools/rcomp/src/UNICODE_COMPRESSOR.CPP:273-313 | one pass over the queue keeps all window bases legal, and a decoder reads it as exactly the characters consumed |
| ScsuEncoder.RunFits | bintools/rcomp/src/UNICODE_COMPRESSOR.CPP:404-410 | one pass never writes more than nine octets, so the queue of twelve cannot overflow, nor more than three for each character consumed |
| ScsuEncoder.EncodeIsRead | bintools/rcomp/src/UNICODE_COMPRESSOR.CPP:209-238 | a decoder reads the whole output as the whole text and ends between tags |
| ScsuEncoder.RoundTrip | bintools/rcomp/src/UNICODE_COMPRESSOR.CPP:21-34 | for every UTF-16 text a decoder with the tags, windows and offsets of UTS #6, in its initial state, turns the compressed form back into the text |
| ScsuEncoder.AtMostTriples | bintools/rcomp/inc/UNICODE_COMPRESSOR.H:170-174 | no text takes more than three octets a character, whatever the mode |
| ScsuEncoder.TriplesAreReached | bintools/rcomp/src/RCOSTRM.CPP:262-268 | at every length there is a text that takes three octets a character, so the worst case that the comment names is not the worst |
| ScsuEncoder.TaggedRunsBound | bintools/rcomp/src/RCOSTRM.CPP:262-268 | for every text: no more octets than it has uncompressed, and one for each of its runs of a treatment that asks for a window or for Unicode mode; so the comment is right about texts with one such run at most |
| ScsuEncoder.PassWithin | bintools/rcomp/src/UNICODE_COMPRESSOR.CPP:273-313 | one pass, wherever it cuts a run at the end of its queue, costs no more than that allowance for what it consumes |
| ScsuEncoder.SettledSize | bintools/rcomp/src/UNICODE_COMPRESSOR.CPP:275-285 | text that is ASCII or in the active window takes one octet a character |
| ScsuEncoder.OneWindowSize | bintools/rcomp/src/UNICODE_COMPRESSOR.CPP:354-381 | text of one dynamic window that is not active takes at most two octets more than it has characters |
| ScsuEncoder.AsciiSize | bintools/rcomp/src/UNICODE_COMPRESSOR.CPP:414-419 | ASCII text takes one octet a character |
| ScsuEncoder.AsciiBytes | bintools/rcomp/src/UNICODE_COMPRESSOR.CPP:414-419 | ASCII text is its own compressed form |
| ScsuEncoder.AlphabetSize | bintools/rcomp/src/UNICODE_COMPRESSOR.CPP:354-381 | from the initial state, text of one half-block alphabet beyond the first window takes at most two octets more than it has characters |
| ScsuEncoder.IdeographTextSize | bintools/rcomp/src/UNICODE_COMPRESSOR.CPP:332-341 | text of ideographs takes its own size and exactly one octet more |
| ScsuEncoder.GreekCompressed | bintools/rcomp/src/UNICODE_COMPRESSOR.CPP:354-381 | three Greek letters make window 4 Greek and then take one octet each |
| ScsuEncoder.QueueCutsRun | bintools/rcomp/inc/UNICODE_COMPRESSOR.H:170-174 | behind three letters of ASCII the queue of four holds only one of two Greek letters, so that each is quoted by itself |
| UnicodeCompressor.RingPush | bintools/rcomp/src/UNICODE_COMPRESSOR.CPP:404-410 | storing at start plus size, modulo the slots, appends to the circular queue and disturbs nothing that waits |
| UnicodeCompressor.RingPop | bintools/rcomp/src/UNICODE_COMPRESSOR.CPP:324-326 | moving the start on by one, modulo the slots, takes the first item off the circular queue |
| UnicodeCompressor.RingQueue.Push | bintools/rcomp/src/UNICODE_COMPRESSOR.CPP:226-227 | the queue is the old one and the new item, wherever in its slots it has wrapped |
| UnicodeCompressor.RingQueue.Pop | bintools/rcomp/src/UNICODE_COMPRESSOR.CPP:262-263 | the queue is the old one without its first item, and the slots stay |
| UnicodeCompressor.RingQueue.At | bintools/rcomp/src/UNICODE_COMPRESSOR.CPP:298-302 | looking ahead by index finds the item of the queue, wherever it has wrapped |
| UnicodeCompressor.MemoryUnicodeSource.ReadUnicodeValueL | bintools/rcomp/inc/UNICODE_COMPRESSOR.H:193-196 | the next code unit, once each, in order |
| UnicodeCompressor.Compressor.constructor | bintools/rcomp/src/UNICODE_COMPRESSOR.CPP:88-103 | a new compressor is in the initial mode of the standard with empty queues |
| UnicodeCompressor.Compressor.SelectTreatment | bintools/rcomp/src/UNICODE_COMPRESSOR.CPP:330-382 | mode, active base and windows move together, and the tags queued are those that a decoder needs to follow |
| UnicodeCompressor.Compressor.TakeWindow | bintools/rcomp/src/UNICODE_COMPRESSOR.CPP:358-370 | the window selected becomes the active one, with a tag only if mode or window changes |
| UnicodeCompressor.Compressor.RedefineWindow | bintools/rcomp/src/UNICODE_COMPRESSOR.CPP:371-380 | window 4 is redefined and selected in either mode and the other windows stay |
| UnicodeCompressor.Compressor.WriteUCharacter | bintools/rcomp/src/UNICODE_COMPRESSOR.CPP:393-402 | the octets queued are those of the code in Unicode mode; the state stays |
| UnicodeCompressor.Compressor.WriteSCharacter | bintools/rcomp/src/UNICODE_COMPRESSOR.CPP:412-452 | the octets queued are those of the character in single-byte mode for the windows as they are; the state stays |
| UnicodeCompressor.Compressor.WriteLead | bintools/rcomp/src/UNICODE_COMPRESSOR.CPP:275-285 | exactly the leading characters that need no tag are taken off the input queue and written |
| UnicodeCompressor.Compressor.CountRun | bintools/rcomp/src/UNICODE_COMPRESSOR.CPP:295-305 | the number of leading characters of one treatment, across the wrap of the queue |
| UnicodeCompressor.Compressor.WriteRunL | bintools/rcomp/src/UNICODE_COMPRESSOR.CPP:273-313 | started with an empty output queue, one pass does what the functional form does and at least one character is consumed of a queue that is not empty |
| UnicodeCompressor.Compressor.FlushOutputBufferL | bintools/rcomp/src/UNICODE_COMPRESSOR.CPP:315-328 | what is delivered and what still waits is unchanged as a whole, memory beyond stays, and nothing is left waiting unless the room is used up |
| UnicodeCompressor.Compressor.FlushInputBufferL | bintools/rcomp/src/UNICODE_COMPRESSOR.CPP:267-271 | all that is queued is written unless the room is used up, and then nothing is lost |
| UnicodeCompressor.Compressor.CompressWords | bintools/rcomp/src/UNICODE_COMPRESSOR.CPP:222-231 | reading on never changes the whole output: what is delivered, what waits and what is still to be read |
| UnicodeCompressor.Compressor.DoCompressL | bintools/rcomp/src/UNICODE_COMPRESSOR.CPP:209-238 | whatever earlier calls left queued and wherever the room ends, delivered octets, queues and unread text make up the whole output; if that is below the maximum it is delivered and all input consumed |
| UnicodeCompressor.Compressor.CompressL | bintools/rcomp/src/UNICODE_COMPRESSOR.CPP:187-192 | the same, with the octets in the memory of the caller |
| UnicodeCompressor.Compressor.FlushL | bintools/rcomp/src/UNICODE_COMPRESSOR.CPP:194-198 | delivers what an earlier call left, at the start of the memory, and returns how much still waits; a compressor with nothing queued delivers nothing |
| UnicodeCompressor.CompressedSizeL | bintools/rcomp/src/UNICODE_COMPRESSOR.CPP:200-206 | the length of the compressed form, or the largest int if it is not below that |
| UnicodeCompressor.CompressUnicode | bintools/rcomp/src/UNICODE_COMPRESSOR.CPP:21-34 | the length returned is below the maximum exactly if the compressed form is shorter than it; the memory then decodes to the text, and the panic on unread input cannot be reached |
| ResourceImage.DroppedRun | bintools/rcomp/src/RCBINSTR.CPP:474-488 | an alignment point and the plain text in place of a run denote the same image whatever follows, at every position and depth |
| ResourceImage.PrefixHolds | bintools/rcomp/src/NUMVAL.CPP:299-337 | a size prefix has room for a size exactly if the size can be read from its octets again |
| ResourceMarks.CloseMarkAgrees | bintools/rcomp/src/RCBINSTR.CPP:275-283 | walking marks and walking the script of operations meet at the same positions: where a block closes and where the resource ends |
| ResourceMarks.ConvertedGap | bintools/rcomp/src/RCBINSTR.CPP:498-515 | after a run is dropped the bytes between marks are those from before, and the text of the run comes before what followed it |
| ResourceMarks.ConvertedSorted | bintools/rcomp/src/RCBINSTR.CPP:507-511 | the marks stay in order of their positions, inside the buffer |
| ResourceMarks.ConvertedImage | bintools/rcomp/src/RCBINSTR.CPP:455-517 | dropping any run leaves the uncompressed image, and whether sizes fit their prefixes, as they were |
| ResourceMarks.ConvertedValid | bintools/rcomp/src/RCBINSTR.CPP:314-330 | dropping a run that may be dropped leaves marks balanced, runs well-formed, nothing before the first run, one run fewer, and the same image and size |
| ResourceMarks.ImageSize | bintools/rcomp/src/RCBINSTR.CPP:388-399 | the uncompressed size that every pass computes is the length of the image |
| ResourceLayout.LengthIsRead | bintools/rcomp/src/RCBINSTR.CPP:79-87 | a run length is read back from its one or two octets exactly if it is at most 0x7FFF |
| ResourceLayout.MarkCellsStep | bintools/rcomp/src/RCBINSTR.CPP:256-292 | the size prefix that the passes give a block is the uncompressed span of the block in the image, padding included |
| ResourceLayout.OtherStuff | bintools/rcomp/src/RCBINSTR.CPP:340-344 | the length written after a run is the number of octets written up to the next run, and those octets match the image there |
| ResourceLayout.EnquiryIsAnswered | bintools/rcomp/src/RCBINSTR.CPP:371-377 | the last enquiry of a slot is answered with the position after exactly the octets of what was put in before it |
| ResourceLayout.AlignmentWrites | bintools/rcomp/src/RCBINSTR.CPP:349-370 | an alignment point writes the octet 0xAB at an odd position and nothing at an even one |
| ResourceLayout.ReadBack | bintools/rcomp/src/RCBINSTR.CPP:223-414 | alternating lengths, runs and other octets, read with padding before each expanded run, give the image; the last length may be missing |
| ResourceSettling.SettledStream | bintools/rcomp/src/RCBINSTR.CPP:314-330 | the restarts end, and leave a well-formed stream of the same image and size in which every run that is last or not first saves octets, its length octets and padding counted |
| ResourceSettling.SettledReadBack | bintools/rcomp/src/RCBINSTR.CPP:223-414 | whichever runs are dropped, what is written reads back as the image that the stream denoted before |
| ResourceSettling.PrefixesFitScript | bintools/rcomp/src/RCBINSTR.CPP:275-283 | whether every size fits its prefix depends on the caller's operations alone, not on which runs are dropped |
| ResourceSettling.SmallIsSettled | bintools/rcomp/src/RCBINSTR.CPP:73-81 | a resource of up to 0x7FFF octets is streamed out exactly if its sizes fit their prefixes |
| ResourceGrowth.RunBalance | bintools/rcomp/src/RCBINSTR.CPP:314-321 | from run to run, what is written exceeds what is denoted by exactly the cost less the worth that the second pass compares |
| ResourceGrowth.EmissionBalance | bintools/rcomp/src/RCBINSTR.CPP:223-414 | what is written for any stream is longer than the uncompressed resource by exactly the sum of what its runs cost less what they are worth |
| ResourceGrowth.LaterRunsSave | bintools/rcomp/src/RCBINSTR.CPP:314-321 | once nothing more is dropped, each run after the first saves one octet at least |
| ResourceGrowth.LongerExactlyIf | bintools/rcomp/src/RCBINSTR.CPP:314-330 | such a stream is longer than the uncompressed resource exactly if its first run loses more than the later ones save; never without runs or with one only |
| ResourceGrowth.GrowsExactlyIf | bintools/rcomp/src/RCBINSTR.CPP:223-414 | streaming out any stream makes it longer exactly if the first of the runs that are left loses more than the later ones save, and then by two octets at most |
| ResourceGrowth.GrowthBound | bintools/rcomp/src/RCBINSTR.CPP:314-330 | once nothing more is dropped, never more than two octets longer than the uncompressed resource, and not longer at all without runs |
| ResourceGrowth.OneRunNeverGrows | bintools/rcomp/src/RCBINSTR.CPP:314-330 | a stream of one run, or of none, never gets longer, and gets shorter if the run is kept |
| ResourceGrowth.PayingNeverGrows | bintools/rcomp/src/RCBINSTR.CPP:314-330 | nor does one that begins with a run that is worth its octets, its length and two octets more; it gets shorter if any run is kept |
| ResourceGrowth.HarmlessNeverGrows | bintools/rcomp/src/RCBINSTR.CPP:135-164 | in terms of a caller's operations: a script without runs, or that begins with a run which is its only one or pays for itself, is never written longer |
| ResourceGrowth.LedRunSettles | bintools/rcomp/src/RCBINSTR.CPP:311-330 | a single run behind other octets that costs less than it is worth is kept, with the empty run before it; one that does not makes nothing longer |
| ResourceGrowth.OnlyRunGrowsExactlyIf | bintools/rcomp/src/RCBINSTR.CPP:135-164 | a script with one run behind something else is written longer exactly if the run costs less than it is worth, but by less than the empty run and the length before it take |
| ResourceGrowth.LongerIsMade | bintools/rcomp/src/RCBINSTR.CPP:135-176 | 128 octets and the compressed text "AB", put in by a caller, make the stream that gets longer |
| ResourceGrowth.GrowthReached | bintools/rcomp/src/RCBINSTR.CPP:314-330 | that stream is kept compressed although that makes it two octets longer |
| ResourceBuilding.RunGrows | bintools/rcomp/src/RCBINSTR.CPP:135-176 | putting in a run adds exactly that run to the script and keeps the stream well-formed |
| ResourceBuilding.LeadGrows | bintools/rcomp/src/RCBINSTR.CPP:156-160 | the empty run put at the start keeps the stream well-formed and stands before the script as it was |
| ResourceScripts.LedRuns | bintools/rcomp/src/RCBINSTR.CPP:137-161 | before a first run either an empty run is put in or only enquiries stand before it; the script and the open blocks stay |
| ResourceScripts.RunBuilt | bintools/rcomp/src/RCBINSTR.CPP:135-176 | a script that makes a well-formed stream of its own does so with a run added |
| ResourceScripts.RunStaysFirst | bintools/rcomp/src/RCBINSTR.CPP:135-176 | a run at the start of a script stays at the start of the stream, and the stream has as many runs as the script |
| ResourceBuilding.ScriptImage | bintools/rcomp/src/RCBINSTR.CPP:135-164 | the image of a stream is that of the caller's operations, with or without the empty run at the start |
| ResourcePasses.StackPopped | bintools/rcomp/src/RCBINSTR.CPP:275-283 | the size prefix on top of the stack is that of the block which a closing mark closes, and the size it is given is the span of the block |
| ResourcePasses.MeasuredAll | bintools/rcomp/src/RCBINSTR.CPP:391-406 | what the first pass leaves: every prefix, other-stuff length and padding as the marks demand, all blocks closed, and the last run known |
| BinaryStream.RCBinaryStream.Write | bintools/rcomp/src/RCBINSTR.CPP:89-95 | what is before the position and behind the data stays, the data stands between, and the file gets longer only as far as the data reaches beyond its end |
| BinaryStream.RCBinaryStream.WriteCompressedInteger | bintools/rcomp/src/RCBINSTR.CPP:79-87 | writes the one or two octets of a run length |
| BinaryStream.OverwrittenTwice | bintools/rcomp/src/RCBINSTR.CPP:89-106 | writing twice in a row is writing both at once |
| ResourceDataStream.ResourceDataStream.StreamIn | bintools/rcomp/src/RCBINSTR.CPP:188-193 | between runs the octets are added to the script; within one, to its compressed form |
| ResourceDataStream.ResourceDataStream.StartOfBlockWithSizePrefix | bintools/rcomp/src/RCBINSTR.CPP:123-128 | opens a block in the script and keeps the stream well-formed |
| ResourceDataStream.ResourceDataStream.EndOfBlockWithSizePrefix | bintools/rcomp/src/RCBINSTR.CPP:130-133 | closes the innermost open block in the script |
| ResourceDataStream.ResourceDataStream.TwoByteAlignmentPoint | bintools/rcomp/src/RCBINSTR.CPP:178-181 | adds an alignment point to the script |
| ResourceDataStream.ResourceDataStream.EnquireStreamPositionWhenKnown | bintools/rcomp/src/RCBINSTR.CPP:183-186 | adds an enquiry to the script |
| ResourceDataStream.ResourceDataStream.StartOfCompressedUnicodeRun | bintools/rcomp/src/RCBINSTR.CPP:135-164 | begins a run; a first run that is not at the start of the resource gets an empty run at the start, which no script shows |
| ResourceDataStream.ResourceDataStream.EndOfCompressedUnicodeRun | bintools/rcomp/src/RCBINSTR.CPP:166-176 | ends the run: the script has it with its text and all that was put in of its compressed form |
| ResourceDataStream.ResourceDataStream.Measure | bintools/rcomp/src/RCBINSTR.CPP:231-292 | the first pass succeeds exactly if all sizes fit their prefixes, and stores every prefix, length and padding rightly |
| ResourceDataStream.ResourceDataStream.Examine | bintools/rcomp/src/RCBINSTR.CPP:309-331 | the second pass finds the first run that does not pay for itself and may be dropped, or none |
| ResourceDataStream.ResourceDataStream.Splice | bintools/rcomp/src/RCBINSTR.CPP:498-515 | in the buffer, grown if need be, the text takes the place of the run and the rest moves up unharmed |
| ResourceDataStream.ResourceDataStream.ConvertCompressedRunToUncompressed | bintools/rcomp/src/RCBINSTR.CPP:455-517 | the buffer and marks, changed in place, are those of the stream with the run written out |
| ResourceDataStream.ResourceDataStream.WriteOut | bintools/rcomp/src/RCBINSTR.CPP:332-390 | the third pass succeeds exactly if all run lengths have fifteen bits; it appends exactly the emission and answers each enquiry with the position reached there |
| ResourceDataStream.ResourceDataStream.StreamOutReturningWhetherContainsCompressedUnicode | bintools/rcomp/src/RCBINSTR.CPP:223-414 | the passes and their restarts end; they stop exactly where an assertion of theirs fails, and else write what the settled stream emits, with its size, its positions and whether any run is left |
| ResourceItems.TextDenotes | bintools/rcomp/src/RCOSTRM.CPP:258-287 | text denotes the same cells whether it goes out compressed or plain |
| ResourceItems.NodeDenotes | bintools/rcomp/src/RCOSTRM.CPP:510-532 | whatever nests in what, an item denotes its own image: aligned text, and for a structure below the top its size and then its items; its sizes fit exactly if those of the script do |
| Bytes.UnitBytesAt | bintools/rcomp/src/RCOSTRM.CPP:279-283 | of the octets of a UTF-16 buffer, unit i is at place 2i, the low one first |
| ResourceItems.TextPutIn | bintools/rcomp/src/RCOSTRM.CPP:258-287 | what is put in for a text is a shorter run that decodes to it, with all its octets beside, or an alignment point and two octets for each unit, the low one first |
| ResourceItems.TextIsRead | bintools/rcomp/src/RCOSTRM.CPP:258-287 | octets that agree with an image hold every text in it, unit by unit, from the next even position on |
| ResourceHeader.StreamOutCompressingIfReducesSize | bintools/rcomp/src/RCOSTRM.CPP:258-287 | a run that decodes to the text goes out exactly if the compressed text is shorter in octets, and else, if there is any, an alignment point and two octets for each unit |
| ResourceHeader.StreamOutStructure | bintools/rcomp/src/RCOSTRM.CPP:510-532 | a prefix goes out exactly for a structure that has one, is not the outermost and is not empty, and every block opened is closed |
| ResourceHeader.NodeUnpacks | bintools/rcomp/src/RCOSTRM.CPP:270-278 | every compressed run that an item streams out expands to the text put in with it |
| ResourceHeader.NodeBuilt | bintools/rcomp/src/RCOSTRM.CPP:510-532 | the operations of any item make a well-formed stream with just those operations as its script, and leave as many blocks open |
| ResourceHeader.ItemsGrowth | bintools/rcomp/src/RESOURCE.CPP:356-374 | for every resource that is not refused, in terms of its items: when it is written longer than its image, by how much at most, and which scripts never are |
| ResourceHeader.OnlyTextGrowsExactlyIf | bintools/rcomp/src/RESOURCE.CPP:356-374 | a resource whose only compressed text stands behind other items is written longer exactly if the run costs less than its image, but by less than the run lengths before it take |
| ResourceHeader.LongerResourceGrows | bintools/rcomp/src/RESOURCE.CPP:356-374 | 128 octets and the text "AB" are written two octets longer than their image |
| ResourceHeader.ResourceSettled | bintools/rcomp/src/RESOURCE.CPP:356-374 | a stream of an item's script settles exactly as the item's sizes allow, and its emission reads as the item's image |
| ResourceHeader.StreamOutResource | bintools/rcomp/src/RESOURCE.CPP:356-374 | what is appended to the file expands to the image of the items and is longer than it by exactly the growth of their stream, two octets at most; one of up to 0x7FFF octets is refused only for a size that its prefix cannot hold |
| ResourceFile.BitArrayAt | bintools/rcomp/src/main.cpp:74-102 | bit i of the array is flag i, for every number of resources |
| ResourceFile.WriteBitArrayOfResourcesContainingCompressedUnicode | bintools/rcomp/src/main.cpp:74-102 | overwrites or adds exactly the octets of the bit array, one for every eight flags begun |
| ResourceFile.WriteBinaryResourceData | bintools/rcomp/src/main.cpp:104-125 | each resource lies between its offset and the next one, reads as its image, and the largest uncompressed size is given: no image is longer, and one has it; modest resources that fit sixteen-bit offsets are never refused |
| ResourceFile.WordsAt | bintools/rcomp/src/INDEXTAB.CPP:45-51 | word i of the index is offset i |
| ResourceFile.WriteIndex | bintools/rcomp/src/INDEXTAB.CPP:114-127 | an offset for each resource and then its own; nothing for no resources |
| ResourceFile.HeadReplaced | bintools/rcomp/src/main.cpp:143-146 | writing as much as was kept replaces that and nothing else |
| ResourceFile.FileIsReadable | bintools/rcomp/src/main.cpp:127-146 | with the header overwritten, the flags, the size of the largest image, every bit, every offset and every resource are read from their places |
| ResourceFile.OverwriteHeader | bintools/rcomp/src/main.cpp:143-146 | the second writing of size and bits covers exactly the octets kept by the first |
| ResourceFile.WriteResourceFile | bintools/rcomp/src/main.cpp:127-152 | a whole file is readable: header with the size of the largest image, bits, index, and each resource as its image, expanded exactly if its bit says so; modest resources that fit sixteen-bit offsets are never refused |
| Trie.FirstPlace | srctools/readtype/readtype.cpp:366-374 | the least place where a block agrees with the data, of which it may run past the end |
| Trie.PlacedKeeps | srctools/readtype/readtype.cpp:376-378 | putting a block there keeps all the data, holds the block, and grows the data by no more than the block |
| Trie.EveryBlockIsHeld | srctools/readtype/readtype.cpp:348-381 | once all blocks are placed, each is still held by its own entry of the index |
| Trie.DataFits | srctools/readtype/readtype.cpp:338-393 | the data is no longer than the mixed blocks together, so never longer than the plane |
| Trie.Reading | srctools/readtype/readtype.cpp:338-393 | what every code of every array reads as, faithful or not |
| Trie.BlockIsRead | srctools/readtype/readtype.cpp:362-380 | a block reads back, with a mark for no data, exactly if sixteen bits can carry it and it lies below 0x8000 |
| Trie.FaithfulExactlyIf | srctools/readtype/readtype.cpp:338-393 | a trie gives back its whole array, with a mark for no data, exactly if all blocks can be carried and the data has fewer than 0x8000 entries and one block |
| Trie.NoDataIsAmbiguous | srctools/readtype/readtype.cpp:362-363 | -1, for no data, reads as 0x7FFF from a uniform block and as 0xFFFF from a mixed one, unless that lies too far |
| Trie.FaithfulAt | srctools/readtype/readtype.cpp:338-393 | in a faithful trie every code is inside the tables and reads as its entry, or as a mark where that is for no data |
| Trie.AllRead | srctools/readtype/readtype.cpp:338-393 | a trie is faithful exactly if every code of it is inside the tables and reads as its entry, or as a mark where that is for no data |
| Trie.MarkIsNoData | srctools/readtype/readtype.cpp:338-393 | in every trie, faithful or not, a code whose entry is below 0x7FFF reads as a mark only if it has no data |
| Trie.FitsExactlyIf | srctools/readtype/readtype.cpp:338-393 | with values of fifteen bits, or no data, the trie of a plane is faithful exactly if its data has fewer than 0x8000 entries and one block |
| Trie.BestIsSmallest | srctools/readtype/readtype.cpp:413-421 | the block size chosen has the least size of all tried, and is the first of those that have it |
| Trie.MixedBlocksChange | srctools/readtype/readtype.cpp:348-358 | there are no more mixed blocks than changes of value from a code to the next |
| TrieLimits.SmallBlocksAreSparing | srctools/readtype/readtype.cpp:366-378 | with blocks of eight, each change of value in the plane adds seven entries of data at most |
| TrieLimits.FewChangesSuffice | srctools/readtype/readtype.cpp:397-429 | with at most 3583 changes in a plane and values below 0x8000, or no data, the smallest trie is faithful |
| JaggedPlane.PairsOnce | srctools/readtype/readtype.cpp:366-374 | in the array that defeats the trie no value is followed by the same value twice |
| JaggedPlane.DataLength | srctools/readtype/readtype.cpp:348-381 | so each mixed block of that array shares exactly one entry with the data before it |
| JaggedPlane.Lengths | srctools/readtype/readtype.cpp:413-421 | the exact number of data entries of that array for each of the block sizes tried |
| JaggedPlane.JaggedIsNotFaithful | srctools/readtype/readtype.cpp:397-429 | an array of 997 values with 3603 changes whose smallest trie, of blocks of 256, is not faithful |
| Trie.CopyBlock | srctools/readtype/readtype.cpp:351-358 | copies a block and tells exactly whether it is uniform |
| Trie.FindPlace | srctools/readtype/readtype.cpp:366-374 | finds the first place where the block fits, and never looks at entries that an earlier trie left beyond the end |
| Trie.Insert | srctools/readtype/readtype.cpp:376-378 | in the dirty buffer, the data in use becomes that with the block placed |
| Trie.WriteBlock | srctools/readtype/readtype.cpp:362-380 | index entry and data are those of the trie with one more block |
| Trie.WriteTrie | srctools/readtype/readtype.cpp:338-393 | the size and, when written, the tables are those of the trie of the plane, whatever the buffer held before; other planes' parts stay |
| Trie.FindBestBits | srctools/readtype/readtype.cpp:402-421 | the search over block sizes, each trie written over the last, finds the first smallest |
| Trie.WriteTries | srctools/readtype/readtype.cpp:397-429 | every plane gets the tables of its smallest trie, with masks that part a code accordingly, and the octets of all tables are counted |
| Trie.SmallestTables | srctools/readtype/readtype.cpp:413-421 | of the block sizes from 8 to 8192, the tables of a plane have the first that makes them take the fewest octets, of two for each entry |
| CharacterData.SpansDescribe | srctools/readtype/readtype.cpp:783-817 | for every code, listed or in a gap or beyond, the ranges say what the lines say |
| CharacterData.AfterLastLine | srctools/readtype/readtype.cpp:812-817 | codes after the last line are unassigned exactly if that line is below 0xFFFF or was unassigned itself |
| CharacterData.RecordsGrow | srctools/readtype/readtype.cpp:240-256 | adding ranges never moves a record |
| CharacterData.RecordsOnce | srctools/readtype/readtype.cpp:240-256 | no two records are the same |
| CharacterData.ReadType.AddRange | srctools/readtype/readtype.cpp:238-267 | refuses exactly when records or ranges would be too many, and else adds the range with the place of its one record |
| CharacterData.ReadType.ReadLines | srctools/readtype/readtype.cpp:783-817 | refuses exactly when the file needs too many, and else leaves the ranges of its lines |
| CharacterData.ReadType.BuildIndex | srctools/readtype/readtype.cpp:819-825 | every code has the place of the last range that starts at or before it, and 0 before all of them |
| CharacterData.IndexDenotes | srctools/readtype/readtype.cpp:819-825 | a code has the place of its record, or -1 if it has no data, exactly if it is in a range or the first range has data; otherwise it has place 0 |
| CharacterData.ChangesAreStarts | srctools/readtype/readtype.cpp:819-825 | a plane changes value no more often than ranges start in it |
| CharacterData.CodeTold | srctools/readtype/readtype.cpp:397-429 | the tables give a code its record, or a mark if it has no data, exactly if it has its place in the index and the trie gives that back |
| CharacterData.PlaneTellsExactlyIf | srctools/readtype/readtype.cpp:397-429 | that is so for all codes of a plane exactly if it is in a range or with data that the plane begins and the data of its smallest trie has fewer than 0x8000 entries and one block |
| CharacterData.FewRangesFit | srctools/readtype/readtype.cpp:397-429 | the data is that short in every plane in which at most 3583 ranges start |
| CharacterData.MakeTables | srctools/readtype/readtype.cpp:783-828 | from lines to tables: a file is refused exactly if it needs more than 4000 ranges or 1000 records; else, for every plane, looking up its codes gives the record that the lines describe, or a mark for no data, for all of them exactly if its first code is in a range or has data and the data of its smallest trie is not too long |
| CharacterLimits.JaggedIsRead | srctools/readtype/readtype.cpp:783-817 | a file that lists every code of the first plane and is read without being refused, with 3604 ranges and 997 records |
| CharacterLimits.JaggedDoesNotFit | srctools/readtype/readtype.cpp:397-429 | the data of its smallest trie is too long |
| CharacterLimits.MakeWrongTables | srctools/readtype/readtype.cpp:783-828 | the tables made of that file are wrong about some code |
| CharacterLimits.MakeUnmarkedTables | srctools/readtype/readtype.cpp:783-828 | the tables of a file that lists one letter, and has no data for other codes, give code 0 the record of the letter, though the plane has room |
| Relocations.LoadedIsScanned | imgtools/imglib/e32image/e32image.cpp:317-378 | the loader, which stops after so many relocations, finds what a reader of whole blocks finds |
| Relocations.EntriesRead | bintools/elftools/elftran/elf_reloc.cpp:85-88 | the entries of a page are read in order, each as its address and kind |
| Relocations.FinishedIsRead | bintools/elftools/elftran/elf_reloc.cpp:90-97 | a section ended at any point reads as all relocations so far, and is whole words |
| Relocations.AddedHolds | bintools/elftools/elftran/elf_reloc.cpp:66-89 | one more relocation, on the same page or another, keeps that so |
| Relocations.SectionIsRead | bintools/elftools/elftran/elf_reloc.cpp:50-101 | a section is whole blocks of whole words, empty exactly for no relocations, and the loader takes every relocation from it, in order, by its distance from the base; entries that are zero excepted |
| RelocWriter.CountsOn | bintools/elftools/elftran/elf_reloc.cpp:33-44 | at every relocation the count agrees with the octets written but for the last padding |
| RelocWriter.CountIsSize | bintools/elftools/elftran/elf_reloc.cpp:45-47 | the final count is the length of the section |
| RelocWriter.RelocWriter.EndBlock | bintools/elftools/elftran/elf_reloc.cpp:71-79 | the block is padded and its header put in front, and what came before stays |
| RelocWriter.RelocWriter.Add | bintools/elftools/elftran/elf_reloc.cpp:66-89 | in the octets of the section, the relocation is added, in a new block exactly if its page is another |
| RelocWriter.RelocWriter.Finish | bintools/elftools/elftran/elf_reloc.cpp:90-97 | the octets are those of the finished section |
| RelocWriter.SizeOfRelocs | bintools/elftools/elftran/elf_reloc.cpp:27-48 | the count is the length of the section, whatever its base |
| RelocWriter.CreateRelocs | bintools/elftools/elftran/elf_reloc.cpp:50-101 | nothing for no relocations, and else a section that fills exactly the octets counted, with its number and size |
| PeRelocations.NumberOfRelocs | bintools/petools/pefile/pe_file.cpp:336-392 | the number of relocations of the one type and in the sections kept |
| PeRelocations.GetRelocs | bintools/petools/pefile/pe_file.cpp:394-445 | fills arrays of that length to the end with those relocations, in the order of the file |
| PeRelocations.BlocksAreFound | bintools/petools/pefile/pe_file.cpp:394-445 | of blocks laid out one after the other, up to their size or a block of no size, every entry of kind 3 for an address in section 0, 1, 3 or 6 is found, in order, and no other |
| PeRelocations.GroupedIsStable | bintools/petools/pefile/pe_reloc.cpp:91-103 | within a section relocations keep their order |
| PeRelocations.ReorderedIsStableSort | bintools/petools/pefile/pe_reloc.cpp:82-108 | the new order is a stable sort by section: the same relocations, sections ascending |
| PeRelocations.ReorderRelocs | bintools/petools/pefile/pe_reloc.cpp:82-108 | ends, and leaves both arrays in that order |
| PeRelocations.BelongsExactlyIf | bintools/petools/pefile/pe_reloc.cpp:38 | the sections 0, 1 and 6 go to code and section 3 to data |
| PeRelocations.SizeOfRelocs | bintools/petools/pefile/pe_reloc.cpp:30-80 | the size of the code section, or of the data section, is that of a section of all relocations in sections 0, 1 and 6, or in section 3 |
| PeRelocations.CreateRelocs | bintools/petools/pefile/pe_reloc.cpp:110-221 | the section for code, or for data, has all relocations in sections 0, 1 and 6, or in section 3, in order, and there is none if there are none |
| PeRelocations.MoveRelocs | bintools/petools/pefile/pe_reloc.cpp:260-302 | addresses count from their section, and those of constants and of initialisers from where these go in the image; sections stay |
| PeRelocations.TranslateRelocs | bintools/petools/pefile/pe_tran.cpp:347-355 | from blocks of a PE file to what the loader takes: for code every relocation found in section 0, then 1, then 6, for data every one in section 3, each by its place in the image, in the order of the file |
| ExportSorting.LessIsTotal | bintools/elftools/elftran/elf_dlld.cpp:901 | the order by strcmp is strict and total on names |
| ExportSorting.LessExactlyIf | bintools/elftools/elftran/elf_dlld.cpp:901 | a name is less exactly if it has the lower octet where the two first differ, or ends there |
| ExportSorting.MergedKeeps | bintools/elftools/elftran/elf_dlld.cpp:895-919 | merging keeps every entry, with how often it occurs |
| ExportSorting.MergedIsSorted | bintools/elftools/elftran/elf_dlld.cpp:895-919 | merging two ordered lists gives an ordered one |
| ExportSorting.EqualNamesSwap | bintools/elftools/elftran/elf_dlld.cpp:900-918 | of two equal names at the front, the one of the right half comes first |
| ExportSorting.MergeInto | bintools/elftools/elftran/elf_dlld.cpp:895-919 | the scratch array receives the merge of two adjacent parts |
| ExportSorting.MergeSort | bintools/elftools/elftran/elf_dlld.cpp:883-927 | with one scratch array for all levels, a part is left as an ordered rearrangement of itself and the rest as it was |
| ExportSorting.Relink | bintools/elftools/elftran/elf_dlld.cpp:865-872 | the symbols are one list in the new order, without a cycle and ended by null |
| ExportSorting.Sort | bintools/elftools/elftran/elf_dlld.cpp:852-876 | the list is relinked to exactly its own symbols, ordered by name, each with its name, address and offset |
| ExportNames.PlacesAreApart | bintools/elftools/elftran/elf_dlld.cpp:605-610 | names never overlap, start at whole words inside the table, belong to a defined symbol of the address, and the last offset is the largest |
| ExportNames.AllNamedExactlyIf | bintools/elftools/elftran/elf_dlld.cpp:569-621 | every export gets a name exactly if no address is exported more often than it is defined |
| ExportNames.PlacesAreCounted | bintools/elftools/elftran/elf_dlld.cpp:612-621 | the count of names is right, and every name takes a word of the table at least |
| ExportNames.TableIsFilled | bintools/elftools/elftran/elf_dlld.cpp:605-610 | the string table takes exactly what its names need, each with a zero and filled up to a word |
| LookupSection.RegionsFill | bintools/elftools/elftran/elf_dlld.cpp:775-802 | header, addresses, offsets, strings and dependencies follow one another, aligned, with less than a word between them, and fill the declared size; offsets have 32 bits exactly if the last needs them; the count is right exactly below 0x10000 |
| LookupSection.HeaderRead | bintools/elftools/elftran/elf_dlld.cpp:809 | the header read from the section is the one written |
| LookupSection.SymbolIsRead | e32tools/elf2e32/source/imgdump.cpp:648-663 | with fewer than 0x10000 names the dump tool's reader, with offsets of 16 or of 32 bits, finds each symbol's own address and name, so no offset is cut off |
| NamedExports.AllRead | e32tools/elf2e32/source/imgdump.cpp:643-664 | the reader, which lists as many symbols as the header says, lists all of them in order exactly if there are fewer than 0x10000 |
| NamedExports.ELFDllData.SetupSymbolValues | bintools/elftools/elftran/elf_dlld.cpp:533-554 | a symbol for every entry of the export table that is not absent, in order |
| NamedExports.ELFDllData.NameExport | bintools/elftools/elftran/elf_dlld.cpp:575-616 | the first symbol of the address without a name gets it, at the end of the table; no other changes |
| NamedExports.ELFDllData.SetupSymbolNames | bintools/elftools/elftran/elf_dlld.cpp:559-631 | succeeds exactly if there are names enough; then the list has the same symbols, ordered by name, each with a name of its address at a place of its own |
| NamedExports.SortedIsLaid | bintools/elftools/elftran/elf_dlld.cpp:623-628 | sorting by name moves no name in the string table |
| NamedExports.ELFDllData.SetExportSymInfo | bintools/elftools/elftran/elf_dlld.cpp:775-802 | the header declares the regions that the names need |
| NamedExports.ELFDllData.WriteSymbols | bintools/elftools/elftran/elf_dlld.cpp:815-840 | all three parts of every symbol are in place, and writing one disturbs no other |
| NamedExports.ELFDllData.GetSymLookupSection | bintools/elftools/elftran/elf_dlld.cpp:804-850 | a reader of the section written lists the symbols of the list, in its order, exactly if there are fewer than 0x10000; dependencies are zero and nothing beyond the size is touched |
| PeImports.CrunchImportSection | bintools/petools/pefile/pe_imp.cpp:62-84 | compacted in place, the section is the one without ordinals, four octets shorter for each import |
| PeImports.CrunchedKeepsNames | bintools/petools/pefile/pe_imp.cpp:62-84 | in the compacted section every DLL has its count, and its name offset leads to the string it led to before; the size at the front is right |
| PeImports.BlocksAreCrunched | bintools/petools/pefile/pe_imp.cpp:62-84 | a section made of blocks becomes its smaller size, each block's name offset less the octets dropped, its count, and the names |
| PeImports.TablesAreThese | bintools/petools/pefile/pe_imp.cpp:29-49 | the tables are those of the descriptors of twenty octets up to one that starts with zero, each from the address in its last word up to a zero |
| PeImports.CopyImportAddrTable | bintools/petools/pefile/pe_imp.cpp:23-54 | fails exactly if some import is by name, and else gives every import without its top bit, in the order of the descriptors, and a zero |
| PeImports.FixImportThunk | bintools/petools/pefile/pe_imp.cpp:198-234 | thunk j of table d goes to the slot after all earlier thunks; fails exactly for an address that is neither a thunk nor the zero that ends a table |
| PeImports.SlotOfThunk | bintools/petools/pefile/pe_imp.cpp:40-49 | that slot holds the ordinal of the same thunk |
| StringExport.String.GetUTF8 | bintools/rcomp/src/ASTRING.CPP:196-273 | decodes leniently from any bytes, always takes at least one and never more than the string has |
| StringExport.DecodedBits | bintools/rcomp/src/ASTRING.CPP:196-273 | what any bytes are decoded to, well-formed or not: bits of a lead byte and of each of the next three that continues it, with a byte for each that does |
| StringExport.String.ExportLength | bintools/rcomp/src/ASTRING.CPP:470-526 | the number of units that exporting writes, for any bytes and each source set |
| StringExport.String.Export | bintools/rcomp/src/ASTRING.CPP:336-465 | writes as many units of the string as fit, in order, and zeros after them; tells whether all were, except that losing just the second unit of the last character goes unreported |
| StringExport.String.ExportToItem | bintools/rcomp/src/RCOSTRM.CPP:342-363 | in a buffer of as many units as bytes, as items allot it, everything fits except a UTF-8 string with more units than bytes |
| StringExport.ExportAndCompare | bintools/rcomp/src/ASTRING.CPP:336-526 | a buffer of as many units as ExportLength gives loses nothing, and a smaller one is reported as enough only if one unit is missing and the last character has two |
| StringExport.LoseUnit | bintools/rcomp/src/ASTRING.CPP:409-461 | the string of the one byte 0xF4 has two units; in the buffer of one unit that an item allots, one is lost and the export is reported as whole |
| StringExport.LosePair | bintools/rcomp/src/ASTRING.CPP:409-461 | the well-formed F0 90 80 80 has two units; exported into a buffer of one unit, one is lost and the export is reported as whole |
| StringExport.UnitsWithin | bintools/rcomp/src/RCOSTRM.CPP:346-348 | from a set of single bytes there are no more units than bytes |
| StringExport.TextWithin | bintools/rcomp/src/RCOSTRM.CPP:346-348 | nor are there in well-formed UTF-8 |
| StringExport.OctetsAreExported | bintools/rcomp/src/ASTRING.CPP:371-404 | text of single octets is exported character by character: by code page 1252 if there is no escape, or as it is |
| StringExport.AsUTF8 | bintools/rcomp/src/rcomp.cpp:3238-3274 | refuses codes above 0x10FFFF, and else writes the encoding of section 3 of RFC 3629, of each surrogate by itself above 0xFFFF, and a zero |
| StringExport.DecodeThree | bintools/rcomp/src/ASTRING.CPP:218-239 | any code of sixteen bits, a surrogate too, is decoded from its three bytes |
| StringExport.CodeIsExported | bintools/rcomp/src/ASTRING.CPP:409-440 | each code up to 0x10FFFF, in four bytes or as two surrogates of three, is exported as its UTF-16 form (section 2.1 of RFC 2781) |
| StringExport.TextIsExported | bintools/rcomp/src/ASTRING.CPP:409-440 | so is any text of such codes, whole |
| StringExport.EscapeIsExported | bintools/rcomp/src/ASTRING.CPP:371-404 | an escaped code in a CP1252 string is exported as its UTF-16 form exactly if it is below 0x80 or from 0xA0 to 0xFFFF |
| NumericValues.ReadDigits | bintools/rcomp/src/NUMVAL.CPP:186-229 | accepts exactly digits of the base, keeps 32 bits of the number and reports exactly if there are more |
| NumericValues.DigitExactlyIf | bintools/rcomp/src/NUMVAL.CPP:194-198 | the sixteen digits, the letters among them in either case |
| NumericValues.DigitsExactlyIf | bintools/rcomp/src/NUMVAL.CPP:191-217 | which texts are digits of base 10 and of base 16 |
| NumericValues.PrefixesAreTaken | bintools/rcomp/src/NUMVAL.CPP:173-184 | `0x`, a hyphen or both are taken off a source before its digits |
| NumericValues.InRangeExactlyIf | bintools/rcomp/src/NUMVAL.CPP:236-275 | the largest values of the three types, with a hyphen and without |
| NumericValues.RangeIsKept | bintools/rcomp/src/NUMVAL.CPP:299-337 | a type takes exactly the values that its octets keep whole |
| NumericValues.TooBigExactlyIf | bintools/rcomp/src/NUMVAL.CPP:218-224 | the test made before each digit tells exactly when the number outgrows 32 bits |
| NumericValues.WrappedStored | bintools/rcomp/src/NUMVAL.CPP:276-292 | complementing after 32 bits are kept stores the two's complement of the whole number |
| NumericValues.NumericValue.StoreValue | bintools/rcomp/src/NUMVAL.CPP:299-337 | refuses what the type cannot hold, and else stores it lowest octet first |
| NumericValues.NumericValue.ConvertToNatural | bintools/rcomp/src/NUMVAL.CPP:163-293 | refuses text that is not digits and numbers out of range, and else stores the two's complement |
| NumericValues.DecimalValue | bintools/rcomp/src/NUMVAL.CPP:442-449 | decimal digits stand for the number they are made of |
| NumericValues.Ltoa | bintools/rcomp/src/NUMVAL.CPP:427-473 | the decimal text of any 32-bit number but the lowest, within both of its buffers |
| NumericValues.WriteAndConvert | bintools/rcomp/src/NUMVAL.CPP:163-293 | text made of a number converts back: it is stored as its two's complement in every type whose range it is in, and refused by the others |
| Checksum.CrcTab | e32tools/elf2e32/source/checksum.cpp:53-79 | every entry of the 16-bit table is what eight steps of the division leave of its index |
| Checksum.CrcTab32 | e32tools/elf2e32/source/checksum.cpp:105-171 | every entry of the 32-bit table is what eight steps of the division leave of its index |
| Checksum.Shift16By8Xor | e32tools/elf2e32/source/checksum.cpp:100 | eight steps of the 16-bit division are linear |
| Checksum.Shift32By8Xor | e32tools/elf2e32/source/checksum.cpp:191 | eight steps of the 32-bit division are linear |
| Checksum.Step16 | e32tools/elf2e32/source/checksum.cpp:100 | one look at the 16-bit table is eight steps of the division |
| Checksum.Step32 | e32tools/elf2e32/source/checksum.cpp:191 | one look at the 32-bit table is eight steps of the division |
| Checksum.CrcStepDivides | e32tools/elf2e32/source/checksum.cpp:98-101 | bits that move above the sixteenth never reach the result |
| Checksum.Crc | e32tools/elf2e32/source/checksum.cpp:93-102 | for all data, the remainder by x^16 + x^12 + x^5 + 1, bit by bit, highest first |
| Checksum.Crc32 | e32tools/elf2e32/source/checksum.cpp:185-193 | for all data, the remainder by the polynomial of section 8 of RFC 1952, bit by bit, lowest first, without its inversions |
| Checksum.OneByte16Detected | e32tools/elf2e32/source/checksum.cpp:93-102 | changing any one byte of any data changes the 16-bit checksum |
| Checksum.OneByte32Detected | e32tools/elf2e32/source/checksum.cpp:185-193 | changing any one byte of any data changes the 32-bit checksum |

## Left out

- UnicodeCompressor.Compressor.DoCompressL: a call without a source is `DoFlushL`; output to a stream, which the tool panics on, is not modelled.
- UnicodeCompressor.RingQueue.Push: the start and size that the compressor has as fields are fields of a queue object here, one for input and one for output.
- ResourceDataStream.ResourceDataStream.Measure: what the first pass stores with the marks is kept beside them, in a sequence of its own; the marks' data that the third pass destroys is not.
- ResourceDataStream.ResourceDataStream.StreamOutReturningWhetherContainsCompressedUnicode: an assertion of the passes that fails is a refusal; the octets written before it are not described.
- ResourceDataStream.ResourceDataStream.EndOfCompressedUnicodeRun: runs are not empty, which the passes assert of all but the first (bintools/rcomp/src/RCBINSTR.CPP:303); the compressor never gives an empty run for text (`ResourceHeader.CompressedNotEmpty`).
- ResourceLayout.ReadBack: the octet that a reader pads with is arbitrary, since the writer leaves it open.
- ResourceHeader.StreamOutResource: items are octets, text or nested structures; links to other resources and the counts before arrays are octets like others.
- Trie.WriteTrie: tables are returned as values, not printed as C++; `int` entries are unbounded and cut to sixteen bits when written.
- CharacterData.ReadType.ReadLines: lines come parsed, in ascending order of their codes; composition, folding and case tables are not modelled.
- Relocations.LoadedIsScanned: what the loader then adds to the words of the image is not modelled.
- RelocWriter.CreateRelocs: the header of a section is a count and a size; its definition is not in the repository. The kind of a relocation is given, not found out.
- PeRelocations.NumberOfRelocs: the section of an address is a parameter, since finding it involves guessing; blocks are well-formed.
- PeRelocations.SizeOfRelocs: the tool has two copies of this function and of the writer, for code and for data; here a flag tells them apart.
- PeRelocations.MoveRelocs: where sections start in the file, and where two of them go in the image, are parameters; the words of the image are not patched.
- ExportSorting.Sort: lists of fewer than two symbols are not sorted by the tool either.
- LookupSection.HeaderRead: the header has 28 octets in the order in which a dump tool lists its fields; its definition is not in the repository.
- NamedExports.ELFDllData.SetupSymbolNames: relocations of the named symbols are not modelled.
- PeImports.CopyImportAddrTable: tables lie inside the section and end with zeros; big-endian hosts and console images are not modelled.
- PeImports.CrunchImportSection: the section is given; building it, with the order of DLLs, is not modelled.
- StringExport.String.Export: two octets of memory after the string are read, as the tool does, and may hold anything.
- StringExport.EscapeIsExported: what a supplementary code becomes when it is not exported rightly is left open.
- NumericValues.NumericValue.ConvertToNatural: words have 32 bits; DOUBLE values are not modelled.
- ELF imports (`AddSymbol`, `CreateImportSection`, `CreateDependency`) and the base of the lookup table: lists and counters with few properties beyond their own code.
- ELF relocation sorting and types, UID checksums (`checkSum`, `uidcrc`), and reading of scripts by the generated parser.
- Files, messages, command lines, memory allocation and big-endian byte swapping.
