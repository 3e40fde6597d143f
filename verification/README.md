# Verified models of mosura's formats, decoders and instruments

mosura is a decompiler with its oracles, table formats and development instruments around it. This project
models the parts whose correctness is an algorithmic claim, and proves the claim for every input.

- **The `wpack` decoder** (`Bits`, `BitStream`, `ShannonCode`, `CodeWords`, `PositionCode`, `CodeLengths`, `Lzss`,
  `WpackStream`, `WpackText`, `Wunpack`, `WpackEncode`, `AlignedCodes`, `WpackMember`). `Wunpack.Dec` is the decoder's
  class, field by field: a 16-bit shift register with a byte behind it, lookup tables built longest code first, a
  4096-byte ring.
  `BitStream.Holds` is the invariant of the register, stale bits included: what it holds of the file read as one
  endless stream. `ShannonCode` shows that the tables tile the 16-bit windows with one interval per symbol and that
  the lookup finds the owner of a window; `CodeWords` when the windows of a symbol are those that start with its
  code word. `Lzss` shows that the ring is an unbounded history. `WpackStream` says what tokens
  a bit stream spells, by code words alone, and that the decoder reads exactly those; `WpackText` what each of them
  adds to the text, in bytes and numbers. `WpackEncode` is the
  encoder such a stream comes from, and the round trip; `AlignedCodes` which codes have one; `WpackMember` puts
  table and text together into a file.
- **The similarity score** (`Lcs`, `Ccompare`). "Longest" is stated over all common subsequences with the places
  they are taken from, not by a recursion; interning, peeling and the two-row table are shown to compute it.
- **Formats that undo themselves** (`Schema`, `Tbl`, `TblRoundTrip`, `TblFields`, `Text`, `Config`, `ConfigRoundTrip`,
  `ConfigGrammar`, `Tsv`, `Key`): `.tbl` images, the machine config, TSV, cache keys. Each has a round trip, and where
  one holds only under a condition, the condition is exact. `TblFields` and `ConfigGrammar` say of every file, written
  here or not, what it must be to be read: the one by addresses, the other by how a line is put together.
- **State machines and allocators** (`Handle`, `HandleTrace`, `Mve`, `PredictRegs`): the handle registry over every run
  of its interface, and what an access answers, told from the calls before it alone; the addresses of fixture externs and jump tables, the register predicate and its classes.
- **Instruments** (`Census`, `Watsched`): merged runs, targets inside instructions, schedule recognisers.

## What the proofs found

- The decoder's "bad code" (`oracle/wpack/wunpack.py:97`) cannot be raised, whatever the code lengths
  (`ShannonCode.NeverBadCode`). A code that does not fill the space is not refused: its unused windows read
  unassigned table entries (`ShannonCode.LookupPastCode`), as symbol 0 or, past the end of the list, as an index
  error. Some stream makes a code within the space fail exactly when its last window reads past the list
  (`WpackStream.FaultsIffOverruns`; in code lengths, `ShannonCode.OverrunsIffRoom`). A code that is not
  over-subscribed decodes every window to an assigned symbol exactly when its Kraft sum is full. Tokens encoded
  with a code within the space are read back, in every file, exactly when its intervals are aligned
  (`AlignedCodes.ReadBackIffAligned`); every complete code is, and every text has a member of a complete code
  (`WpackMember.EveryTextHasMember`).
- The comment on `normalize` says that the leading `*` or `&` of a declaration is dropped
  (`crates/mosura-core/src/ccompare.rs:22-24`); the code keeps every run of operator characters as a token
  (`Ccompare.SkeletonAroundOperator`, `Ccompare.LeadingStarStays`).
- The comment at `crates/mosura-api/src/tbl.rs:150` says that the stored column offsets and sizes must agree with
  the recomputed ones; the reader skips them unread, and a file with any others opens the same
  (`TblRoundTrip.StoredPlacesIgnored`, `TblRoundTrip.DisagreeingPlacesOpen`). What is written there is the layout's
  (`TblFields.ColumnRecord`). A table survives the round trip
  exactly when its header length fits 32 bits (a name of 2^32 bytes is lost, `TblRoundTrip.LongNameLost`), and a
  layout is sound exactly when its last column begins below 65536.
- Key lengths are truncated to 32 bits, so fields of 2^32 bytes can collide (`Key.LongFieldsCollide`), and no
  shorter ones (`Key.SeparatesIff`); `from_hex` also takes signs and upper case (`Key.SignsAreAccepted`).
- TSV column names are not escaped: a table reads back exactly when it has a column and no name holds a tab or a
  newline (`Tsv.ReadsBackIffCleanNames`).
- The config round trip fails for names no line can carry, such as one that ends in a dot or whose section starts
  with a bracket; `ConfigRoundTrip.RoundTripIffWellFormed` gives the exact condition.
- The live set guards the calls that take a pointer, and only those. What such a call answered can outlive the
  handle: a reference, or a guard used or ended normally, touches a released cell exactly when its handle was
  released in the meantime (`Handle.DanglesIffReleased`). The magic number never decides (`Handle.LiveIsAHandle`).
- The extern layout holds exactly up to 256 callees (`Mve.LaidIffRoom`). Addresses of their own, which the comment at
  `crates/mosura-dev-ops/src/mve.rs:88-89` promises every extern, outlast it by one: with 257 callees they do
  exactly when no data symbol was requested before the last of them, with more they do not
  (`Mve.DistinctIffRoomy`). The jump tables stay clear of the stubs exactly up to 512 entries
  (`Mve.TablesClearOfStubs`).
- A2 promises the starts inside another instruction but lists only those inside the one before: it misses a start
  exactly when the instruction before has ended there and an earlier one has not (`Census.MissedIffPassed`). It is
  empty exactly when there is nothing to list; the binary search of A3 and A4 is exact for every target if and
  only if A2 is empty.

## Model

| member | source | states |
|---|---|---|
| Wunpack.Dec.constructor | oracle/wpack/wunpack.py:35-37 | the register starts empty at the given byte |
| Wunpack.Dec.Rb | oracle/wpack/wunpack.py:38-41 | the next byte of the file, zero past its end |
| Wunpack.Dec.GetByte | oracle/wpack/wunpack.py:42-51 | consumes exactly eight bits and answers the byte they spell, in both branches; the register invariant is kept |
| Wunpack.Dec.DecodePosition | oracle/wpack/wunpack.py:52-59 | consumes exactly `D_LEN[i] + 6` bits and answers `D_CODE[i] * 64` plus the six bits behind the prefix |
| Wunpack.Dec.ReadLengths | oracle/wpack/wunpack.py:60-70 | reads the run-length coded table: the coded symbols in order and their lengths; fails exactly when a symbol past the alphabet gets a length |
| Wunpack.CodeRun | oracle/wpack/wunpack.py:68-69 | one run of equal lengths; fails exactly when it passes symbol 313 |
| Wunpack.Dec.ShannonTrie | oracle/wpack/wunpack.py:60-82 | the lookup tables of the code, for any answer of the sort ordered by length; an index error exactly for an unusable table |
| Wunpack.Dec.FillTables | oracle/wpack/wunpack.py:72-82 | the three tables are those of the symbols numbered longest code first |
| Wunpack.Dec.FillWindow | oracle/wpack/wunpack.py:89-93 | fills the register with the next sixteen bits of the stream, consuming nothing |
| Wunpack.Dec.Consume | oracle/wpack/wunpack.py:100-105 | consumes exactly `codelen` bits, with or without the byte behind the register, stale bits agreeing with the stream |
| Wunpack.Dec.ReadSymbol | oracle/wpack/wunpack.py:89-105 | reads the symbol the tables give for the next sixteen bits, consumes its length, or fails as the original does |
| Wunpack.Dec.PutByte | oracle/wpack/wunpack.py:106-107 | the ring follows the history by one byte |
| Wunpack.Dec.CopyMatch | oracle/wpack/wunpack.py:109-113 | copying inside the ring byte by byte is copying over the unbounded history, overlap included |
| Wunpack.Dec.UnpackText | oracle/wpack/wunpack.py:84-118 | the decode loop terminates and answers the first `textsize` bytes of the expanded token stream, or the error of the first bad token; never "bad code" |
| Wunpack.Dec.Run | oracle/wpack/wunpack.py:83-118 | the whole decoder: an index error exactly for an unusable table, else the unpacked bytes; never "bad code"; an error with a code within the space only if its last window reads past the list, and none with a complete code |
| BitStream.ShiftOut | oracle/wpack/wunpack.py:45 | shifting out n held bits advances the stream by n |
| BitStream.OrIn | oracle/wpack/wunpack.py:90-93 | ORing stream bits below the held ones extends the register, whatever stale bits they meet |
| BitStream.FillByte | oracle/wpack/wunpack.py:89-91 | one whole byte below the held bits |
| BitStream.TopUp | oracle/wpack/wunpack.py:92-93 | the leading bits of the next byte make the register full |
| BitStream.FillRest | oracle/wpack/wunpack.py:104-105 | the rest of the byte behind goes below what a symbol left |
| BitStream.KeepRest | oracle/wpack/wunpack.py:47-50 | what is left of the byte behind when a byte was taken across its end |
| BitStream.FullRegister | oracle/wpack/wunpack.py:93-95 | a full register is the number the next sixteen stream bits spell |
| BitStream.LeadingByte | oracle/wpack/wunpack.py:43-45 | the leading byte of a register that holds eight bits is the stream's |
| BitStream.LeadingBits | oracle/wpack/wunpack.py:57 | the leading n of the held bits are the stream's |
| BitStream.StraddlingByte | oracle/wpack/wunpack.py:46-51 | a byte taken across the end of the register is the stream's, stale bits or not |
| ShannonCode.OwnerUnique | oracle/wpack/wunpack.py:76-82 | no window belongs to two symbols |
| ShannonCode.OwnerExists | oracle/wpack/wunpack.py:76-82 | every window below the Kraft sum belongs to a symbol |
| ShannonCode.LookupFindsOwner | oracle/wpack/wunpack.py:94-99 | the lookup loop stops at the owner's length and reads the owner's entry; the 0xFFFF of an absent length never stops it |
| ShannonCode.LookupPastCode | oracle/wpack/wunpack.py:94-99 | a window no symbol owns reads an entry no symbol was put in |
| ShannonCode.NeverBadCode | oracle/wpack/wunpack.py:95-97 | for all code lengths the loop stops at a length up to 16 whose `MinVal` the window has reached |
| ShannonCode.AssignedIffComplete | oracle/wpack/wunpack.py:94-99 | of codes not over-subscribed, exactly the complete ones decode every window to an assigned symbol |
| ShannonCode.PastIffOverruns | oracle/wpack/wunpack.py:94-99 | of codes not over-subscribed, some window reads past the end of the list exactly when the last one does at the shortest length |
| ShannonCode.OverrunsIffRoom | oracle/wpack/wunpack.py:72-99 | which is so exactly when the list's length, and the windows left over counted in the shortest code's size, reach 314 together |
| ShannonCode.TieOrderKeepsLengths | oracle/wpack/wunpack.py:19-31 | another order of equal lengths consumes the same bits and reads the same entry number, so decoding goes on with other symbols |
| CodeWords.StartAligned | oracle/wpack/wunpack.py:76-81 | in a complete code every interval starts at a multiple of its size |
| CodeWords.AlignedIffPrefixes | oracle/wpack/wunpack.py:94-99 | the codes whose every interval is the set of windows with its code word are exactly those whose intervals begin at multiples of their size |
| CodeWords.CompleteIsAligned | oracle/wpack/wunpack.py:76-81 | every complete code is one of them |
| CodeWords.LoneSymbolIsAligned | oracle/wpack/wunpack.py:76-81 | and so is the code of a single symbol of one bit, which is not complete |
| CodeWords.OwnsIffWord | oracle/wpack/wunpack.py:94-99 | in an aligned code a symbol owns a window exactly when the window starts with its code word |
| CodeWords.LookupReadsWord | oracle/wpack/wunpack.py:94-99 | where a code word of an aligned code stands no other does, and the lookup reads its symbol and its length |
| CodeWords.DecodesTheSymbol | oracle/wpack/wunpack.py:94-99 | at every bit of every stream exactly one code word stands, and the lookup reads its symbol and its length |
| PositionCode.TablesDecodeWords | oracle/wpack/wunpack.py:14-15 | at every bit exactly one match position is spelled by the fixed prefix code, and the two tables give it |
| PositionCode.WordLengths | oracle/wpack/wunpack.py:14-15 | one word has three bits, three have four, eight five, twelve six, twenty-four seven and sixteen eight |
| PositionCode.WordsInOrder | oracle/wpack/wunpack.py:14-15 | the words are numbered in order and leave no gap, from 0 to 256 |
| PositionCode.PositionIs | oracle/wpack/wunpack.py:52-59 | a position is sixty-four times the number of its word, and the six bits behind it |
| CodeLengths.Coded | oracle/wpack/wunpack.py:61-69 | the symbols with a length, all of them and no others |
| CodeLengths.EntrySpells | oracle/wpack/wunpack.py:66-69 | every run of up to eight equal lengths from 1 to 16, and every gap of up to 128 symbols, has its entry |
| CodeLengths.UsableIs | oracle/wpack/wunpack.py:61-69 | a usable table has a code for some symbol and none for a symbol from 314 on |
| CodeLengths.FlattenBounds | oracle/wpack/wunpack.py:66-69 | no entry spells a length above 16 |
| CodeLengths.NumberedIsCode | oracle/wpack/wunpack.py:71-77 | any sorted order of a usable table, read backwards, lists symbols of the alphabet longest code first |
| Lzss.CopyIsPeriodic | oracle/wpack/wunpack.py:109-113 | a copy is the one continuation in which every byte equals the one `dist` before it |
| Lzss.RingPush | oracle/wpack/wunpack.py:107 | writing at the wrapped index keeps the ring the last 4096 bytes of the history |
| Lzss.RingRead | oracle/wpack/wunpack.py:109-112 | a wrapped index `dist` behind the write index reads the history `dist` back, for every distance up to 4096 |
| Lzss.ExpandLength | oracle/wpack/wunpack.py:106-114 | tokens make as many bytes as their sizes add up to |
| WpackStream.TokensSuffice | oracle/wpack/wunpack.py:88-118 | the tokens read make the bytes needed and overshoot by at most 59 |
| WpackStream.TablesReadToken | oracle/wpack/wunpack.py:89-114 | with a complete code a token is spelled at a bit exactly when the tables read it there, ending at the same bit |
| WpackStream.TablesReadSpelledToken | oracle/wpack/wunpack.py:89-114 | with an aligned code, complete or not, whatever token is spelled is read |
| WpackStream.TablesReadTokens | oracle/wpack/wunpack.py:88-114 | with a complete code the tables never fault, and what they read is spelled by the stream |
| WpackStream.TokensArePrefix | oracle/wpack/wunpack.py:88-114 | with an aligned code the tokens read are a prefix of every long enough token sequence the stream spells |
| WpackStream.UnpackedIsSpelled | oracle/wpack/wunpack.py:83-118 | with an aligned code, whatever tokens a stream spells, if they make enough bytes those bytes are what is unpacked |
| WpackStream.OnesFault | oracle/wpack/wunpack.py:94-99 | with a code whose last window reads past the list, two bytes of ones are an index error, whatever stands around them |
| WpackStream.FaultsIffOverruns | oracle/wpack/wunpack.py:83-118 | of codes not over-subscribed, some stream makes exactly those fail |
| WpackStream.NoFault | oracle/wpack/wunpack.py:83-118 | with every other code not over-subscribed, the complete ones among them, unpacking never fails |
| WpackText.LiteralUnpacks | oracle/wpack/wunpack.py:106-107 | a symbol below 256 adds the byte it is, and the rest of the text is what is unpacked behind it |
| WpackText.MatchUnpacks | oracle/wpack/wunpack.py:108-114 | a symbol `c` from 256 on adds exactly `c - 253` bytes, each equal to the one `x + 1` before it, where `x` is the position behind the symbol; the rest is what is unpacked behind them |
| WpackText.MatchSymbols | oracle/wpack/wunpack.py:9-10 | the lengths of a match are those from 3 to 60, and each has one symbol |
| WpackText.RunOfOneByte | oracle/wpack/wunpack.py:106-114 | a literal and a match of the byte before put the byte there once and `c - 253` times more |
| WpackText.BlankRepeats | oracle/wpack/wunpack.py:86 | what a match finds before the text is spaces, as far back as 4096 |
| WpackEncode.PackedStands | oracle/wpack/wunpack.py:38-51 | bits packed most significant first stand in the stream where they were put |
| WpackEncode.EncodedReadsBack | oracle/wpack/wunpack.py:83-118 | a stream that starts with encoded tokens spells those tokens |
| WpackEncode.RoundTrip | oracle/wpack/wunpack.py:83-118 | unpacking what was encoded with an aligned code gives as much of the text as is asked for, a last match running past it or not, whatever stands before and after it in the file |
| AlignedCodes.ReadBackIffAligned | oracle/wpack/wunpack.py:83-118 | a code not over-subscribed gives all encoded tokens back, in every file, exactly when it is aligned |
| AlignedCodes.TableNumbersOnce | oracle/wpack/wunpack.py:61-71 | no symbol is numbered twice, whatever the table and the sort |
| AlignedCodes.StrayText | oracle/wpack/wunpack.py:94-107 | the text of one byte other than a space whose interval is not aligned unpacks to something else |
| WpackMember.TableReads | oracle/wpack/wunpack.py:60-70 | the lengths a table's entries spell are those the decoder reads, and it stops behind them |
| WpackMember.MemberUnpacks | oracle/wpack/wunpack.py:83-118 | a member, table and encoded text together, unpacks to its text with the tables of its own code, up to any length its tokens reach |
| WpackMember.Extract | oracle/wpack/wunpack.py:115-131 | unpacking the member at an address of a file gives the text that was encoded there, cut to the length the directory says |
| WpackMember.OneLetterMember | oracle/wpack/wunpack.py:60-118 | there are such members, of incomplete codes too |
| WpackMember.EveryListIsSpelled | oracle/wpack/wunpack.py:60-69 | every list of lengths up to 16 is spelled by some entries |
| WpackMember.EveryTextHasMember | oracle/wpack/wunpack.py:60-118 | every text has a member, of a complete code, however the sort breaks ties: a table of 32 entries and one code word of eight bits a byte |
| WpackMember.LoneLongSymbolFaults | oracle/wpack/wunpack.py:94-99 | a code of one symbol of sixteen bits fails on a text of ones |
| WpackMember.LoneLongSymbolTable | oracle/wpack/wunpack.py:60-70 | and that is the code of a four-byte file |
| Lcs.TableIsLongest | crates/mosura-core/src/ccompare.rs:90-98 | the table entry is the maximum length over all common subsequences |
| Lcs.PeelPrefix | crates/mosura-core/src/ccompare.rs:81-84 | a common prefix counts whole |
| Lcs.PeelSuffix | crates/mosura-core/src/ccompare.rs:85-88 | a common suffix counts whole |
| Lcs.InterningKeeps | crates/mosura-core/src/ccompare.rs:71-80 | numbering the tokens keeps the length |
| Lcs.Intern | crates/mosura-core/src/ccompare.rs:74-80 | the id table stays injective, keeps what it held, and covers the tokens |
| Lcs.LastEntry | crates/mosura-core/src/ccompare.rs:90-98 | two rows, swapped, give the last entry of the full table |
| Lcs.PeeledLength | crates/mosura-core/src/ccompare.rs:81-98 | the peeled table gives the unpeeled entry |
| Lcs.Length | crates/mosura-core/src/ccompare.rs:70-99 | the result is reached by a common subsequence and no common subsequence is longer |
| Lcs.Symmetric | crates/mosura-core/src/ccompare.rs:70-99 | the length is the same both ways round |
| Lcs.AtMostEither | crates/mosura-core/src/ccompare.rs:70-99 | it is at most either length |
| Lcs.WholeOnlyIfEqual | crates/mosura-core/src/ccompare.rs:70-99 | of sequences of equal length, only equal ones are wholly common |
| Ccompare.Normalize | crates/mosura-core/src/ccompare.rs:25-67 | the tokenizer terminates with the skeleton of the text |
| Ccompare.ReadToken | crates/mosura-core/src/ccompare.rs:29-64 | one pass of the loop reads the first token or skips noise |
| Ccompare.SkeletonOfCut | crates/mosura-core/src/ccompare.rs:25-67 | tokenizing is compositional wherever no token runs across the cut |
| Ccompare.SkeletonOfSeparated | crates/mosura-core/src/ccompare.rs:31-53 | white space or grouping between two texts separates them and adds nothing |
| Ccompare.SkeletonAround | crates/mosura-core/src/ccompare.rs:33-51 | a whole name, type or number between two texts adds its one token |
| Ccompare.WordsAround | crates/mosura-core/src/ccompare.rs:13-45 | in texts: each of the 33 type names adds `T`, each of the eleven words of control flow adds itself, any other name `ID` |
| Ccompare.NamesScoreOneIff | crates/mosura-core/src/ccompare.rs:101-109 | two names in one place score 1 exactly when they are the same, two types, or neither types nor words of control flow |
| Ccompare.ControlTellsApart | crates/mosura-core/src/ccompare.rs:20-45 | a word of control flow and any other name in its place give different skeletons and score below 1 |
| Ccompare.CharTokens | crates/mosura-core/src/ccompare.rs:29-64 | the tokens of every single character |
| Ccompare.RenamingKeepsSkeleton | crates/mosura-core/src/ccompare.rs:7-11 | renaming, retyping or changing a number leaves the skeleton as it is |
| Ccompare.SkeletonAroundOperator | crates/mosura-core/src/ccompare.rs:53-64 | a whole run of operator characters adds one token, the run itself |
| Ccompare.LeadingStarStays | crates/mosura-core/src/ccompare.rs:22-24 | so the star of a declaration is not dropped |
| Ccompare.ScoreLaws | crates/mosura-core/src/ccompare.rs:101-109 | the score is symmetric, lies in [0, 1], and is 1 exactly for equal skeletons |
| Ccompare.ScoreIs | crates/mosura-core/src/ccompare.rs:101-109 | times the two lengths it is twice the length of the longest common subsequence |
| Ccompare.RenamedScoresOne | crates/mosura-core/src/ccompare.rs:101-109 | functions that differ in one name, type or number score 1 |
| Ccompare.Similarity | crates/mosura-core/src/ccompare.rs:103-109 | the method computes that score |
| Schema.CodesRoundTrip | crates/mosura-api/src/schema.rs:28-43 | a code reads as a type exactly when it is that type's code |
| Schema.CodesAre | crates/mosura-api/src/schema.rs:10-43 | the codes from 1 to 11, in order |
| Schema.ComputeLayout | crates/mosura-api/src/schema.rs:136-147 | offsets by running alignment, stored in 16 bits, and the padded row size |
| Schema.CellsBetweenBytes | crates/mosura-api/src/schema.rs:46-65 | the size and the alignment of each type, by the row of a byte, a cell and a byte |
| Schema.MixedRow | crates/mosura-api/src/schema.rs:136-147 | `u8, u64, u16, str` lie at 0, 8, 16 and 20 in 32 bytes |
| Schema.PlacesInOrder | crates/mosura-api/src/schema.rs:127-147 | a cell ends before every later column |
| Schema.SoundIffFits | crates/mosura-api/src/schema.rs:127-147 | cells are aligned, ordered, disjoint and inside a row of a multiple of 8 exactly when the last one begins below 65536 |
| Schema.TooManyColumns | crates/mosura-api/src/schema.rs:136-147 | 8193 columns of eight bytes do not fit, 8192 do |
| Tbl.LeReadsBack | crates/mosura-api/src/tbl.rs:98-103 | a number that fits reads back from its little-endian bytes |
| Tbl.Write | crates/mosura-api/src/tbl.rs:42-83 | the image of the table: fixed header, schema block, rows and blob, each padded to 8 |
| TblRoundTrip.ParseHeader | crates/mosura-api/src/tbl.rs:105-162 | the cursor reads the header and the schema, or refuses as the original does |
| TblRoundTrip.OpenOwned | crates/mosura-api/src/tbl.rs:192-205 | opening: rows and blob inside the file, digest checked if asked, schema resolved, table assembled |
| TblRoundTrip.ImageParses | crates/mosura-api/src/tbl.rs:105-162 | an image parses to the header and the schema it was written with, whatever stands in the place of the offsets and sizes |
| TblRoundTrip.ImageOpens | crates/mosura-api/src/tbl.rs:164-205 | what opening an image gives, of whatever digest and stored offsets: refused for the digest, refused for the version, or the table |
| TblRoundTrip.RoundTrip | crates/mosura-api/src/tbl.rs:166-205 | opening the image of a table gives the table; a compiled schema takes the place of the file's exactly when version and columns agree, else it is refused |
| TblRoundTrip.RoundTripIffHeaderFits | crates/mosura-api/src/tbl.rs:58-65 | a table survives exactly when its header length fits 32 bits |
| TblRoundTrip.LongNameLost | crates/mosura-api/src/tbl.rs:42-83 | a table with a name of 2^32 bytes does not come back |
| TblRoundTrip.StoredPlacesIgnored | crates/mosura-api/src/tbl.rs:150 | the stored offsets and sizes are not looked at: with any others in their place the table opens the same |
| TblRoundTrip.DisagreeingPlacesOpen | crates/mosura-api/src/tbl.rs:150 | a file whose stored offset and size are wrong, and that opens |
| TblRoundTrip.ParsedFillsHeader | crates/mosura-api/src/tbl.rs:153-159 | of every file that parses, the schema block fills the header exactly and the row size is that of its types |
| TblRoundTrip.ChangedContentRefused | crates/mosura-api/src/tbl.rs:182-204 | a verified open refuses an image whose rows or blob were changed, unless the digest does not tell them apart |
| TblRoundTrip.ImageInjective | crates/mosura-api/src/tbl.rs:42-83 | tables with equal images are equal |
| TblFields.LittleEndian | crates/mosura-api/src/tbl.rs:98-103 | numbers are stored least significant byte first |
| TblFields.ColumnRecord | crates/mosura-api/src/tbl.rs:49-57 | in the image of every table, the record of each column stands at its address and stores the offset and the size of the layout |
| TblFields.StoredSoundIffFits | crates/mosura-api/src/tbl.rs:47-57 | cells at the stored places are aligned, disjoint and inside the row exactly when the last column begins below 65536 |
| TblFields.ImageByAddress | crates/mosura-api/src/tbl.rs:58-83 | the image byte range by byte range: the magic, each number of the header, the digest, the name, rows and blob, zeros between |
| TblFields.ParsedIff | crates/mosura-api/src/tbl.rs:105-162 | a file, any file, parses as a header and a schema exactly when it holds them, address by address, and the bounds, the header's length and the row size agree |
| TblFields.RefusedAs | crates/mosura-api/src/tbl.rs:105-162 | what does not parse is malformed, unless it is long enough and has another magic |
| TblFields.OpenedIff | crates/mosura-api/src/tbl.rs:164-205 | a file opens as a table exactly when its rows and blob are inside it, the digest, if asked for, is theirs, and the known schema, if there is one, is the file's |
| TblFields.VersionRefusedIff | crates/mosura-api/src/tbl.rs:105-205 | it is refused for its version exactly for another magic, or, sound in all else, another schema than the known one |
| Config.Parse | crates/mosura-cli/src/config.rs:12-48 | the map of the lines, or the first malformed line and why |
| ConfigGrammar.TrimIff | crates/mosura-cli/src/config.rs:16-44 | trimming takes off the white space around, all of it and nothing else |
| ConfigGrammar.LinesAre | crates/mosura-cli/src/config.rs:16-45 | every line is blank, a comment, a section or a good pair and does what that says, or is refused for the one reason that fits how it is put together |
| ConfigGrammar.ParsesIff | crates/mosura-cli/src/config.rs:12-48 | a text parses exactly when each of its lines is one of these, to the map they say in their order |
| ConfigGrammar.FailsIff | crates/mosura-cli/src/config.rs:12-48 | and fails exactly with the number of the first line that is none of them, and its reason |
| ConfigGrammar.LastEntryWins | crates/mosura-cli/src/config.rs:26-46 | the map holds for each name, section and key, the text of its last entry, and no other name |
| ConfigGrammar.BareNumberRefused | crates/mosura-cli/src/config.rs:39-43 | `x = 5` is refused, on line 1 |
| Config.BySection | crates/mosura-cli/src/config.rs:52-59 | every key is listed once, under its section, in order |
| Config.RenderGroup | crates/mosura-cli/src/config.rs:61-72 | the title and the entries of one section |
| Config.Render | crates/mosura-cli/src/config.rs:51-74 | the header and every section, root keys first, sections and keys in increasing order, nothing left out |
| Config.RenderingUnique | crates/mosura-cli/src/config.rs:51-74 | a map has one rendering only |
| ConfigRoundTrip.RenderedFile | crates/mosura-cli/src/config.rs:51-74 | a file as it looks: root keys, then a blank line, a title and its keys |
| ConfigRoundTrip.QuoteIs | crates/mosura-cli/src/config.rs:69 | only double quotes change, each into a single one |
| ConfigRoundTrip.EntryReads | crates/mosura-cli/src/config.rs:28-45 | a rendered entry with a plain key is stored under the section in force |
| ConfigRoundTrip.SectionReads | crates/mosura-cli/src/config.rs:21-27 | a rendered title puts its trimmed section in force, unless it opens a second bracket |
| ConfigRoundTrip.ParsedStorable | crates/mosura-cli/src/config.rs:12-48 | nothing a parse stores holds a newline, no value a double quote, and names end in key characters |
| ConfigRoundTrip.RoundTripIffWellFormed | crates/mosura-cli/src/config.rs:12-74 | parsing what was rendered gives the map with `"` turned into `'`, exactly when the map is well formed |
| ConfigRoundTrip.DottedNameFails | crates/mosura-cli/src/config.rs:32-34 | a name that ends in a dot is lost: the file that is written does not read back as the map |
| ConfigRoundTrip.SetThenLoad | crates/mosura-cli/src/config.rs:77-88 | setting a key and loading again gives the old map updated at the key, exactly when that map is well formed |
| ConfigRoundTrip.Set | crates/mosura-cli/src/config.rs:77-88 | the text written back, and what loading it gives; a file that does not parse is left alone (an absent file is the empty text) |
| Tsv.Render | crates/mosura-api/src/render.rs:72-83 | the header line, then one line a row |
| Tsv.EscapesCompose | crates/mosura-api/src/render.rs:47 | the three chained replacements escape character by character |
| Tsv.EscapesOfOne | crates/mosura-api/src/render.rs:47 | what each character is escaped to |
| Tsv.EscapeUndone | crates/mosura-api/src/render.rs:47 | unescaping gives the string back |
| Tsv.EscapeHidesSeparators | crates/mosura-api/src/render.rs:47 | an escaped string holds no tab and no newline |
| Tsv.ReadsBackIffCleanNames | crates/mosura-api/src/render.rs:72-83 | splitting at newlines and tabs gives the names and every cell text back exactly when there is a column and no name holds a separator |
| Tsv.ReadIsClean | crates/mosura-api/src/render.rs:72-83 | whatever text is split, no part holds a separator and no line is without parts |
| Tsv.TabbedNameMisread | crates/mosura-api/src/render.rs:74-75 | a name with a tab in it is read as two columns |
| Tsv.CellReadsBack | crates/mosura-api/src/render.rs:36-83 | unescaping gives every string cell back, and any other cell's text is read as it is |
| Tsv.NoColumnsMisread | crates/mosura-api/src/render.rs:72-83 | a table without columns does not read back |
| Text.SplitJoin | crates/mosura-api/src/render.rs:76-80 | splitting undoes joining |
| Text.SplitLines | crates/mosura-api/src/render.rs:76-81 | splitting undoes ending lines |
| Key.FeedKey | crates/mosura-api/src/key.rs:26-43 | what is fed is the length-prefixed fields, in order |
| Key.FedInOrder | crates/mosura-api/src/key.rs:33-43 | stage, operation, each input, tag and annotations, in this order |
| Key.ShortField | crates/mosura-api/src/key.rs:26-29 | a field of less than 256 bytes stands behind its length and three zero bytes |
| Key.UnfedRecovers | crates/mosura-api/src/key.rs:26-43 | fields below 2^32 bytes are read back from what was fed |
| Key.KeysSeparate | crates/mosura-api/src/key.rs:31-43 | with fields below 2^32 bytes, equal fed bytes mean equal requests, although the number of inputs is not fed |
| Key.SeparatesIff | crates/mosura-api/src/key.rs:26-43 | the bound is exact: of requests as they are fed, with 32 bytes of annotations, fields shorter than `n` bytes separate exactly when `n` is at most 2^32 |
| Key.LongFieldsCollide | crates/mosura-api/src/key.rs:26-28 | a field of 2^32 bytes can feed what two shorter ones feed |
| Key.FromHex | crates/mosura-api/src/key.rs:14-23 | the bytes of 64 characters read in pairs, or nothing |
| Key.KeyOfIff | crates/mosura-api/src/key.rs:14-23 | it reads 64 characters, no more and no fewer, that are 32 bytes pair by pair |
| Key.PairReads | crates/mosura-api/src/key.rs:20 | a pair is two digits of either case, or a plus sign and one |
| Key.HexAt | crates/mosura-api/src/key.rs:10-12 | each byte is written as its upper and its lower half |
| Key.HexDigitIs | crates/mosura-api/src/key.rs:10-12 | from 0 to 9 and a to f |
| Key.UnhexIffHex | crates/mosura-api/src/key.rs:10-24 | a name is the hexadecimal form of what it reads as exactly when it is in lower case |
| Key.NamesRoundTrip | crates/mosura-api/src/key.rs:10-24 | a key reads back from its name, and of the names read as it only the lower-case one is its own |
| Key.SignsAreAccepted | crates/mosura-api/src/key.rs:20 | a name with a sign in it reads as a key of another name |
| Handle.Registry.constructor | crates/mosura-capi/src/handle.rs:56-61 | nothing is live |
| Handle.Registry.New | crates/mosura-capi/src/handle.rs:68-73 | a fresh handle is live and not poisoned; everything else is as before |
| Handle.Registry.Use | crates/mosura-capi/src/handle.rs:76-101 | the payload, or the first of null, not live, no handle, wrong kind, poisoned |
| Handle.Registry.Borrow | crates/mosura-capi/src/handle.rs:94-101 | shared access hands out a reference, of no bounded lifetime, and changes nothing else |
| Handle.Registry.Read | crates/mosura-capi/src/handle.rs:94-101 | a read through a reference dangles exactly when its payload was dropped |
| Handle.Registry.Deref | crates/mosura-capi/src/handle.rs:109-119 | so does a read or write through a guard |
| Handle.Registry.AsMut | crates/mosura-capi/src/handle.rs:128-135 | exclusive access poisons the handle while it lasts; a refusal changes nothing |
| Handle.Registry.DropGuard | crates/mosura-capi/src/handle.rs:120-126 | the end of an access clears the poison, a panic leaves it and touches no cell; a normal end dangles exactly when the handle was released |
| Handle.Registry.Release | crates/mosura-capi/src/handle.rs:138-148 | a live handle of any kind is dropped once, anything else is refused |
| Handle.RunKeeps | crates/mosura-capi/src/handle.rs:56-148 | in every state of every run: live plus dropped is created, nothing is dropped twice, live pointers are exactly the cells |
| Handle.DanglesIffReleased | crates/mosura-capi/src/handle.rs:94-148 | over every run, a cell outside the live set is touched exactly by a read through a reference, or the use or normal end of a guard, whose handle was released |
| Handle.ReleasedUnderGuard | crates/mosura-capi/src/handle.rs:120-148 | a run that ends so with a guard |
| Handle.ReleasedWhileLent | crates/mosura-capi/src/handle.rs:94-148 | and one with a reference |
| Handle.LiveIsAHandle | crates/mosura-capi/src/handle.rs:80-86 | the magic number never decides |
| Handle.PanickedStaysPoisoned | crates/mosura-capi/src/handle.rs:103-126 | after a panicked mutation a handle refuses every access until it is released |
| Handle.UsableIffQuiet | crates/mosura-capi/src/handle.rs:103-135 | a live handle is usable exactly when no access is open on it and none panicked |
| Handle.ReleasedStaysGone | crates/mosura-capi/src/handle.rs:76-148 | no pointer, reused or not, reaches a released payload |
| HandleTrace.LiveIffHeld | crates/mosura-capi/src/handle.rs:68-148 | a pointer is live exactly when some call made it and no later one released it |
| HandleTrace.FlagsAre | crates/mosura-capi/src/handle.rs:103-135 | a payload is poisoned by a panic, or by an access asked for and not ended since, told from the calls since it was made |
| HandleTrace.AccessIs | crates/mosura-capi/src/handle.rs:76-101 | over every run: refused as null, then as not live, then for the kind it was made with, then as poisoned, and else the payload |
| HandleTrace.AccessIff | crates/mosura-capi/src/handle.rs:76-101 | so an access succeeds exactly for the kind the handle was made with, while it is held, with no access open and none that panicked |
| PredictRegs.Search | held-patches/predict_regs.py:62-70 | the first free entry of a table |
| PredictRegs.Predict | held-patches/predict_regs.py:53-73 | the registers of all declarations |
| PredictRegs.FirstFit | held-patches/predict_regs.py:57-72 | each declaration gets the first table entry that is not excluded and overlaps none given before, and none exactly when there is no such entry |
| PredictRegs.NeverOverlap | held-patches/predict_regs.py:57-72 | no two declarations share a byte lane, and no excluded register is given |
| PredictRegs.OverlapIff | held-patches/predict_regs.py:23-32 | two registers overlap exactly when they are parts of one and not its low and high byte |
| PredictRegs.TablesGive | held-patches/predict_regs.py:34-38 | declarations of one width get the registers of its table, in its order |
| PredictRegs.TablesEnd | held-patches/predict_regs.py:34-38 | and no more than it has; a width without a table gets none |
| PredictRegs.FrameIsNeverGiven | held-patches/predict_regs.py:40-41 | neither the frame nor the stack pointer is given |
| PredictRegs.ExtendingKeeps | held-patches/predict_regs.py:57-72 | declaring more never changes what was given |
| PredictRegs.PredictionIs | held-patches/predict_regs.py:53-73 | a name gets the register of its last declaration; for distinct names, the n-th the n-th register |
| PredictRegs.PermutationsAre | held-patches/predict_regs.py:79 | the enumeration, by first place, then second and so on, is of exactly the permutations |
| PredictRegs.PermutationsDistinct | held-patches/predict_regs.py:79 | and lists none twice |
| PredictRegs.PermutationsAscend | held-patches/predict_regs.py:79 | and in lexicographic order |
| PredictRegs.OrdersAreAll | held-patches/predict_regs.py:79-80 | so every order of the names is numbered, once, by its rank |
| PredictRegs.ClassesFor | held-patches/predict_regs.py:76-84 | every order is listed, by its number and its joined names, under its own prediction and nowhere else, in increasing order and in no empty class |
| PredictRegs.ListedTells | held-patches/predict_regs.py:83 | what is listed of an order tells it, as long as no name holds a comma |
| PredictRegs.SameClassIffSameRegisters | held-patches/predict_regs.py:76-84 | two orders share a class exactly when they get the same registers |
| PredictRegs.WidthsDecide | held-patches/predict_regs.py:53-73 | only the widths decide: same widths in the same places, same registers in the same places |
| Mve.Resolver.Resolve | crates/mosura-dev-ops/src/mve.rs:99-107 | a symbol gets the next address of its kind on first request, and the same one after |
| Mve.FirstAddresses | crates/mosura-dev-ops/src/mve.rs:89-107 | callees begin at 0x1000 behind the base and lie 0x10 apart, data at 0x2000 and 0x100 apart |
| Mve.RunIsStable | crates/mosura-dev-ops/src/mve.rs:84-90 | an address once given never changes |
| Mve.RunNames | crates/mosura-dev-ops/src/mve.rs:99-107 | exactly the requested symbols are placed |
| Mve.LaidIffRoom | crates/mosura-dev-ops/src/mve.rs:84-90 | over every run, callees lie in [stub, data), data from the data base on and no two symbols share an address, exactly when at most 256 callees are named |
| Mve.DistinctIffRoomy | crates/mosura-dev-ops/src/mve.rs:84-107 | over every run no two externs share an address exactly when at most 256 callees are named, or 257 and no data symbol before the last of them |
| Mve.TooManyCallees | crates/mosura-dev-ops/src/mve.rs:104-106 | beyond that some callee is placed at the data base |
| Mve.OneCalleeTooMany | crates/mosura-dev-ops/src/mve.rs:104-106 | 257 callees are one too many for the layout, 256 are not; 258 are one too many for distinct addresses, 257 without data are not |
| Mve.PlaceTables | crates/mosura-dev-ops/src/mve.rs:113-120 | tables one behind the other from `base + 0x800` |
| Mve.FirstTable | crates/mosura-dev-ops/src/mve.rs:113-115 | the first one at 0x800 |
| Mve.TablesFollow | crates/mosura-dev-ops/src/mve.rs:113-120 | each table ends where the next begins, so no two overlap |
| Mve.TablesClearOfStubs | crates/mosura-dev-ops/src/mve.rs:89-120 | they stay clear of the stubs exactly up to 512 entries |
| Mve.OneEntryTooMany | crates/mosura-dev-ops/src/mve.rs:113-120 | 513 entries are one too many |
| Census.Runs | crates/mosura-dev-ops/src/census.rs:91-104 | for any extents, in any order: runs in order with real gaps, covering what the extents cover, each counting the extents that start in it, at least one, counts adding up to the number of extents |
| Census.RunsUnique | crates/mosura-dev-ops/src/census.rs:91-104 | which leaves one list of runs only |
| Census.SameExtents | crates/mosura-dev-ops/src/census.rs:92 | what the runs are does not depend on the order of the extents |
| Census.OffcutStartsIff | crates/mosura-dev-ops/src/census.rs:64-66 | A2 is not empty exactly when some start lies strictly inside some instruction |
| Census.MissedIffPassed | crates/mosura-dev-ops/src/census.rs:63-66 | a start inside an instruction is not listed exactly when the instruction before has ended and an earlier one has not |
| Census.ListsAllIffNonePassed | crates/mosura-dev-ops/src/census.rs:63-66 | A2 lists every start inside an instruction exactly when there is no such place |
| Census.SomeStartsAreMissed | crates/mosura-dev-ops/src/census.rs:63-66 | there can be: a start inside an earlier, longer instruction |
| Census.OrderedEndsMissNone | crates/mosura-dev-ops/src/census.rs:63-66 | there is none when the ends are in order too |
| Census.MissedShowsOffcutStart | crates/mosura-dev-ops/src/census.rs:68-73 | a target inside an instruction that the search misses shows an offcut start |
| Census.OffcutIffClean | crates/mosura-dev-ops/src/census.rs:68-73 | the search finds exactly the targets inside an instruction, for all targets, if and only if A2 is empty |
| Census.FlowReportIsExact | crates/mosura-dev-ops/src/census.rs:76-78 | with A2 empty A3 reports exactly the edges into the middle of an instruction, as often as they occur |
| Census.TargetReportIsExact | crates/mosura-dev-ops/src/census.rs:84-88 | and A4 exactly the executable targets there |
| Census.DenominatorIs | crates/mosura-dev-ops/src/census.rs:80-88 | and counts what they are out of: the targets in executable memory |
| Watsched.CountMoved | crates/mosura-dev-ops/src/watsched.rs:93 | the count is the number of positions that belong to some inversion |
| Watsched.StillIsFixed | crates/mosura-dev-ops/src/watsched.rs:93 | in a permutation what belongs to no inversion is in its own place |
| Watsched.NoneMovedIffIdentity | crates/mosura-dev-ops/src/watsched.rs:93-94 | nothing moved exactly when the order is the identity |
| Watsched.NeverExactlyOne | crates/mosura-dev-ops/src/watsched.rs:93 | the count is never one |
| Watsched.LoadSwap | crates/mosura-dev-ops/src/watsched.rs:138-163 | reports `k` exactly when the order is the identity with `k` and `k + 1` exchanged and both are loads |
| Watsched.TwoMovedIffSwap | crates/mosura-dev-ops/src/watsched.rs:93-163 | the two recognisers agree: two elements moved exactly when two neighbours are exchanged |

## Left out

- The directory of a `wpack` archive, its member names and CRC-32; the stored (not coded) members the original
  does not read either.
- Watcom's own quicksort, a separate program: the order it answers is a parameter, any order by length.
- Wunpack.Dec.Run: what an over-subscribed code (Kraft sum above 2^16) decodes to is given by the tables, with their wrapped
  starts, and not related to code words; such a code has none.
- Wunpack.Dec.DecodePosition: the two 256-entry tables are written in closed form (32 ones of length 3, 3 times 16 of length
  4, 8 times 8, 12 times 4, 24 times 2, 16 ones) instead of as lists.
- AlignedCodes.StrayText: of a match or a space only the tokens are shown to be read wrongly; whether the text differs
  depends on what the tokens read instead copy.
- Ccompare.Similarity: rational numbers in place of `f64`, so no rounding.
- Ccompare.Normalize: the host's Unicode classes are a parameter; assumed of them is only what concerns the characters the
  tokenizer names.
- TblRoundTrip.OpenOwned: mathematical integers in place of `usize`, so no wrap-around for hostile offsets; UTF-8 validity and
  the digest are parameters; the texts of the error messages are not modelled.
- TblRoundTrip.RoundTripIffHeaderFits: the ranges of the other header fields are those of the original's integer types, and
  assumed.
- Key.KeysSeparate: the hash itself; what is proved is that its input tells requests apart.
- Key.FromHex: names in ASCII; a name with wider characters makes the original slice inside one.
- Tsv.ReadsBackIffCleanNames: the text of a number, a bool, bytes or a list is given and assumed free of tabs and newlines.
- The JSON and TEXT renderings, memory-mapped files, the file system around the config.
- Config.Parse: a carriage return before a newline is white space here, where the host drops it with the newline;
  either way it is trimmed.
- Handle.Registry.DropGuard: what a write through a dangling guard does to the memory that took the cell's place.
- Handle.Registry.Use: a single thread; the mutex around the live set is not modelled, and the payload's own drop is its
  entry in the history.
- Mve.Resolver.Resolve: which symbols are data is a parameter (the original reads it off the source of the unit); addresses do
  not wrap.
- Census.OffcutIffClean: the library's binary search stands as what it answers on starts in strictly increasing order.
- The width of a declaration, a lookup on its type name (`held-patches/predict_regs.py:42-50`): a parameter.
- A1 and A5 of the census, the producers that fill the tables, progress and cancellation.
- The scheduler itself, and the split-store part of its census.
- The decompiler, the oracles' drivers, the C wrappers and the bindings: not part of this model.
