# mod-hub memory analysis core, modelled in Dafny

This project models the analysis core of mod-hub, a Windows toolkit that inspects a running
process's memory. The model covers four parts.

- **Byte signatures** (`src/pattern.rs`). A signature is text such as `48 8B ?? 74`, where `??`
  is a wildcard. It is parsed into a `Pattern` and searched for with three matchers: naive,
  Boyer-Moore (bad-character table) and Knuth-Morris-Pratt (failure table). A hybrid matcher
  picks one of the three by pattern length and wildcard ratio. `PatternScanner` wraps the
  hybrid matcher.
- **Virtual tables** (`src/vtable.rs`). These are heuristics that recognise function prologues,
  valid function pointers and RTTI pointers. The scanner proposes a vtable at every aligned
  offset of a buffer. The inheritance analysis relates tables whose slots extend each other.
  The class-hierarchy reconstruction, shared-function detection and object-size estimate are
  built from those tables.
- **Process memory** (`src/memory.rs`). This part covers region protection and state decoding,
  the rule that chooses which regions are scanned, and the per-region pattern, byte and table
  scans. It also covers the comprehensive scan and its statistics, the hexdump of a hit, and
  the region filter builder.
- **The analysis engine** (`src/analysis.rs`). It builds on the comprehensive scan. It finds
  functions at prologue hits and table slots, and records each one's calling convention, size
  and first parameter. It also builds structures from tables, extracts ASCII strings, detects
  code patterns and classifies single addresses. It then puts everything together in
  `analyze`.

## Layout

One module per file:

- `Common` (`common.dfy`): bytes, Option/Result, little-endian decoding, hex formatting.
- `Patterns` (`pattern.dfy`).
- `Naive` (`naive.dfy`), `BoyerMoore` (`boyer_moore.dfy`), `Kmp` (`kmp.dfy`).
- `Matchers` (`matchers.dfy`): the selector and `PatternScanner`.
- `VTables` (`vtable.dfy`).
- `VTableAnalysis` (`vtable_analysis.dfy`): `VTableAnalyzer` and `ClassHierarchy`.
- `Memory` (`memory.dfy`).
- `Analysis` (`analysis.dfy`).

## How the model is built

- **Loops become methods.** Where the source loops and updates variables, the model is a
  `method` with loop invariants. Its `ensures` ties the result to a specification function.
  The lemmas about that function state what the source promises.
- **Classes where the source mutates objects.** `VTable` (`add_function` pushes a slot and
  updates the size) and `ClassHierarchy` (`add_class` inserts into its map) are classes.
- **Values elsewhere.** The builders only consume and return `self`, so they are datatypes:
  `RegionFilter`, the scanners and the configurations.
- **The naive matcher is the reference.** Each other matcher's output is compared with it.

The target process is a value: the list of answers its region queries give, and a read
function from `(address, size)` to the bytes actually delivered. Wall-clock time and the
iteration order of hash maps are parameters.

The table scan tries every aligned offset of the buffer, including offsets inside a table it
has already found (`src/vtable.rs:220-233`). With the default one-slot step and no type info, the
tail of a table that has more than the minimum number of slots is therefore found again one slot
later (`VTables.TailIsAlsoCandidate`, `VTables.TailIsAlsoScanned`).

Three defects came out of the proofs; they are listed under Findings. The matcher dispatch
(`Matchers.FindAll`) uses the corrected Boyer-Moore and KMP searches. For patterns without
wildcards the corrected searches give the same results as the code as written
(`Matchers.AsWrittenAgreesWhenExact`).

## Model

| member | source | states |
|---|---|---|
| Common.LittleEndianBound | src/vtable.rs:285-297 | a pointer read from `n` bytes is below 256^n |
| Common.LittleEndianZero | src/vtable.rs:285-297 | a pointer reads as zero exactly when all its bytes are zero |
| Common.HexUpperRoundTrip | src/vtable.rs:62-66 | the `{:X}` text of an address reads back as the address |
| Common.HexUpperInjective | src/vtable.rs:62-66 | different addresses give different `{:X}` texts |
| Common.Hex02 | src/memory.rs:501 | `{:02X}` of a byte is two hex digits that read back as the byte |
| Common.PadLeft | src/memory.rs:514 | right alignment: the result has the field width (or the text's length) and ends with the text |
| Common.PadRight | src/memory.rs:514 | `{:<47}`: the result has the field width (or the text's length) and starts with the text |
| Common.AsciiString | src/analysis.rs:534-537 | printable bytes become characters with the same codes, one per byte |
| Common.Utf8LengthAscii | src/pattern.rs:28-30 | the byte length `str::len` tests equals the character count for ASCII text |
| Patterns.Tokens | src/pattern.rs:21 | `split_whitespace`: every token is non-empty and holds no whitespace |
| Patterns.TokensOfJoin | src/pattern.rs:21 | splitting words joined by single spaces gives the words back |
| Patterns.FromStrRadix16 | src/pattern.rs:30-31 | `u8::from_str_radix(_, 16)`: succeeds exactly on an optional `+` and hex digits whose value fits a byte, and then gives that value |
| Patterns.New | src/pattern.rs:20-44 | the loop over tokens gives the same result as the parse function |
| Patterns.ParseOk | src/pattern.rs:20-44 | a successful parse has one position per token (`?` or `??` a wildcard, any other token the byte it spells), is non-empty, and its mask has `?` exactly at the wildcards and `x` elsewhere |
| Patterns.ParseTokensOk | src/pattern.rs:25-40 | the token list parses exactly when every token does |
| Patterns.ParseTokensFirstError | src/pattern.rs:25-40 | a failing text reports the error of its first bad token |
| Patterns.ParseEmpty | src/pattern.rs:39-41 | `EmptyPattern` is returned exactly when the text holds no token |
| Patterns.ParseBadToken | src/pattern.rs:29-36 | a text whose first bad token is token `k` fails with that token's error |
| Patterns.FormatRoundTrip | src/pattern.rs:20-44 | writing a pattern as text and parsing it gives the same pattern |
| Patterns.ParseExample | src/pattern.rs:446-457 | `48 8B ?? 74 ??` parses to 5 positions with mask `xx?x?` and bytes 48, 8B, wildcard, 74, wildcard |
| Patterns.FromBytesAndMask | src/pattern.rs:47-66 | the loop over the mask gives the same result as the mask-applying function |
| Patterns.MaskedSpec | src/pattern.rs:47-66 | accepted exactly when the mask's byte length equals the buffer's and every mask character is `x`, `X` or `?`; position `k` is then `bytes[k]`, or a wildcard where the mask has `?`, and the mask text is kept; `MaskLengthMismatch` exactly when the lengths differ; with equal lengths, a failure is `InvalidMaskChar` of the first character that is not a mask character |
| Patterns.ApplyMaskOk | src/pattern.rs:54-60 | the mask applies exactly when all its characters are mask characters |
| Patterns.ApplyMaskErr | src/pattern.rs:54-62 | a mask that does not apply fails with `InvalidMaskChar` of its first character that is not `x`, `X` or `?`; every character before it is a mask character |
| Patterns.MaskRoundTrip | src/pattern.rs:47-66 | a parsed pattern's mask applied to a buffer holding its bytes rebuilds the pattern |
| Patterns.MatchesAt | src/pattern.rs:89-102 | the method returns true exactly when the window fits and every exact position equals the data byte |
| Naive.FindAll | src/pattern.rs:123-140 | the candidate loop returns the reference hit list |
| Naive.FindFirst | src/pattern.rs:142-157 | the loop returns the first reference hit |
| Naive.AllMatchesSpec | src/pattern.rs:123-140 | for a non-empty pattern, a hit is reported exactly at each matching offset, with the pattern's length, in increasing order; an empty pattern gives none |
| Naive.FirstMatchSpec | src/pattern.rs:142-157 | `find_first` gives the lowest matching offset, and nothing exactly when no offset matches |
| Naive.FirstMatchIsHead | src/pattern.rs:142-157 | `find_first` is the head of `find_all` |
| BoyerMoore.BuildBadCharTable | src/pattern.rs:165-175 | the table holds exactly the exact bytes of the pattern, each at its rightmost position |
| BoyerMoore.BadCharTableSpec | src/pattern.rs:165-175 | the same facts about the table as a value |
| BoyerMoore.Shift | src/pattern.rs:209-217 | the window moves by `max(1, len - pos - 1)` for a byte in the table, else by the full length |
| BoyerMoore.CompareWindow | src/pattern.rs:191-201 | the right-to-left inner loop ends at 0 exactly when the window matches |
| BoyerMoore.FindAll | src/pattern.rs:179-221 | the window loop returns the as-written hit list |
| BoyerMoore.FindFirst | src/pattern.rs:223-254 | the loop returns the as-written first hit |
| BoyerMoore.AllMatchesSound | src/pattern.rs:179-221 | every hit reported is a real match, in increasing order |
| BoyerMoore.FirstMatchIsHead | src/pattern.rs:223-254 | `find_first` is the head of `find_all` |
| BoyerMoore.AllMatchesExact | src/pattern.rs:179-221 | without wildcards, `find_all` reports exactly the reference hits |
| BoyerMoore.FirstMatchExact | src/pattern.rs:223-254 | without wildcards, `find_first` is the reference first hit |
| BoyerMoore.WildcardMatchSkipped | src/pattern.rs:209-217 | for `?? 41` over `00 42 41`, the match at offset 1 is skipped |
| BoyerMoore.FixedShiftSafe | src/pattern.rs:209-217 | no window passed over by the wildcard-aware shift can match |
| BoyerMoore.FixedAllMatchesIsNaive | src/pattern.rs:179-221 | the corrected search reports exactly the reference hits for every pattern |
| BoyerMoore.FixedFirstMatchIsNaive | src/pattern.rs:223-254 | the corrected `find_first` is the reference first hit for every pattern |
| Kmp.BuildFailureFunction | src/pattern.rs:262-279 | the nested loops fill the array with the failure table |
| Kmp.FailureCorrectForExact | src/pattern.rs:262-279 | without wildcards, entry `i` is the length of the longest proper border of the first `i + 1` positions |
| Kmp.FindAll | src/pattern.rs:298-327 | the scan loop returns the as-written hit list, with offsets `i + 1 - len` |
| Kmp.FindFirst | src/pattern.rs:329-355 | the scan loop returns the as-written first hit |
| Kmp.ResumeCorrect | src/pattern.rs:309-311 | falling back along a correct table stops at the longest prefix that can take the next byte |
| Kmp.NextScanState | src/pattern.rs:308-323 | one step from a correct state reports a hit exactly when a match ends there, and leaves a correct state |
| Kmp.AllMatchesExact | src/pattern.rs:298-327 | without wildcards, `find_all` reports exactly the reference hits |
| Kmp.AllMatchesOrdered | src/pattern.rs:298-327 | for every pattern, the hits are full-length and in increasing order |
| Kmp.FirstMatchIsHead | src/pattern.rs:329-355 | `find_first` is the head of `find_all` |
| Kmp.FirstMatchExact | src/pattern.rs:329-355 | without wildcards, `find_first` is the reference first hit |
| Kmp.WildcardFalseHit | src/pattern.rs:281-294 | for `41 ?? 42` over `00 41 00 42 00 42`, a hit is reported at offset 3, which does not match |
| Kmp.PrologueFalseHit | src/pattern.rs:281-294 | for the prologue signature `48 83 EC ??` over `00 48 83 EC 00 83 EC 00`, the search as written reports offsets 1 and 4, offset 4 does not match, and the corrected search reports offset 1 alone |
| Kmp.CheckedOffset | src/pattern.rs:319 | the offset `i - len + 1`, evaluated left to right in checked `usize` arithmetic, underflows exactly when `i < len`, and is `i + 1 - len` otherwise |
| Kmp.OffsetUnderflowsAtStart | src/pattern.rs:319 | a hit at offset 0 (the buffer of `test_pattern_matching`) is reported at a step where that expression underflows |
| Kmp.CheckedAllMatchesIsNaive | src/pattern.rs:298-327 | the corrected `find_all` reports exactly the reference hits for every pattern |
| Kmp.CheckedFirstMatchIsNaive | src/pattern.rs:329-355 | the corrected `find_first` is the reference first hit for every pattern |
| Matchers.SelectMatcher | src/pattern.rs:362-379 | Boyer-Moore exactly for patterns of 8 or more positions with under 30% wildcards, KMP exactly for the other patterns of 4 or more positions, naive exactly below 4; never the hybrid itself |
| Matchers.FindAllAgrees | src/pattern.rs:383-391 | every matcher the hybrid dispatches to reports the reference hits |
| Matchers.AsWrittenAgreesWhenExact | src/pattern.rs:179-355 | without wildcards, the three algorithms as written agree with each other and with the corrected search |
| Matchers.NewScanner | src/pattern.rs:399-411 | `new` and `default` use the hybrid matcher |
| Matchers.WithMatcher | src/pattern.rs:414-416 | the given matcher is kept |
| Matchers.ScanSpec | src/pattern.rs:419-422 | `scan` fails exactly when the text does not parse, with the parse error; otherwise it reports every match of the parsed pattern once, in order |
| Matchers.ScanFirstIsHead | src/pattern.rs:425-428 | `scan_first` is the first hit of `scan`, and fails exactly when `scan` does |
| Matchers.ScannerExample | src/pattern.rs:460-470 | `48 8B ?? 74` is found at offsets 0 and 6 of the test buffer |
| Matchers.AlgorithmsExample | src/pattern.rs:473-489 | `34 56` is found at offsets 1 and 5 by each of the three algorithms |
| VTables.VTable.constructor | src/vtable.rs:30-37 | a new table has its base address, no slots, size 0 and no type info |
| VTables.VTable.AddFunction | src/vtable.rs:40-45 | appends the slot (address and index) and sets the size to 8 per slot plus 8 for the type-info pointer; base and type info unchanged |
| VTables.VTable.FunctionCount | src/vtable.rs:47-49 | the count is the number of slots |
| VTables.VTable.GetFunction | src/vtable.rs:52-54 | slot `i` when `i` is below the count, nothing otherwise |
| VTables.VTable.ContainsFunction | src/vtable.rs:57-59 | true exactly when some slot holds the address |
| VTables.VTable.EstimatedClassName | src/vtable.rs:62-66 | always `Class_` followed by the base address in upper-case hex |
| VTables.ClassName | src/vtable.rs:62-66 | the name starts with `Class_`, and its digits read back as the base address |
| VTables.ClassNameInjective | src/vtable.rs:62-66 | tables at different addresses get different names |
| VTables.CreationExample | src/vtable.rs:526-534 | two slots added: count 2, `0x2000` present, `0x3000` absent |
| VTables.HasFunctionPrologue | src/vtable.rs:136-162 | true exactly when four bytes at the offset have one of the seven prologue shapes |
| VTables.PrologueIsLocal | src/vtable.rs:136-162 | the result depends only on the four bytes at the offset |
| VTables.PrologueExample | src/vtable.rs:537-545 | a prologue at 0; none at 4 |
| VTables.IsValidFunctionPtr | src/vtable.rs:115-134 | true exactly when the address is non-null, lies at an offset inside the buffer, and a prologue starts there |
| VTables.ReadPointer | src/vtable.rs:285-297 | the 8-byte little-endian value at the offset, or 0 when fewer than 8 bytes remain |
| VTables.ReadPointerNull | src/vtable.rs:285-297 | a slot inside the buffer reads as null exactly when its bytes are zero |
| VTables.IsRttiTypeInfo | src/vtable.rs:164-184 | true exactly when 16 bytes follow the candidate and the pointer stored there is non-null and inside the buffer |
| VTables.NewVTableScanner | src/vtable.rs:85-109 | the default configuration: 2 to 256 functions, alignment 8, type info included, no exclusions |
| VTables.WithConfig | src/vtable.rs:207-212 | the configuration is kept as given |
| VTables.WithConfigExample | src/vtable.rs:548-558 | `min_functions` 3 and `max_functions` 10 are kept |
| VTables.IsAddressExcluded | src/vtable.rs:299-305 | true exactly when some excluded range holds the address, both ends included |
| VTables.AnalyzePotentialVtable | src/vtable.rs:240-283 | the method returns the candidate specified by `Candidate` |
| VTables.CandidateSpec | src/vtable.rs:240-283 | a candidate is based at `base + offset`, has between `min` and `max` slots numbered from 0, each a valid function pointer read from consecutive slots after the optional type info, which is present only when type info is enabled and the pointer passes the RTTI test |
| VTables.FunctionsFromSpec | src/vtable.rs:261-274 | the slot loop collects valid pointers in order and stops at the first invalid one or at the maximum |
| VTables.ScanVTables | src/vtable.rs:215-238 | the scan loop returns the specified scan (requires a positive alignment) |
| VTables.ScanSpec | src/vtable.rs:215-238 | every table found sits at an aligned, non-excluded offset with a whole slot left, is the candidate there, and the bases strictly increase |
| VTables.SweepComplete | src/vtable.rs:220-224 | what is emitted at any offset a whole number of steps on, with a whole slot left, is part of the sweep |
| VTables.ScanComplete | src/vtable.rs:215-238 | conversely, the candidate at every aligned, non-excluded offset with a whole slot left is one of the tables found |
| VTables.TailIsAlsoScanned | src/vtable.rs:215-238 | with the one-slot step and no type info, a found table of at least two slots and more than the minimum is followed in the scan by the table one slot later, whose slots begin with its remaining addresses, unless that address is excluded |
| VTables.ScanEntry | src/vtable.rs:215-238 | entry `k` of the scan is the candidate at its aligned offset |
| VTables.ScanFromMember | src/vtable.rs:215-238 | every table found lies a whole slot inside the buffer and has an admissible slot count |
| VTables.TailIsAlsoCandidate | src/vtable.rs:215-238 | without type info, a table with more than the minimum number of slots is followed one slot later by a candidate that repeats its tail |
| VTables.IsDerivedVTable | src/vtable.rs:353-372 | the slot loop decides the prefix relation on the address lists |
| VTables.DerivedIsAddressPrefix | src/vtable.rs:353-372 | derivation means the base's addresses are a prefix of the derived table's |
| VTables.DerivedReflexive | src/vtable.rs:353-372 | every table extends itself |
| VTables.DerivedTransitive | src/vtable.rs:353-372 | derivation is transitive |
| VTables.DerivedAntisymmetric | src/vtable.rs:353-372 | two tables that extend each other have the same addresses |
| VTables.DerivedExample | src/vtable.rs:353-372 | `[A, B]` is extended by `[A, B, C]` and not by `[A, X, C]` |
| VTables.AnalyzeInheritance | src/vtable.rs:327-351 | the nested loops build the specified map |
| VTables.DerivedOfSpec | src/vtable.rs:333-342 | an address is in a table's derived list exactly when a table at that other address extends it |
| VTables.InheritanceKeys | src/vtable.rs:327-351 | every key is a table's address and has a non-empty list |
| VTables.InheritanceEntries | src/vtable.rs:327-351 | with distinct addresses, every table with derived tables has its derived list as its entry |
| VTables.FindVTablesByPatterns | src/vtable.rs:307-325 | the loop returns the specified pattern hits |
| VTables.VTablePatternParses | src/vtable.rs:309-315 | each of the three built-in pattern texts parses |
| VTables.FindVTablesByPatternsSpec | src/vtable.rs:307-325 | never fails; reports every 16-byte window, then every `55 48 89 E5`, then every `48 83 EC ??`, each group as the reference matcher does |
| VTables.WildcardWindowsEverywhere | src/vtable.rs:311 | the all-wildcard pattern matches at every offset that leaves 16 bytes |
| VTableAnalysis.ClassHierarchy.constructor | src/vtable.rs:456-460 | a new hierarchy is empty |
| VTableAnalysis.ClassHierarchy.AddClass | src/vtable.rs:462-464 | files the class under its table address, replacing any class there, and leaves every other entry alone |
| VTableAnalysis.ClassHierarchy.GetClass | src/vtable.rs:466-468 | the class at the address, or nothing |
| VTableAnalysis.ClassHierarchy.AllClasses | src/vtable.rs:470-472 | exactly the classes filed |
| VTableAnalysis.ClassHierarchy.FindRootClasses | src/vtable.rs:474-479 | exactly the filed classes with no base class |
| VTableAnalysis.ClassHierarchy.FindLeafClasses | src/vtable.rs:481-486 | exactly the filed classes with no derived class |
| VTableAnalysis.ReconstructHierarchy | src/vtable.rs:379-403 | the method builds the specified hierarchy |
| VTableAnalysis.HierarchySpec | src/vtable.rs:379-403 | one class per table address, filed under that address, named `Class_<HEX>`, with no base classes, and with the functions and derived list of the last table there |
| VTableAnalysis.HierarchyDistinct | src/vtable.rs:379-403 | with distinct addresses, table `k`'s class lists exactly the other tables that extend it |
| VTableAnalysis.EveryClassIsRoot | src/vtable.rs:392 | no base class is ever recorded, so every reconstructed class is a root |
| VTableAnalysis.LeafIffNotExtended | src/vtable.rs:481-486 | with distinct addresses, a class is a leaf exactly when no other table extends its table |
| VTableAnalysis.IdenticalTablesDeriveEachOther | src/vtable.rs:353-372 | two tables with the same slots at different addresses each list the other as derived |
| VTableAnalysis.FindSharedFunctions | src/vtable.rs:406-423 | the loops build the specified map |
| VTableAnalysis.SharedFunctionsSpec | src/vtable.rs:406-423 | a function is reported exactly when it fills more than one slot across the tables, listed with each table that holds it, once per slot, in table order |
| VTableAnalysis.OccurrencesSpec | src/vtable.rs:409-416 | a table appears in a function's list exactly when one of its slots holds that function |
| VTableAnalysis.SharedExample | src/vtable.rs:406-423 | one table holding the same function twice is enough to report it |
| VTableAnalysis.EstimateObjectSizesSpec | src/vtable.rs:426-438 | an estimate for each table address: 8 plus 8 per function of the last table there |
| VTableAnalysis.ObjectSizeIsTableSize | src/vtable.rs:426-438 | for a table with functions, the estimate is the table's own recorded size |
| VTableAnalysis.KeyedSpec | src/vtable.rs:426-438 | a map built from the tables has exactly their addresses as keys, with the last table's value at each |
| Memory.ProtectionFrom | src/memory.rs:93-107 | the eight page codes decode to their protections; every other code decodes to no access |
| Memory.ProtectionRoundTrip | src/memory.rs:93-107 | decoding a protection's own code gives it back |
| Memory.GuardedPageIsNoAccess | src/memory.rs:104 | read-write with the guard bit set decodes to no access |
| Memory.StateFrom | src/memory.rs:149-160 | the three state codes decode to their states; every other code decodes to free |
| Memory.StateRoundTrip | src/memory.rs:149-160 | decoding a state's own code gives it back |
| Memory.ProtectionText | src/memory.rs:125-141 | three columns: read, write (`W`, or `C` for copy-on-write) and execute |
| Memory.ProtectionTextInjective | src/memory.rs:125-141 | different protections display differently |
| Memory.ProtectionTextColumns | src/memory.rs:35-67 | the displayed letters agree with `is_readable`, `is_writable` and `is_executable` |
| Memory.WritableIsReadable | src/memory.rs:35-67 | every writable region is readable |
| Memory.EndAddress | src/memory.rs:70-77 | the end lies exactly `size` bytes past the base |
| Memory.RegionExample | src/memory.rs:668-683 | the read-write region `0x1000`/`0x1000` is readable and writable, not executable, contains `0x1500` and not `0x2000`, and ends at `0x2000` |
| Memory.ProtectionExample | src/memory.rs:661-665 | `PAGE_EXECUTE_READ` decodes to execute-read and displays as `R-X` |
| Memory.ForProcess | src/memory.rs:238-250 | the invalid and null handles are refused with `ProcessAccessFailed`; any other handle gives a scanner with the default configuration |
| Memory.WithConfig | src/memory.rs:258-261 | the configuration is replaced and the process kept |
| Memory.EnumerateRegions | src/memory.rs:264-308 | the loop keeps the committed query answers in order |
| Memory.CommittedSpec | src/memory.rs:293-301 | a region is listed exactly for each committed answer, as a committed private region with the decoded protection |
| Memory.ReadMemory | src/memory.rs:310-333 | succeeds exactly when the read delivers exactly `size` bytes, and returns them; fails otherwise with `ReadFailed` at that address |
| Memory.DefaultScanRule | src/memory.rs:446-457 | with the defaults, a region is scanned exactly when it is committed, at least 4 KiB, and readable or executable |
| Memory.ShouldScanMonotone | src/memory.rs:446-457 | enabling more permission checks or lowering the size floor only adds regions |
| Memory.FindByteSequences | src/memory.rs:459-474 | the loop returns the specified offsets |
| Memory.ByteHitsSpec | src/memory.rs:459-474 | exactly the offsets where the needle occurs, in increasing order; nothing for an empty needle |
| Memory.OccursAtIsExactMatch | src/memory.rs:467 | slice equality agrees with matching a signature without wildcards |
| Memory.ScanPattern | src/memory.rs:359-383 | the loops return the specified results |
| Memory.PatternResultsSound | src/memory.rs:364-379 | every result lies in a scanned, readable region and is a match of the pattern there, with the matched bytes |
| Memory.PatternResultsComplete | src/memory.rs:364-379 | every match in every scanned, readable region is reported |
| Memory.ScanPatternErrors | src/memory.rs:359-361 | a parse error is returned as a pattern error |
| Memory.ScanBytes | src/memory.rs:400-422 | the loops return the specified results |
| Memory.BytesResultsSound | src/memory.rs:404-418 | every result is an occurrence of the needle in a scanned, readable region |
| Memory.BytesResultsComplete | src/memory.rs:404-418 | every occurrence of a non-empty needle in every scanned, readable region is reported |
| Memory.ScanVTables | src/memory.rs:385-398 | the loop returns each scanned region's tables in region order |
| Memory.TablesInSpec | src/memory.rs:389-394 | every table found lies in a scanned, readable region |
| Memory.TablesInComplete | src/memory.rs:389-394 | conversely, in a scanned region whose read succeeds, the candidate at every eight-byte-aligned offset with a whole slot left is among the tables found |
| Memory.ComprehensiveScan | src/memory.rs:424-444 | each pattern's results in turn (the first parse error is returned), then the tables and the regions |
| Memory.Statistics | src/memory.rs:539-569 | the region, hit and table totals are the list lengths, and each permission count is at most the number of regions |
| Memory.WritableAtMostReadable | src/memory.rs:539-569 | there are never more writable regions than readable ones |
| Memory.ComprehensiveStatistics | src/memory.rs:539-569 | in a comprehensive scan the regions are the committed ones, and there are at least twice as many functions as tables |
| Memory.AsciiColumn | src/memory.rs:504-513 | graphic bytes are shown as themselves, anything else as `.` |
| Memory.ChunksSpec | src/memory.rs:494-497 | `ceil(n/16)` chunks, chunk `i` covering bytes `16i` up to the next multiple of 16 or the end |
| Memory.HexdumpLinesSpec | src/memory.rs:494-521 | one line per chunk, line `i` showing chunk `i` at address `address + 16i` |
| Memory.HexBytesSpec | src/memory.rs:499-503 | the codes of a chunk take `3n - 1` characters, and the two at `3k` read back as byte `k` |
| Memory.HexdumpLineSpec | src/memory.rs:514 | a line reads back as what it shows: its leading field of `h >= 8` hex digits is the address, the two characters at `h + 2 + 3k` are the `{:02X}` code of byte `k` of the chunk, the ASCII column starts at `h + 51`, and the line ends with `|` |
| Memory.Hex08Spec | src/memory.rs:514 | `{:08X}` has at least eight hex digits and reads back as the address |
| Memory.NewFilter | src/memory.rs:600-605 | a new filter has no criteria |
| Memory.AddCriterion | src/memory.rs:608-637 | each builder appends its one criterion |
| Memory.AddCriterionSpec | src/memory.rs:640-642 | a filter with one more criterion accepts exactly what the old filter and that criterion both accept; the empty filter accepts everything |
| Memory.FilterRegions | src/memory.rs:645-647 | exactly the matching regions, in their order |
| Memory.FilterRegionsAppend | src/memory.rs:645-647 | filtering commutes with concatenation |
| Memory.FilterExample | src/memory.rs:686-700 | `executable().readable().min_size(0x800)` accepts an `R-X` region of 0x1000 bytes; `writable()` rejects it |
| Analysis.NewPatternDatabase | src/analysis.rs:608-626 | three prologue texts and three epilogue texts |
| Analysis.CommonPatterns | src/analysis.rs:628-633 | a text is listed exactly when some kind holds it, kinds in the map's iteration order |
| Analysis.CommonPatternsExample | src/analysis.rs:688-695 | whichever kind comes first, the list is non-empty and the first prologue is recognised |
| Analysis.NewEngine | src/analysis.rs:228-236 | the default configuration (threshold 0.7, analysis depth 5, no low-confidence results, no priority patterns, cross-references on), the given memory scanner, the default table scanner and a new pattern database |
| Analysis.EngineWithConfig | src/analysis.rs:238-246 | the configuration is kept as given |
| Analysis.DetectCallingConvention | src/analysis.rs:479-490 | cdecl exactly for `55 48 89 E5`, fastcall exactly for `48 89 4C 24`, unknown otherwise (including inputs under four bytes) |
| Analysis.CallingConventionExample | src/analysis.rs:666-674 | the two test prologues are cdecl and fastcall |
| Analysis.SizeEstimate | src/analysis.rs:492-500 | one more than the index of the first epilogue window, and nothing exactly when no window is an epilogue |
| Analysis.EstimateFunctionSize | src/analysis.rs:492-500 | the sliding-window loop returns that estimate |
| Analysis.FunctionParameters | src/analysis.rs:502-519 | one RCX parameter exactly when at least 8 bytes start with `48 89 4C 24`, none otherwise |
| Analysis.ParametersImplyFastcall | src/analysis.rs:479-519 | a found parameter means the bytes are also detected as fastcall |
| Analysis.StringDataExtremes | src/analysis.rs:559-566 | four or more bytes that are all printable are string data; bytes none of which is printable never are |
| Analysis.Classify | src/analysis.rs:456-477 | a function entry exactly at a prologue; else a data pointer for a little-endian value in `(0x1000, 0x7FFFFFFFFFFF)`; else string data when more than 70% of the first 32 bytes are printable; else unknown |
| Analysis.AnalyzeFunction | src/analysis.rs:310-341 | the step-by-step updates give the specified function |
| Analysis.FunctionAtSpec | src/analysis.rs:310-341 | fails exactly when the 512-byte read fails; otherwise the function is at the address, its size is the first-epilogue estimate of the bytes read, its parameters are the RCX-spill analysis of them and its calling convention their detected one; there is a size exactly when an epilogue window exists, a parameter exactly when eight or more bytes start with `48 89 4C 24`, a parameter implies fastcall, and confidence is 0.5, plus 0.2 for a size and 0.1 for a parameter |
| Analysis.AsVirtual | src/analysis.rs:362-365 | a function found through a table is thiscall and 0.1 more confident |
| Analysis.AnalyzeFunctions | src/analysis.rs:349-371 | the loops return the specified list |
| Analysis.PatternFoundSpec | src/analysis.rs:352-357 | a pattern hit's function is listed exactly when its read succeeds |
| Analysis.SlotFoundSpec | src/analysis.rs:359-368 | a slot's function is listed exactly when its read succeeds, as thiscall with confidence 0.6 to 0.9 |
| Analysis.TableFoundSpec | src/analysis.rs:359-368 | the tables give at most one function per slot, each one thiscall |
| Analysis.DefaultHighConfidence | src/analysis.rs:273-277 | under the 0.7 threshold, a pattern-hit function is highly confident exactly when it has a size, and a table function exactly when it has a size or a parameter |
| Analysis.StructureOf | src/analysis.rs:376-397 | named `Class_` and the table address in hex, 8 bytes, one vtable-pointer field at offset 0, vtable offset 0, no base classes, confidence 0.6 |
| Analysis.AnalyzeStructures | src/analysis.rs:373-400 | the loop returns one structure per table, in order |
| Analysis.StructuresOfSpec | src/analysis.rs:373-400 | structure `k` is table `k`'s |
| Analysis.StructureNamesDistinct | src/analysis.rs:378-380 | tables at different addresses give structures with different names |
| Analysis.DecimalTextRoundTrip | src/analysis.rs:448 | the count written in a description reads back as the count |
| Analysis.TablePatternSpec | src/analysis.rs:444-451 | a table's pattern lists its slot addresses in order, and its description names the slot count |
| Analysis.TablePatternsSpec | src/analysis.rs:444-451 | pattern `k` is table `k`'s |
| Analysis.ProloguesSpec | src/analysis.rs:432-441 | a hit gives a prologue pattern exactly when its bytes start with a prologue |
| Analysis.DetectCodePatterns | src/analysis.rs:428-454 | the loops return the prologue patterns and then one pattern per table |
| Analysis.CodePatternCount | src/analysis.rs:428-454 | there are at least as many patterns as tables |
| Analysis.ExtractStrings | src/analysis.rs:521-548 | the byte loop returns the specified strings |
| Analysis.StringsFromSpec | src/analysis.rs:521-548 | the strings reported are exactly the maximal printable runs of at least four bytes that a non-printable byte closes, each at `base` plus its start |
| Analysis.StringsExample | src/analysis.rs:677-685 | "Hello World" and "Some other text" are the two strings found |
| Analysis.FindStringReferences | src/analysis.rs:402-416 | the loop returns the strings of each readable region, skipping regions whose read fails |
| Analysis.RegionStringsSpec | src/analysis.rs:405-412 | a string found comes from a readable region whose read succeeds, is at least four ASCII characters long, lies inside the region, is the text of a maximal run of printable bytes read there, and is followed inside the region by a non-printable byte |
| Analysis.StringsInSpec | src/analysis.rs:402-416 | every string found lies in a readable region of the scan |
| Analysis.AnalyzeSingleAddress | src/analysis.rs:456-477 | the method returns the specified analysis |
| Analysis.AddressAtSpec | src/analysis.rs:456-477 | fails exactly when the 64-byte read fails; otherwise keeps the first 32 bytes and classifies the bytes read |
| Analysis.AnalyzeAddresses | src/analysis.rs:298-307 | the loop returns the specified list |
| Analysis.AddressesAtSpec | src/analysis.rs:298-307 | fails exactly when some read fails, and then with the error of the first address whose analysis fails, every earlier one succeeding; otherwise one analysis per address, in order |
| Analysis.Analyze | src/analysis.rs:248-295 | the method returns the specified result: the scan, then the functions, structures, classes, strings and code patterns, and the statistics over them |
| Analysis.AnalyzeSpecStatistics | src/analysis.rs:273-283 | fails exactly when the comprehensive scan fails; otherwise the totals are the list lengths, no more highly confident functions than functions, no more functions than hits plus table slots, one structure per table, at least as many code patterns as tables, the given elapsed time, empty import and export tables, and a class for every table address |

## Left out

- Operating-system calls are not modelled: `OpenProcess`, `GetCurrentProcess`, `VirtualQueryEx`
  and `ReadProcessMemory`. The target is a value: its list of region-query answers and a read
  function. `MemoryScanner::new`, `for_process_id` and `Default` are therefore absent, and
  `for_process` takes the handle as a number.
- `enumerate_regions` walks addresses with `VirtualQueryEx`. The model takes the list of
  answers that walk produces, so a query failure cannot occur there.
- The memory of the target is taken to stay the same during one scan; concurrent changes by the
  target are not modelled.
- `write_memory` is not modelled. It is a single foreign call with no logic beyond the length
  check, and nothing in the core calls it.
- `HashMap` iteration order is not modelled. Where it shows in a result, it is a parameter: the
  kind order of `get_common_patterns`, and the order of `get_all_classes`, `find_root_classes`
  and `find_leaf_classes`, which the model returns as sets.
- Wall-clock time in `analyze` is the `elapsed` parameter.
- Confidences (`f32`) are integer tenths: 0.5 is 5 and the 0.7 threshold is 7. The additions in
  the source (0.5 + 0.2, 0.5 + 0.1 + 0.1, + 0.1) reach the threshold in `f32` exactly as they do
  in tenths.
- The `is_string_data` ratio test is written `10 * count > 7 * n`, which has the same outcome as
  the `f32` division.
- The selector's 30% test is written the same way with integers.
- `usize` overflow in address arithmetic is not modelled: addresses are unbounded naturals. The
  one subtraction that can underflow is a finding.
- Error messages are kept as error values rather than formatted text: `to_string()` of a memory
  error inside `AnalysisError`, and the `#[error]` strings.
- `MemoryError::PatternError` is named `PatternFailed`, so that it does not clash with the
  `PatternError` datatype it wraps.
- The `Display` impls of `VTable`, `ClassHierarchy` (including `print_class_tree`),
  `ScanStatistics` and `AnalysisStatistics` are not modelled. Neither is
  `describe_address_content`, so `AddressAnalysis` has no description field. These are
  human-readable text with no logic.
- `Memory.ScanVTables` returns the tables as values, not as shared objects. `analyze` records
  the reconstructed hierarchy as the map a `ClassHierarchy` holds.
- `analyze_imports` and `analyze_exports` return empty lists in the source. The model's result
  carries empty import and export lists.
- The `analyze_*` helpers that always return `Ok` are plain values.
- `Matchers.FindAllAgrees`, `Matchers.ScanSpec`, `VTables.FindVTablesByPatternsSpec`,
  `Memory.PatternResultsSound`, `Memory.PatternResultsComplete`, `Memory.ComprehensiveScan` and
  `Analysis.Analyze` state the corrected matcher dispatch (see Findings), not the code as
  written. The two differ only for patterns of four or more positions with a wildcard, where KMP
  or Boyer-Moore is chosen, and at the offset-0 underflow of KMP. One signature the source itself
  uses shows it: `48 83 EC ??` (`src/analysis.rs:614`, `src/vtable.rs:314`) over
  `00 48 83 EC 00 83 EC 00` gives offsets 1 and 4 as written but offset 1 alone in the model
  (`Kmp.PrologueFalseHit`). The 16-wildcard signature of `find_vtables_by_patterns` also
  underflows at `i = 15` on every buffer of 16 or more bytes.
- `VTables.ScanVTables`: `step_by` panics on a zero alignment, so the method requires a
  positive alignment.
- `VTables.VTable.EstimatedClassName`: the method always returns a name. `analyze_structures`
  therefore never uses its `Struct_` fallback, and `reconstruct_hierarchy` never uses its
  `UnknownClass_` fallback. The model does not model either fallback.
- `src/lib.rs`, `src/main.rs` and the rest of the repository are not part of this model.

## Findings

| source | as written | input that shows it | evidently intended | confidence | as-written member | corrected member |
|---|---|---|---|---|---|---|
| src/pattern.rs:209-217 | Boyer-Moore shifts by the bad-character table, which ignores wildcards, so the window can jump past a match | `?? 41` over `00 42 41`: 0x42 is not in the table, so the window moves by 2 and the match at offset 1 is never tried | every match is reported, as the naive matcher does | not executed | BoyerMoore.WildcardMatchSkipped | BoyerMoore.FixedAllMatchesIsNaive |
| src/pattern.rs:262-294 | the KMP failure table treats a wildcard as equal to every byte, so its links are not borders, and a hit is reported after a fall-back that skipped a real comparison | `41 ?? 42` over `00 41 00 42 00 42`: hits at offsets 1 and 3, but offset 3 holds `42 00 42` | only real matches are reported | not executed | Kmp.WildcardFalseHit | Kmp.CheckedAllMatchesIsNaive |
| src/pattern.rs:319 | the offset is computed as `i - pattern.len() + 1`; the subtraction comes first and underflows `usize` when the hit starts at offset 0, which panics in a debug build | `48 8B ?? 74` over the 11-byte buffer of `test_pattern_matching`, once KMP is used: the hit at 0 is found at `i = 3`, where `3 - 4` is negative | `i + 1 - pattern.len()` | not executed | Kmp.OffsetUnderflowsAtStart | Kmp.AllMatchesExact |
