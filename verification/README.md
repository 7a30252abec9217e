# cpu_features: a verified model

A Dafny model of the parts of the cpu_features library that carry its logic, with proofs.

- **Text pipeline.** `Text` and `Numerals` say what first occurrence, split, trim and numeral value
  mean. `StringView` models the views of `src/string_view.c`, `LineReader` the buffered line reader
  over files that may return short reads, and `ReaderRuns` whole runs of it. `Mips` and `Riscv` are
  the clients; `Mips.GetMipsInfo` is the end-to-end statement about `/proc/cpuinfo`.
- **CPU lists and initialisation.** `CpuList` parses the kernel's CPU lists into a mask and a count;
  `Ndk` is the once-only set/get protocol over every run of calls.
- **Tree dumper.** `TreeMemory` says what it means that linked nodes hold a tree, `TreeDumper` is the
  bump allocator, the constructors and the printer, `Json` the text and a reader for it, `CacheDump`
  the cache section, and `X86Dump` the whole x86 tree from CPUID to JSON.
- **Bit fields.** `Bits`, `Arm`, `X86` and `X86Cache` cover field extraction, the ARM identifier and
  its quirks, vendor names and cache descriptions.

How the model reads the C code:

- A string view is a `string` value and the NULL view is the empty one. `char` stands for a byte.
- `LineReader.File` is a NUL-free byte sequence. A greedy file hands out all it can per read; any other
  hands out any number of bytes, at least one while some are left. Read errors do not occur.
- `STACK_LINE_READER_BUFFER_SIZE` is the reader's `capacity`, any positive number. The size of a tree
  node and the address and size of the dumper's buffer are parameters as well.
- C ints are unbounded where the code gives overflow no meaning; the number parser reports by a flag
  that an int left its range. Where wrap-around reaches a result (`X86Cache.Wrap32`), it is two's
  complement.
- CPUID, the table of leaf-2 descriptors, the hardware capabilities and the result of probing are
  parameters. Bit-fields of features are booleans.
- The tree dumper's memory maps block addresses to nodes and texts. `internal_error`, which exits the
  program, is the answer `ok == false`.
- The JSON reader covers objects, arrays, strings and integers without white space, which is all the
  printer emits; a number with a fraction or exponent, a literal name or white space is refused, and so
  is a `\u` escape of a surrogate.

Properties that fail for some inputs, with the exact condition:

- A string or key with control characters does not survive the dump, because the printer escapes the
  raw character, and a key with a quote or backslash does not, because keys are not escaped
  (`Json.PrintReadsBackIffClean`).
- The RISC-V scan reads a line with long extension names as its base and single letters say if and
  only if the long names hold neither the other base nor a letter that the single letters lack
  (`Riscv.LongNamesHarmlessIff`). In `rv64imc_zfinx` the f of `zfinx` is taken for F, and C is lost
  (`Riscv.LetterLost`).
- The RISC-V driver never stops on a file if and only if the last line is a `uarch` line without a
  comma and is reported together with the end of the file (`Riscv.DriverStopsIff`, and
  `Riscv.HangingFile` for the file `a`, newline, `uarch: x`). The same line alone in its file does not
  hang it, nor does a file that ends with a newline.
- A cache size of 2 GiB or more wraps (`X86Cache.SizeIsProductIff`, `X86Cache.LegacySizeIff`).
- The header promises that only a line longer than the buffer lacks the full mark. Under greedy reads
  every line that a newline ends lacks it if and only if it has at least as many bytes as the buffer,
  but a last line without a newline lacks it if and only if it is not wholly buffered when the reader
  comes to it (`ReaderRuns.LastLineMark`, which computes what is buffered from the file and the buffer
  size alone). In a file that fits the buffer that happens exactly when it is one non-empty line
  without a newline (`ReaderRuns.SmallFile`); the last line of `a`, `b`, `c` on three lines is full.

## Model

| member | source | states |
|---|---|---|
| `StringView.IndexOfChar` | src/string_view.c:23-38 | least index of a character, or -1; nothing behind a NUL is seen |
| `StringView.IndexOf` | src/string_view.c:40-56 | least index at which the non-empty sub-view occurs, despite the first-character skipping; -1 exactly when it occurs nowhere or a NUL comes first |
| `StringView.FoundIff` | src/string_view.c:40-56 | IndexOf finds a sub-view exactly when it is not empty and some occurrence has no NUL up to its start; the index is then that of the first occurrence |
| `StringView.TrimWhitespace` | src/string_view.c:103-109 | the two loops compute Trim |
| `Text.TrimPadded` | src/string_view.c:103-109 | trimming is the inverse of padding: it strips exactly the C-locale white space around a trimmed text |
| `Text.SpaceIs` | src/string_view.c:104-107 | white space is exactly space, tab, newline, vertical tab, form feed and carriage return |
| `Text.SplitJoin` | src/string_view.c:155-184 | the reference split used for lines, words and lists loses nothing and its pieces hold no separator |
| `Text.JoinSplit` | src/string_view.c:155-184 | splitting joined separator-free pieces gives the pieces back |
| `Text.TokenIffPiece` | src/string_view.c:155-184 | a word delimited by separators or line ends is the same as a piece of the split line |
| `StringView.HasWord` | src/string_view.c:155-184 | true exactly when the non-empty word is a piece of the line, for every word without the separator; for any other word, true still means a delimited occurrence; exact also on lines with NULs |
| `StringView.Match` | src/string_view.c:161-178 | one step of the scan: the next occurrence, checked against its real neighbours in the line |
| `StringView.JumpIsSafe` | src/string_view.c:179-180 | skipping a whole failed match skips no token, because a separator would have to lie in the word |
| `StringView.GetAttributeKeyValue` | src/string_view.c:186-197 | splits at the first ": " and trims both sides, or reports no attribute |
| `StringView.KeyValueRoundTrip` | src/string_view.c:186-197 | a padded key and value come back exactly when the padded key does not hold ": "; the value may |
| `StringView.FirstSeparator` | src/string_view.c:186-197 | key and value are the trimmed texts around the first colon that a blank follows |
| `StringView.NoAttributeIff` | src/string_view.c:188-190 | a line has no attribute exactly when every colon that a blank follows is behind a NUL |
| `StringView.TabbedLine` | src/string_view.c:186-197 | the tabs with which the kernel pads keys are no part of the key |
| `StringView.TabsAreTrimmed` | test/cpuinfo_riscv_test.cc:81 | a real isa line with two tabs |
| `StringView.ParsePositiveNumberWithBase` | src/string_view.c:119-129 | the positional value, or -1 at a non-digit; the flag is set exactly when some prefix of digits leaves the range of an int |
| `StringView.ParsePositiveNumber` | src/string_view.c:131-142 | -1 exactly for an empty text or a non-digit behind the optional 0x; no intermediate overflow when the value is below 2^31 |
| `Numerals.DecimalRoundTrip` | src/string_view.c:131-142 | every number is parsed back from its decimal text |
| `Numerals.HexRoundTrip` | src/string_view.c:111-142 | every number is parsed back from 0x and its hexadecimal text in any mix of letter cases |
| `Numerals.DigitIs` | src/string_view.c:111-117 | the value of each of the 16 digits, letters in either case, and of no other character |
| `Numerals.ParseFailsIff` | src/string_view.c:119-142 | refused are exactly the empty text and texts with a character that is not a digit of their base; 0x alone reads as zero |
| `Numerals.LeadingZero` | src/string_view.c:119-129 | leading zeros do not change the value |
| `Numerals.PrefixValue` | src/string_view.c:119-129 | no prefix of a numeral is worth more than the whole, so a result in range never overflowed on the way |
| `StringView.CopyString` | src/string_view.c:144-153 | the destination holds what fits of the source, a terminator and its old rest |
| `StringView.CopyReadsBack` | src/string_view.c:144-153 | reading the copy up to its terminator gives the source cut to the space available |
| `LineReader.File.Read` | src/filesystem.c:53-61 | hands out the next bytes of the file in order, at least one while some are left, all that fit if greedy |
| `LineReader.StackLineReader.constructor` | src/stack_line_reader.c:23-28 | starts with an empty view outside skip mode |
| `LineReader.StackLineReader.LoadFullBuffer` | src/stack_line_reader.c:31-38 | the view becomes the next chunk of the file; empty exactly at its end |
| `LineReader.StackLineReader.LoadMore` | src/stack_line_reader.c:41-49 | appends the next bytes behind the view; a greedy file fills the buffer or is used up |
| `LineReader.StackLineReader.BringToFrontAndLoadMore` | src/stack_line_reader.c:57-63 | moving and refilling loses and duplicates nothing: view and unread text concatenate to the same text |
| `LineReader.StackLineReader.SkipToNextLine` | src/stack_line_reader.c:67-81 | terminates and leaves exactly what follows the next newline of the file |
| `LineReader.StackLineReader.NextLine` | src/stack_line_reader.c:104-132 | keeps the buffer invariant (outside skip mode the view is in the buffer and smaller than it) and makes one Step: whole line, truncated line with its tail dropped, or end of file; under greedy reads also exactly how many bytes are buffered afterwards |
| `LineReader.GreedyIsDeterminate` | src/stack_line_reader.c:104-132 | under greedy reads Step leaves no choice: state and buffer size decide the result and the next state |
| `LineReader.BehindTailIs` | src/stack_line_reader.c:67-81 | in closed form, how much is buffered once the tail of a truncated line is skipped |
| `ReaderRuns.StaysInStep` | src/stack_line_reader.c:104-132 | under arbitrary short reads result i is a prefix of line i, equal to it when marked full; nothing is lost, merged or delivered twice; the only further result is the empty end of file behind a truncated last line; under greedy reads the cut is exact, and so is the full mark of every line but the last |
| `ReaderRuns.LastCall` | src/stack_line_reader.c:108-123 | outside skip mode a last line without a newline is marked full exactly when it was wholly buffered before the call, whatever the reads |
| `ReaderRuns.LastLineMark` | src/stack_line_reader.c:104-132 | under greedy reads the last line is marked full, and the end of the file reported with it, if and only if the number of its bytes that file and buffer size make buffered is its length |
| `ReaderRuns.EndOfFile` | src/stack_line_reader.c:104-132 | from which call on a greedy reader reports the end of a file, and with which line, in runs of any length |
| `ReaderRuns.AllFullIff` | include/internal/stack_line_reader.h:37-42 | no result of a greedy run lacks the full mark if and only if every line that a newline ends is shorter than the buffer and the last line is wholly buffered when its turn comes |
| `ReaderRuns.SmallFile` | test/stack_line_reader_test.cc:43-67 | for a file that fits the buffer: no result lacks the full mark if and only if the file is empty or has a newline anywhere |
| `ReaderRuns.RefinesSplit` | src/stack_line_reader.c:104-132 | under greedy reads the lines delivered are the newline-split of the file, each cut to the buffer, and at most one further empty line |
| `ReaderRuns.UnterminatedFile` | src/stack_line_reader.c:113-123 | a greedily read file of one line without a newline, however short: the line as truncated, and then the end of the file |
| `ReaderRuns.NothingTruncated` | src/stack_line_reader.c:104-132 | if no result lacks the full mark, the lines are exactly those of the file |
| `ReaderRuns.EofRepeats` | src/stack_line_reader.c:113-116 | after an end-of-file result every further call gives the same result |
| `ReaderRuns.CallCount` | src/impl_mips_linux_or_android.c:60-71 | a driver that stops at the end of the file makes at most newlines + 2 calls |
| `ReaderRuns.Progress` | src/stack_line_reader.c:104-132 | every result that is not the end of the file leaves less to deliver |
| `Bits.ExtractedBit` | include/internal/bit_utils.h:30-36 | bit i of an extracted field is bit lsb+i of the register, and there is nothing above the field; also for all 32 bits |
| `Bits.IsSetIff` | src/hwcaps.c:20-23 | a mask is set exactly when it has a bit and every bit of it is in the value |
| `Bits.IsHwCapsSetIff` | src/hwcaps.c:25-29 | one capability word whose mask is not empty and wholly in the value is enough |
| `Mips.SetFlags` | src/impl_mips_linux_or_android.c:51-54 | every flag is set exactly when it is a space-separated piece of the value |
| `Mips.HandleMipsLine` | src/impl_mips_linux_or_android.c:45-58 | a line with the key "ASEs implemented" decides all features, any other line none; asks for more until the end of the file |
| `Mips.LastLineDecides` | src/impl_mips_linux_or_android.c:60-72 | folding the handler over all lines leaves what the last matching line says |
| `Mips.AsesLine` | src/impl_mips_linux_or_android.c:48-54 | a line "ASEs implemented" with any words: which word sets which of the eight features |
| `Mips.OtherLine` | src/impl_mips_linux_or_android.c:48-57 | a line with any other key, or none, changes nothing |
| `Mips.CapabilityBits` | include/internal/hwcaps.h:159-166 | which bit of the first capability word sets which feature |
| `Mips.HandleAllLines` | src/impl_mips_linux_or_android.c:65-69 | the loop terminates, its results are a complete reader run, and the features are the fold over them |
| `Mips.FillProcCpuInfoData` | src/impl_mips_linux_or_android.c:60-72 | reads the whole of an openable file; leaves the features alone otherwise |
| `Mips.GetMipsInfo` | src/impl_mips_linux_or_android.c:76-90 | end to end: a feature is reported exactly when its flag is a word of the value of the last line, cut to the buffer, with that key, or a non-empty mask of it is wholly in its capability word; also over the delivered lines under short reads, and for a missing file |
| `CpuList.CpuMask.SetBit` | ndk_compat/cpu-features.c:29-35 | adds exactly this CPU to the mask, and nothing from 32 on |
| `CpuList.AddCpu` | ndk_compat/cpu-features.c:29-35 | setting a bit adds one element to the set the mask stands for |
| `CpuList.CpuMask.ParseCpuMask` | ndk_compat/cpu-features.c:38-57 | adds the CPUs of one entry, none when it is malformed; no int overflows when the numbers fit |
| `CpuList.CpuMask.SetRange` | ndk_compat/cpu-features.c:51-55 | the loop over a range adds its CPUs below 32 |
| `CpuList.CpuMask.ParseCpuMaskLine` | ndk_compat/cpu-features.c:62-75 | a whole line adds the union over its comma-split entries; a truncated or end-of-file result adds nothing |
| `CpuList.ListRoundTrip` | ndk_compat/cpu-features.c:59-75 | a printed list of numbers and ranges parses to exactly the CPUs below 32 that some entry covers, without overflow for numbers below INT_MAX |
| `CpuList.ZeroToThree` | ndk_compat/cpu-features.c:48-55 | a range stands for both its ends and all between |
| `CpuList.MalformedRange` | ndk_compat/cpu-features.c:48-50 | a range without one of its ends, or with a second dash, adds nothing |
| `CpuList.MalformedNumber` | ndk_compat/cpu-features.c:40-46 | a number with a character that is not a digit, or from 32 on, adds nothing |
| `CpuList.UpdateCpuMaskFromFile` | ndk_compat/cpu-features.c:77-86 | a file adds its first line's CPUs if a newline ends it within the buffer; short reads turn that into nothing, never into a part; no int overflows when the numbers of the first line fit |
| `CpuList.PrintedFile` | ndk_compat/cpu-features.c:77-86 | a file whose first line is a printed list contributes exactly the CPUs that list covers |
| `CpuList.NoFirstLine` | ndk_compat/cpu-features.c:62-86 | a file whose first line no newline ends, or does not fit the buffer, contributes nothing |
| `CpuList.GetCpuCount` | ndk_compat/cpu-features.c:88-93 | the size of the union over both files, at most 32; under short reads each file gives all or nothing of its first line, and the count is that of the union of what they gave; no int overflows when the numbers fit |
| `Ndk.Library.SetCpu` | ndk_compat/cpu-features.c:187-194 | fails once initialised; otherwise forces the description and closes the initialisation |
| `Ndk.Library.SetCpuArm` | ndk_compat/cpu-features.c:203-207 | sets the id only when the set succeeds |
| `Ndk.Library.GetCpuFeatures` | ndk_compat/cpu-features.c:175-178 | initialises at most once and answers from the globals |
| `Ndk.Library.GetCpuCount` | ndk_compat/cpu-features.c:180-183 | initialises at most once and answers from the globals |
| `Ndk.Library.GetCpuIdArm` | ndk_compat/cpu-features.c:198-201 | initialises at most once and answers from the globals |
| `Ndk.Library.CpuInit` | ndk_compat/cpu-features.c:95-155 | initialises with max(1, n), n the number of CPUs below 32 that either CPU-list file lists, and the probed features and id |
| `Ndk.SetSucceedsIffFirst` | ndk_compat/cpu-features.c:187-207 | in every run a set succeeds exactly when it is the first call: at most once, never after a get |
| `Ndk.GettersAreStable` | ndk_compat/cpu-features.c:175-201 | a getter never changes its answer within a run |
| `Ndk.GettersAnswer` | ndk_compat/cpu-features.c:175-207 | all getters of a run answer from the one description its first call fixed |
| `Ndk.ProbedValuesAnswer` | ndk_compat/cpu-features.c:95-201 | when a getter comes first, the getters return the probed features and id, and max(1, count) |
| `Ndk.ForcedValuesStick` | ndk_compat/cpu-features.c:187-207 | after a successful set the getters return the set features, max(1, count) and the set id, or 0 if none was set |
| `Riscv.HandleRiscVIsaLine` | src/impl_riscv_linux.c:61-70 | the loop computes the ordered greedy scan |
| `Riscv.IsaFeatures` | src/impl_riscv_linux.c:22-28 | for rv32i or rv64i and any in-order selection of m, a, f, d, q, c, v with filler of any length that holds no flag start, the features are exactly the base and the letters present |
| `Riscv.SingleLetters` | src/impl_riscv_linux.c:61-70 | by name: rv32i or rv64i and any selection of m, a, f, d, q, c, v sets exactly those flags |
| `Riscv.LongFlags` | src/impl_riscv_linux.c:61-70 | by name: Zicsr is reported where _zicsr occurs, Zifencei where _zifencei occurs behind it, or anywhere without it |
| `Riscv.LongNamesHarmlessIff` | src/impl_riscv_linux.c:61-70 | the whole line, with any long names behind the single letters: base and letters are reported as given if and only if the long names hold neither the other base nor an absent letter; and then the long names alone decide the long flags |
| `Riscv.LetterLost` | src/impl_riscv_linux.c:61-70 | all eleven flags of rv64imc_zfinx: F is reported and C is not |
| `Riscv.HandleRiscVLine` | src/impl_riscv_linux.c:72-90 | which of the features, vendor and microarchitecture a line changes and to what; goes on past the end of the file on a uarch line without a comma |
| `Riscv.LastIsaDecides` | src/impl_riscv_linux.c:75-77 | folding the handler over all lines leaves the flags of the last isa line |
| `Riscv.NoIsaLine` | src/impl_riscv_linux.c:72-90 | without an isa line the fold leaves the features as they were |
| `Riscv.LastVendorDecides` | src/impl_riscv_linux.c:78-86 | the last uarch line with a comma alone decides both names, as a caller reads them up to the terminator, each cut to its buffer |
| `Riscv.NoVendorLine` | src/impl_riscv_linux.c:78-86 | without such a line both names stay as they were |
| `Riscv.NamesLine` | src/impl_riscv_linux.c:78-86 | a line "uarch" stores the text before the comma as vendor and the text behind it as microarchitecture |
| `Riscv.IsaText` | src/impl_riscv_linux.c:75-77 | a line "isa" decides the features and nothing else |
| `Riscv.OtherLine` | src/impl_riscv_linux.c:72-90 | a line with any other key, or none, changes nothing and does not keep the driver going |
| `Riscv.HandleLines` | src/impl_riscv_linux.c:97-99 | the first rounds of the loop: a reader run that goes on exactly until a line asks to stop, and the fold over its lines |
| `Riscv.FillProcCpuInfoData` | src/impl_riscv_linux.c:92-102 | with more rounds than a greedily read file has lines, the loop is still going on if and only if the file hangs it; otherwise the result is the fold over the lines of the file, each cut to the buffer |
| `Riscv.HandleUarch` | src/impl_riscv_linux.c:78-86 | the text before the first comma is stored as vendor, the rest as microarchitecture; without a comma nothing is |
| `Riscv.DriverStopsIff` | src/impl_riscv_linux.c:92-102 | on file content and buffer size: if the last line is a uarch line without a comma that LastLineMark calls full, no result ever stops the driver; on every other file one of the first lines + 1 results does |
| `Riscv.EofDecides` | src/impl_riscv_linux.c:72-102 | whatever the reads, the first end-of-file result decides whether the driver ever stops |
| `Riscv.HangingFile` | src/impl_riscv_linux.c:78-90 | a file of two lines that hangs the driver, and its last line alone, which does not |
| `Arm.DecodeOfEncode` | src/impl_arm_linux_or_android.c:122-127 | decoding the identifier by the MIDR layout gives the fields reduced to 8, 4, 12 and 4 bits |
| `Arm.EncodeOfDecode` | src/impl_aarch64_freebsd_or_openbsd.c:35-41 | encoding a decoded MIDR_EL1 clears only bits 19 to 16 of its low half |
| `Arm.CpuIdIs` | src/impl_arm_linux_or_android.c:122-127 | where the four fields are in the identifier |
| `Arm.ArmInfo.FixErrors` | src/impl_arm_linux_or_android.c:129-169 | the in-place pass computes Fixed |
| `Arm.ArmInfo.Correct` | src/impl_arm_linux_or_android.c:131-163 | the architecture and the misreported features are put right in place |
| `Arm.ArmInfo.Propagate` | src/impl_arm_linux_or_android.c:165-168 | the implied features are set in place |
| `Arm.FixedIsLeastClosed` | src/impl_arm_linux_or_android.c:165-168 | the result is the least feature set above the corrected one closed under vfpv4 to vfpv3, neon to vfpv3, vfpv3 to vfp |
| `Arm.FixedIsIdempotent` | src/impl_arm_linux_or_android.c:129-169 | a second pass changes nothing |
| `Arm.FixedLosesOnlyNeon` | src/impl_arm_linux_or_android.c:139-155 | only neon can be lost, and only on the part that misreports it |
| `Arm.FixedIs` | src/impl_arm_linux_or_android.c:129-169 | the whole answer of the pass, field by field, with the identifiers, parts and architectures it depends on |
| `Arm.Nexus4` | test/cpuinfo_arm_test.cc:306-321 | the Krait of a Nexus 4 gets both division features |
| `Arm.IndexOfNonDigit` | src/impl_arm_linux_or_android.c:74-81 | the number of leading digits |
| `Arm.ParseArchitecture` | src/impl_arm_linux_or_android.c:101-106 | parses the leading digits of the value |
| `Arm.ArchitectureRoundTrip` | src/impl_arm_linux_or_android.c:101-106 | a number that letters may follow reads as the number |
| `Arm.DigitCharacters` | src/impl_arm_linux_or_android.c:74-81 | the characters counted are 0 to 9 |
| `X86.SetVendor` | src/impl_x86__base_implementation.inl:240-245 | stores the bytes of ebx, edx and ecx and a terminator |
| `X86.BytesOfWord` | src/impl_x86__base_implementation.inl:240-253 | four bytes make a word whose bytes they are |
| `X86.WordIs` | src/impl_x86__base_implementation.inl:240-253 | the first byte is the least significant |
| `X86.IsVendorByX86Info` | src/impl_x86__base_implementation.inl:255-257 | compares all 13 bytes |
| `X86.VendorTestsAgree` | src/impl_x86__base_implementation.inl:240-257 | the word comparison accepts a name exactly when the stored string equals it |
| `X86Cache.ParseLeaf2` | src/impl_x86__base_implementation.inl:1855-1879 | appends the levels of the descriptors in order, inside the array |
| `X86Cache.Descriptors` | src/impl_x86__base_implementation.inl:1855-1879 | a leaf has at most 15 descriptors, so they fit the array of levels |
| `X86Cache.DataDescriptors` | src/impl_x86__base_implementation.inl:1860-1872 | zeroing AL and the invalid registers and skipping zero bytes finds exactly those descriptors |
| `X86Cache.DescriptorsOf` | src/impl_x86__base_implementation.inl:1855-1879 | which bytes of which registers are descriptors, in which order, and which registers are left out |
| `X86Cache.CacheTypeIs` | src/impl_x86__base_implementation.inl:1890-1904 | types 1, 2 and 3 are data, instruction and unified caches; 0 and 4 to 31 end the list |
| `X86Cache.MaximalPrefix` | src/impl_x86__base_implementation.inl:1886-1919 | for a leaf within the maximum the levels reported are those of all subleaves of type 1 to 3 before the first other one, at most 16 |
| `X86Cache.NothingAboveMaximum` | src/impl_x86__base_implementation.inl:1886-1904 | a leaf above the maximum describes nothing |
| `X86Cache.ReadDeterministic` | src/impl_x86__base_implementation.inl:1888-1919 | the loop collects the decoded levels of that prefix |
| `X86Cache.ParseCacheInfo` | src/impl_x86__base_implementation.inl:1886-1923 | that prefix, decoded, replaces the earlier levels only when it is not empty |
| `X86Cache.LeafRoundTrip` | src/impl_x86__base_implementation.inl:1905-1917 | every field of a level is decoded to what the registers were made of, whatever their other bits |
| `X86Cache.SizeIsProductIff` | src/impl_x86__base_implementation.inl:1910 | the size is ways * partitions * line * sets exactly when that product is below 2^31 |
| `X86Cache.SizeWraps` | src/impl_x86__base_implementation.inl:1910 | a larger size is reported modulo 2^32 |
| `X86Cache.ParseCacheInfoLegacyAmd` | src/impl_x86__base_implementation.inl:1996-2032 | the four legacy caches up to the first of size zero |
| `X86Cache.LegacyL1RoundTrip` | src/impl_x86__base_implementation.inl:1931-1973 | a legacy L1 description decodes to the size, 8-bit associativity and line size it was made of |
| `X86Cache.LegacyRoundTrip` | src/impl_x86__base_implementation.inl:1938-1990 | so do L2 and L3 descriptions, with 4-bit associativity, units of 512 KiB for L3, and wrapping |
| `X86Cache.AssociativityIs` | src/impl_x86__base_implementation.inl:1942-1968 | the associativity field as powers of two and their midpoints |
| `X86Cache.AbsentIff` | src/impl_x86__base_implementation.inl:2020-2021 | which register bits being clear end the list of legacy caches |
| `X86Cache.LegacySizeIff` | src/impl_x86__base_implementation.inl:2020-2025 | the legacy size in bytes is right exactly when it is below 2 GiB; a larger L3 wraps |
| `X86Cache.GetX86CacheInfo` | src/impl_x86__base_implementation.inl:2034-2054 | the composition by vendor: leaf 2 overridden by leaf 4, leaf 0x8000001D, or the legacy leaves |
| `X86Cache.IntelVendors` | src/impl_x86__base_implementation.inl:2037-2039 | the three vendors of the first group by their register values |
| `X86Cache.AmdVendors` | src/impl_x86__base_implementation.inl:2042-2043 | the two vendors of the second group by their register values |
| `X86Cache.IntelCaches` | src/impl_x86__base_implementation.inl:2037-2041 | first group: exactly the caches of leaf 4, whatever leaf 2 says |
| `X86Cache.IntelDescriptors` | src/impl_x86__base_implementation.inl:2040-2041 | first group without caches in leaf 4: the table's levels for the descriptors of leaf 2 |
| `X86Cache.AmdCaches` | src/impl_x86__base_implementation.inl:2042-2048 | second group with topology extensions: exactly the caches of leaf 0x8000001D |
| `X86Cache.AmdLegacyCaches` | src/impl_x86__base_implementation.inl:1996-2032 | second group without them: which registers of leaves 0x80000005 and 0x80000006 describe which cache |
| `X86Cache.OtherVendors` | src/impl_x86__base_implementation.inl:2034-2054 | no caches for any other vendor |
| `X86Cache.CacheLevelsFit` | src/impl_x86__base_implementation.inl:2034-2054 | every number reported is an int, whatever CPUID returns, if those of the table are |
| `TreeDumper.Dumper.Align` | src/utils/list_cpu_features.c:74-80 | reaches the next boundary, and fails exactly if the buffer ends before it |
| `TreeDumper.Dumper.Bump` | src/utils/list_cpu_features.c:83-92 | succeeds exactly if the rounded size fits, and keeps every block 8-aligned, in the buffer and disjoint from the others, and ptr+size fixed |
| `TreeDumper.Dumper.CreateNode` | src/utils/list_cpu_features.c:115-120 | one new cleared node behind all blocks, nothing else changed; succeeds exactly if it fits |
| `TreeDumper.Dumper.CreateInt` | src/utils/list_cpu_features.c:123-127 | the node holds the signed int through its unsigned field |
| `TreeDumper.Dumper.CreateConstantString` | src/utils/list_cpu_features.c:131-135 | a string node that leads to the given text |
| `TreeDumper.Dumper.CreateMap` | src/utils/list_cpu_features.c:138 | an empty map behind all blocks |
| `TreeDumper.Dumper.CreateArray` | src/utils/list_cpu_features.c:141 | an empty array behind all blocks |
| `TreeDumper.Dumper.CreatePrintfString` | src/utils/list_cpu_features.c:144-156 | stores the text with its terminator in a block of its own and a string node that leads to it |
| `TreeDumper.Dumper.AddMapEntry` | src/utils/list_cpu_features.c:164-170 | for any value, memory differs in exactly one new block and one next field; for a complete value apart from the map's last node, the map holds exactly one more entry, at its end |
| `TreeDumper.Dumper.AddArrayElement` | src/utils/list_cpu_features.c:173-179 | the same for arrays |
| `TreeMemory.AppendToContainer` | src/utils/list_cpu_features.c:164-179 | what an append does to the tree a map or array holds, and to the blocks it occupies |
| `TreeMemory.Frame` | src/utils/list_cpu_features.c:106-112 | a tree depends on the blocks it occupies and on nothing else |
| `TreeMemory.LinkAppends` | src/utils/list_cpu_features.c:166-169 | linking at the last node appends one entry to an ascending, hence acyclic, chain and keeps all values |
| `TreeMemory.OthersUnaffected` | src/utils/list_cpu_features.c:164-179 | no tree without that last node, and no stored text, is affected by an append |
| `TreeDumper.Dumper.PrintJsonString` | src/utils/list_cpu_features.c:230-247 | the loop emits the quoted, escaped text |
| `TreeDumper.Dumper.PrintJson` | src/utils/list_cpu_features.c:250-287 | the walk over the nodes emits the text of the tree they hold |
| `TreeDumper.Dumper.PrintEntries` | src/utils/list_cpu_features.c:271-285 | the same walk along a chain of entries |
| `Json.EscapeOfOne` | src/utils/list_cpu_features.c:233-242 | the eight characters that get a backslash, and no others |
| `Json.Punctuation` | src/utils/list_cpu_features.c:250-287 | brackets, braces, quotes, colons, commas and numbers of the printed text |
| `Json.StringRoundTrip` | src/utils/list_cpu_features.c:230-247 | an escaped string reads back by section 7 of RFC 8259 exactly when it holds no control character, and is not JSON otherwise |
| `Json.KeyRoundTrip` | src/utils/list_cpu_features.c:272 | a key without quote, backslash and control characters reads back as itself |
| `Json.OnlyPlainKeys` | src/utils/list_cpu_features.c:272 | a key reads back as itself only if it holds no quote, backslash or control character, wherever the reader stops |
| `Json.IntRoundTrip` | src/utils/list_cpu_features.c:256 | a printed signed int reads back by section 6 of RFC 8259 |
| `Json.PrintReadsBackIffClean` | src/utils/list_cpu_features.c:250-287 | reading is the inverse of printing exactly for the trees whose strings and keys are clean |
| `CacheDump.AddCacheInfo` | src/utils/list_cpu_features.c:365-380 | the root gains one entry that holds all levels in order with their seven fields |
| `CacheDump.AddLevel` | src/utils/list_cpu_features.c:368-376 | a new map holds the seven fields of a level in order |
| `CacheDump.CreateLevels` | src/utils/list_cpu_features.c:366-378 | the loop builds the array of all levels; it succeeds exactly if the buffer has room for one node and sixteen a level |
| `CacheDump.LevelEntries` | src/utils/list_cpu_features.c:368-376 | which value stands under which key in the map of a level, in which order, and the names of the cache types |
| `X86Dump.SortedIsOrdered` | src/utils/list_cpu_features.c:181-196 | sorting the flag names keeps each as often as it was and puts them in the order of strcmp |
| `X86Dump.NamesAre` | src/utils/list_cpu_features.c:190-195 | the names collected are exactly those of the flags that are set |
| `X86Dump.LeIff` | src/utils/list_cpu_features.c:181-183 | the order is that of strcmp: a beginning comes first, otherwise the first difference decides |
| `X86Dump.AddFlags` | src/utils/list_cpu_features.c:185-201 | the root gains one entry that holds the sorted names of the flags that are set |
| `X86Dump.CreateTree` | src/utils/list_cpu_features.c:382-396 | the root map holds the eight x86 entries in order; it succeeds exactly if the buffer has room for their nodes and texts |
| `X86Dump.RootEntries` | src/utils/list_cpu_features.c:382-396 | which value stands under which key in the root map, and in which order |
| `X86Dump.CleanRoot` | src/utils/list_cpu_features.c:382-396 | the tree is clean exactly if brand, microarchitecture and the names of the set flags hold no control character |
| `X86Dump.Fits64KiB` | src/utils/list_cpu_features.c:62-64 | 64 KiB hold the whole tree with nodes of 32 bytes, a 48-byte brand, 74 flags and 16 cache levels, wherever the buffer starts |
| `X86Dump.DumpX86` | src/utils/list_cpu_features.c:382-396 | the whole x86 dump, with the cache levels from CPUID: it succeeds exactly if the tree fits, and the printed text reads back as the tree exactly if the strings shown hold no control character |

## Left out

- LineReader.StackLineReader.NextLine: files with NUL bytes are not modelled, because the newline scan then depends on how the reads fall; the line is a value, so that a caller's view dies at the next call is not captured.
- TreeDumper.Dumper.AddMapEntry: for a value that is incomplete or holds the last node of the map, only the memory is stated, not the tree; the nodes can then form a cycle, on which the printer does not stop.
- X86Dump.DumpX86: is about the text only when the buffer suffices, because the program exits otherwise; brand, family, model, stepping, microarchitecture name and flags are parameters.
- TreeDumper.Dumper.CreatePrintfString: the formatting of `vsnprintf` is not modelled, only the text it wrote; texts hold no NUL.
- CpuList.CpuMask.ParseCpuMask: for numbers or ranges that reach INT_MAX the flag is raised and the result is that of unbounded ints, because the C result is undefined.
- `HandleArmLine` and `GetArmInfo`: the same shape as the MIPS handler with a longer table; the number and quirk passes they call are modelled.
- The AArch64, PPC, s390x, LoongArch and x86 line handlers: the same shape again.
- Riscv.FillProcCpuInfoData: runs a given number of rounds of the loop, because the loop itself has no end on some files; which files those are is proved for greedy reads.
- `GetX86Microarchitecture`, the rows of `GetCacheLevelInfo`, microarchitecture names and `HasSecondFMA`: tables.
- `ParseCpuId` and the Darwin, Windows and BSD back ends: one branch a feature.
- `CreateTree` of the other architectures, `printTextField` and usage text: further calls of the constructors shown, and plain output.
- Ndk.Library.CpuInit: the CPU-list files are read greedily, and the feature bits derived per architecture, one branch a bit, are a parameter.
- Races between `g_inited` and `pthread_once`: runs are sequential.
- The contents of unused array slots of the cache description: only the levels in use are stated.
