# CBuild, modelled in Dafny

CBuild is a build-script toolkit: a single-header C library, `cbuild.h`, plus an older C++ library of the same name. This project models the logic at the core of both and proves what that logic promises. Every operation below is stated over byte sequences, maps and small objects. The operating system, the file system and the terminal become inputs and outputs of those operations.

From `cbuild.h`:

- `string_view.dfy` (`StringView`): string views. Covers chop, chop by delimiter and by callback, trim, compare (`memcmp` order and the size rule), prefix/suffix, and find/rfind.
- `utf8.dfy` (`Utf8`): the UTF-8 encoder, the lenient decoder, code-point length and search, and the strict validator. The validator is checked against section 4 of RFC 3629.
- `dyn_array.dfy` (`DynArrays`): the DynArray and string-builder macros, with the capacity-doubling rule.
- `stack.dfy` (`Stacks`): the stack macros.
- `bucket_map.dfy` (`BucketMaps`): the bucket hash map, with byte keys or C-string keys (key size 0), djb2 hashing or a user hash, memcmp, strcmp or a user comparison, get-or-alloc, swap-remove and in-order iteration.
- `temp_arena.dfy` (`TempArenas`): the temporary bump allocator and its checkpoints.
- `paths.dfy` (`Paths`): the path helpers `ext`, `name`, `base` and `normalize`.
- `commands.dfy` (`Commands`): command-to-string quoting.
- `logging.dfy`:
  - `Logging`: the log-level filter;
  - `MtimeChecks`: the rule that combines several mtime comparisons.
- `flag_spec.dfy` (`FlagSpecs`): the FlagParse spec language and its bit-packed type word.
- `flags.dfy` (`FlagParse`): flag registration and the argv parser with its getters.
- `numbers.dfy` (`Numbers`): decimal numerals and `atoi`, which the other modules share.

From the rest of the repository:

- `glob.dfy` (`Glob`): the glob-to-regex translator of `rglob.h` and its result filter.
- `theme.dfy` (`Theme`): the wiki's theme switch.
- From the C++ CBuild:
  - `lib_map.dfy` (`LibMap`): `lib::map`;
  - `hasher.dfy` (`Hasher`): the djb2 and FNV-1a hashes;
  - `metadata.dfy` (`Metadata`): the metadata file format, with its readers, writers and path naming;
  - `generator.dfy` (`Generator`): JSON escaping, `eval_cmd`, and the Makefile and compile_commands.json generators;
  - `registry.dfy` (`Register`): the registry of tasks, toolchains, keywords and generators;
  - `cli_parser.dfy` (`CliParser`): the command-line dispatcher;
  - `cbuild_hash.dfy` (`CBuildHash`): the "needs recompiling" decision.
- `wrappers.dfy`, `seqs.dfy` and `run_type.dfy` hold shared helper types and facts.

How the source's forms are modelled:

- Code that updates state in place becomes a class with `modifies` clauses. This covers the dynamic array, stack, bucket map, arena, `lib::map`, registry, flag context, theme page and metadata store.
- Each method is proved against a specification function or a preserved invariant.
- Pure code becomes functions, with lemmas relating each function to its partner (an inverse, an invariant or a reference definition).
- Where the code and its documentation or evident intent disagree, both versions are kept, as listed under "## Findings": a member that models the code as written and a corrected one. The operations built on top (the record readers, the recompilation decision, flag declaration) use the corrected members. In every such case the code as written never returns where the corrected member gives a result. Each such operation has a line under "## Left out".

## Model

| member | source | states |
|---|---|---|
| StringView.Chop | cbuild.h:2793-2801 | the taken bytes followed by the remaining view give back the original; exactly min(n, size) bytes are taken, and n ≥ size takes everything and leaves an empty view |
| StringView.ChopByDelim | cbuild.h:2802-2812 | with `delim` present: taken ++ [delim] ++ rest == original and taken holds no `delim`; without it: the whole view is taken and the rest is empty |
| StringView.ChopByFunc | cbuild.h:2832-2845 | when some index below the size satisfies the delimiter function, the view is split at the first such index and that byte is dropped; when none does, the whole view is taken |
| StringView.Find | cbuild.h:2896-2903 | -1 exactly when the byte is absent; otherwise the index of its first occurrence |
| StringView.RFind | cbuild.h:2904-2927 | -1 exactly when the byte is absent; otherwise an index holding it with none after it |
| StringView.RFindIsLast | cbuild.h:2904-2927 | an occurrence with none after it is the one `rfind` returns |
| StringView.NoneAfter | cbuild.h:2904-2927 | no index after the `rfind` result holds the byte |
| StringView.Contains | cbuild.h:2955-2957 | true exactly when the byte occurs in the view |
| StringView.FindSv | cbuild.h:2928-2954 | -1 exactly when the needle occurs nowhere; otherwise the needle occurs at the result and at no smaller index (an empty needle is found at 0) |
| StringView.ContainsSv | cbuild.h:2958-2960 | true exactly when the needle occurs at some index |
| StringView.MemCmp | cbuild.h:2853-2861 | the memcmp sign over equal lengths: 0 exactly when equal, otherwise negative exactly when the first differing byte of `a` is the smaller as unsigned |
| StringView.Cmp | cbuild.h:2846-2862 | -2 exactly when `a` is shorter, 2 exactly when longer; for equal sizes a value in -1..1 that is 0 exactly when equal and -1 exactly when the first differing byte of `a` is smaller |
| StringView.CmpSwap | cbuild.h:2846-2862 | swapping the operands negates the result |
| StringView.FirstDiffSwap | cbuild.h:2853 | the first differing index does not depend on the order of the operands |
| StringView.CmpIcase | cbuild.h:2863-2881 | size rule as in `cmp`; for equal sizes 0 exactly when the ASCII-lowered bytes agree, otherwise -1 exactly when the first differing lowered byte of `a` is smaller as a signed `char` |
| StringView.Prefix | cbuild.h:2882-2887 | true exactly when the view is `prefix` followed by something |
| StringView.Suffix | cbuild.h:2888-2895 | true exactly when the view is something followed by `suffix` |
| StringView.TrimLeft | cbuild.h:2770-2778 | the count of leading white-space bytes dropped, the rest is the view from there, and the first byte kept is not white space |
| StringView.TrimRight | cbuild.h:2779-2787 | the count of trailing white-space bytes dropped, the rest is the view up to there, and the last byte kept is not white space |
| StringView.Trim | cbuild.h:2788-2792 | dropped count plus kept length is the old length, the kept bytes are a slice with only white space around them, and they neither start nor end with white space |
| Utf8.MaskRanges | cbuild.h:2990-3111 | the decoder's lead-byte mask tests and the tail-byte test are the byte ranges C0..DF, E0..EF, F0..F7 and 80..BF |
| Utf8.MaskDecode | cbuild.h:2995-2996 | the two-byte decoder's shift-and-mask expression equals the digit sum used by the model |
| Utf8.Encode | cbuild.h:2737-2762 | defined exactly for code points up to 0x10FFFF (the encoder aborts above), producing 1, 2, 3 or 4 bytes for code points up to 0x7F, 0x7FF, 0xFFFF and 0x10FFFF |
| Utf8.CpLen | cbuild.h:2961-2968 | 0 exactly for an empty view; never more than 4 nor more than the bytes left |
| Utf8.ChopUtf8 | cbuild.h:2980-3026 | an empty view gives UINT32_MAX; otherwise the view advances by the code-point length of its lead byte, and the value fits 32 bits |
| Utf8.EncodeChop | cbuild.h:2980-3026 | decoding the encoder's bytes for any code point up to 0x10FFFF gives that code point and consumes exactly those bytes, whatever follows (encoder at cbuild.h:2737-2762) |
| Utf8.EncodeChop2 | cbuild.h:2990-2998 | the round trip for two-byte code points (encoder branch at cbuild.h:2743-2746) |
| Utf8.EncodeChop3 | cbuild.h:2999-3009 | the round trip for three-byte code points (encoder branch at cbuild.h:2747-2751) |
| Utf8.EncodeChop4 | cbuild.h:3010-3021 | the round trip for four-byte code points (encoder branch at cbuild.h:2752-2757) |
| Utf8.DecodeEncodeAll | cbuild.h:2980-3026 | decoding the concatenated encodings of a code point sequence returns that sequence (encoder at cbuild.h:2737-2762) |
| Utf8.Utf8Len | cbuild.h:3061-3068 | the count of decoder steps needed to empty the view |
| Utf8.Utf8LenEncodeAll | cbuild.h:3061-3068 | the length of an encoded sequence is its number of code points |
| Utf8.BoundaryStep | cbuild.h:2972-2979 | from a code-point boundary the next one lies one code-point length on, and none lies in between |
| Utf8.Utf8Chr | cbuild.h:2972-2979 | a found offset is a boundary whose code point is `c`, and no earlier boundary's code point is; NULL means no boundary's code point is `c` |
| Utf8.ChopByUtf8 | cbuild.h:3027-3040 | the bytes before the first code point equal to `delim`, which is dropped from the rest; with none, the whole view and an empty rest |
| Utf8.ChopByFuncUtf8 | cbuild.h:3041-3057 | the bytes before the first boundary the callback accepts, with that code point dropped; no earlier boundary is accepted; with none, everything is taken |
| Utf8.CharLength | cbuild.h:3069-3252 | a valid UTF-8 character's length is fixed by its lead byte |
| Utf8.StartsWithCharIff | cbuild.h:3069-3252 | a view starts with a UTF-8 character exactly when some prefix of it is one |
| Utf8.TextSnoc | cbuild.h:3069-3252 | a valid text followed by one character is valid and has one more character |
| Utf8.TextStuck | cbuild.h:3069-3252 | a valid prefix followed by a byte that opens no character makes the whole view invalid |
| Utf8.Utf8Valid | cbuild.h:3069-3256 | true exactly when the view is a sequence of UTF8-char in the sense of section 4 of RFC 3629 with no 0x00 byte; on failure `*idx` is one more than the number of valid characters before the failing position |
| Utf8.Lead | cbuild.h:3078-3250 | a lead byte whose tail bytes pass the validator's checks opens a UTF-8 character of that length |
| Utf8.NoLead | cbuild.h:3078-3252 | a lead byte whose tail bytes fail the checks opens no UTF-8 character |
| Utf8.EncodeIsChar | cbuild.h:3069-3256 | the encoder's output is one valid character exactly when the code point is neither 0 nor a surrogate D800..DFFF (encoder at cbuild.h:2737-2762) |
| Utf8.IsChar3 | cbuild.h:3095-3176 | a three-byte encoding is valid exactly when the code point is not a surrogate (encoder branch at cbuild.h:2747-2751) |
| Utf8.Decode | cbuild.h:2980-3026 | the decoder never yields more code points than the view has bytes |
| DynArrays.ResizedCapacity | cbuild.h:1047-1070 | a nonzero request sets that capacity; a zero request gives CBUILD_INIT_CAPACITY (256) for a first allocation and doubles an existing one |
| DynArrays.RemoveAtShifts | cbuild.h:1005-1026 | removing position `i` shortens the array by one, keeps the earlier elements, shifts the later ones left by one in order, and loses exactly that element |
| DynArrays.SwapRemoveLoses | cbuild.h:1027-1046 | the unordered remove shortens the array by one, loses exactly the element at `i`, and leaves every other position below the new size unchanged |
| DynArrays.DynArray.constructor | cbuild.h:912-917 | a zero-initialised array: no data, size 0, capacity 0 |
| DynArrays.DynArray.FullGrowthFits | cbuild.h:1047-1070 | growing a full array by the default rule always leaves room for one more element (the append at cbuild.h:924-929) |
| DynArrays.DynArray.Resize | cbuild.h:1047-1072 | the capacity follows the growth rule, data is allocated, and the contents are truncated to the new capacity when they no longer fit |
| DynArrays.DynArray.Append | cbuild.h:924-930 | the element is added at the end; the capacity grows by the default rule only when the array was full |
| DynArrays.DynArray.AppendArr | cbuild.h:938-947 | the elements are added at the end; when they do not fit the capacity becomes capacity + count, otherwise it is unchanged (also the string builder at cbuild.h:1411-1433) |
| DynArrays.DynArray.Set | cbuild.h:968-983 | true exactly for an index below the size, which is then overwritten; otherwise the array is unchanged |
| DynArrays.DynArray.Get | cbuild.h:987-1000 | the element at an index below the size; NULL otherwise |
| DynArrays.DynArray.Remove | cbuild.h:1005-1026 | true exactly for an index below the size, which is then removed with the later elements shifted left; otherwise no change |
| DynArrays.DynArray.RemoveUnordered | cbuild.h:1027-1046 | true exactly for an index below the size, whose slot then receives the last element; otherwise no change |
| DynArrays.DynArray.Clear | cbuild.h:1074-1080 | the array is back to no data, size 0 and capacity 0 |
| Stacks.ResizeAsWritten | cbuild.h:1861-1887 | the capacity follows the DynArray growth rule and the fill pointer is left unchanged |
| Stacks.ResizeAsWrittenOverruns | cbuild.h:1861-1887 | shrinking a stack of three to capacity 1 leaves the fill pointer beyond the buffer |
| Stacks.ResizeCorrected | cbuild.h:1856-1887 | the capacity follows the growth rule and the fill pointer is cut to the new capacity, as the macro's documentation promises |
| Stacks.Stack.constructor | cbuild.h:1825-1900 | an empty stack with no data and capacity 0 |
| Stacks.Stack.Resize | cbuild.h:1861-1887 | the new shape is ResizeCorrected of the old one, and the contents are a prefix of the old ones |
| Stacks.Stack.Push | cbuild.h:1825-1832 | the element goes on top; the capacity grows by the default rule only when the stack was full |
| Stacks.Stack.Pop | cbuild.h:1838-1843 | on a nonempty stack it returns the top and removes it; on an empty one it is the underflow assertion (None) and nothing changes |
| Stacks.Stack.Top | cbuild.h:1849-1853 | the top element without removing it; None exactly on an empty stack |
| Stacks.Stack.Clear | cbuild.h:1888-1894 | the stack is back to no data, fill pointer 0 and capacity 0 |
| Stacks.PushPop | cbuild.h:1825-1843 | a push followed by a pop returns the pushed element and restores the old contents |
| TempArenas.TempArena.constructor | cbuild.h:3510-3511 | an arena of CBUILD_TEMP_ARENA_SIZE (8 MiB) bytes with nothing used |
| TempArenas.TempArena.Alloc | cbuild.h:3512-3517 | NULL exactly when fewer than `size` bytes are left, and then nothing changes; otherwise the old fill offset, with the fill advanced by `size` |
| TempArenas.TempArena.MemDup | cbuild.h:3545-3550 | NULL exactly when the copy does not fit, with nothing changed; otherwise fresh bytes at the old fill offset hold the copy and the bytes around them are unchanged |
| TempArenas.TempArena.StrDup | cbuild.h:3538-3544 | as MemDup on the string followed by its terminating NUL |
| TempArenas.TempArena.Checkpoint | cbuild.h:3554-3556 | a checkpoint never exceeds the arena size |
| TempArenas.TempArena.Reset | cbuild.h:3551-3553 | the fill offset becomes the checkpoint |
| TempArenas.ResetReuses | cbuild.h:3512-3556 | after checkpoint, allocate and reset, the same request gets the same answer again, and it succeeds exactly when it fits |
| BucketMaps.Djb2 | cbuild.h:4440-4447 | the djb2 fold from 5381 stays below 2^64 |
| BucketMaps.HashFunc | cbuild.h:4440-4447 | the loop computes the djb2 fold h := h*33 + byte modulo 2^64 over unsigned bytes |
| BucketMaps.NextSlot | cbuild.h:4580-4590 | the first element at or after the cursor, skipping only empty buckets; none exactly when no element is left |
| BucketMaps.NextSlotVisits | cbuild.h:4580-4590 | each iteration step extends the visited elements by exactly the element it returns, and at the end every element has been visited |
| BucketMaps.FlattenVisitedBound | cbuild.h:4580-4590 | the visited elements never outnumber all elements |
| BucketMaps.BucketMap.constructor | cbuild.h:1588-1609 | a map with no buckets and a reset iterator, with the key size (0 for C-string keys), element size, hash function, key comparison and the C-string memory given; an element holds its key bytes or key pointer |
| BucketMaps.BucketMap.BucketOf | cbuild.h:4448-4462 | the bucket index of a key is below the bucket count; without a user hash it is djb2 over the key bytes, or over the C string's bytes before its NUL when the key size is 0 |
| BucketMaps.BucketMap.DefaultHashAgrees | cbuild.h:4448-4490 | with the default hash and comparison, a key and an element that matches it hash to the same bucket, for byte keys and for C-string keys |
| BucketMaps.BucketMap.CheckBucket | cbuild.h:4463-4490 | the first element of the bucket that matches the key (the user comparison, else memcmp over the key size, else strcmp of the C strings); none exactly when no element matches |
| BucketMaps.BucketMap.Init | cbuild.h:4491-4496 | `n` empty buckets |
| BucketMaps.BucketMap.Get | cbuild.h:4497-4506 | CBUILD_PTR_ERR exactly when there are no buckets; otherwise NULL exactly when no element of the key's bucket matches the key, else the first element that matches |
| BucketMaps.BucketMap.GetOrAlloc | cbuild.h:4507-4524 | NULL without buckets; the first matching element of the key's bucket with the map unchanged; otherwise, when nothing matches, a new zero-filled element appended to only that key's bucket |
| BucketMaps.BucketMap.Store | cbuild.h:4507-4524 | a write through the returned element pointer replaces only that element |
| BucketMaps.BucketMap.Remove | cbuild.h:4525-4548 | false with no change without buckets or when no element matches the key; otherwise the first matching element is replaced by the bucket's last one and the bucket shrinks by one |
| BucketMaps.BucketMap.Clear | cbuild.h:4549-4575 | no buckets are left |
| BucketMaps.BucketMap.IterReset | cbuild.h:4576-4579 | both cursor fields are 0 |
| BucketMaps.BucketMap.IterNext | cbuild.h:4580-4590 | returns the NextSlot element with the cursor one past it; at the end the cursor rests on the bucket count |
| BucketMaps.BucketMap.ForEach | cbuild.h:4576-4590 | a full iteration visits every element once, in bucket order (iteration macro at cbuild.h:1805-1824) |
| Commands.Quoted | cbuild.h:3275-3279 | an argument without a space is written as is; one with a space is wrapped in single quotes |
| Commands.CmdToSb | cbuild.h:3268-3285 | the line is the arguments' written forms joined by single spaces, empty for an empty command |
| Commands.AppendArg | cbuild.h:3275-3279 | one argument's write appends exactly its quoted form |
| Commands.CmdLineStep | cbuild.h:3273-3283 | the line of the first i+1 arguments is what the loop wrote before argument `i` followed by its written form |
| Commands.CmdLineSplits | cbuild.h:3268-3285 | for arguments without spaces, splitting the line at its spaces gives back exactly the arguments |
| Logging.Filter | cbuild.h:3492-3502 | NO_LOGS is never printed, PRINT always without a label, and ERROR..TRACE with their own label exactly when at or below the minimum level |
| Logging.FilterMonotone | cbuild.h:3492-3502 | raising the minimum level never silences a message that was printed |
| Logging.NoLogsSilences | cbuild.h:3492-3502 | with the minimum at NO_LOGS only PRINT messages are printed |
| Logging.Logger.constructor | cbuild.h:3463 | the minimum level starts at CBUILD_LOG_MIN_LEVEL, by default ERROR (default at cbuild.h:513-515) |
| Logging.Logger.SetMinLevel | cbuild.h:3503-3505 | the minimum becomes the given level |
| Logging.Logger.GetMinLevel | cbuild.h:3506-3508 | the current minimum level |
| Logging.Logger.VLog | cbuild.h:3492-3502 | prints with exactly the label Filter gives for the current minimum |
| Logging.DefaultFilter | cbuild.h:3492-3502 | with the default minimum only ERROR and PRINT messages appear (default minimum at cbuild.h:513-515) |
| MtimeChecks.Newer | cbuild.h:4426-4438 | the count of newer inputs is at most the number of inputs |
| MtimeChecks.CompareMtimeMany | cbuild.h:4426-4438 | -1 when some check failed (the first error is returned); otherwise the number of inputs newer than the output, which is positive exactly when some input is newer |
| MtimeChecks.NewerPositive | cbuild.h:4426-4438 | the count is positive exactly when some input is newer |
| FlagSpecs.GetType | cbuild.h:4630 | the type field read from bits 0-1 is at most 3 |
| FlagSpecs.GetArgt | cbuild.h:4631 | the argument-kind field read from bits 2-4 is at most 7 |
| FlagSpecs.GetArgo | cbuild.h:4632 | the optional bit read from bit 5 is at most 1 |
| FlagSpecs.GetPrm1 | cbuild.h:4633 | the list length read from bits 16-23 is at most 255 |
| FlagSpecs.GetPrm2 | cbuild.h:4634 | the terminator read from bits 24-31 is at most 255 |
| FlagSpecs.SetTypeFields | cbuild.h:4594-4634 | SET_TYPE ORs the masked value into the type field and leaves every other field unchanged |
| FlagSpecs.SetArgtFields | cbuild.h:4594-4634 | SET_ARGT ORs into the argument-kind field only |
| FlagSpecs.SetArgoFields | cbuild.h:4594-4634 | SET_ARGO ORs into the optional bit only |
| FlagSpecs.SetPrm1Fields | cbuild.h:4594-4634 | SET_PRM1 ORs into the list-length field only |
| FlagSpecs.SetPrm2Fields | cbuild.h:4594-4634 | SET_PRM2 ORs into the terminator field only |
| FlagSpecs.FreshWordRoundTrip | cbuild.h:4625-4634 | on a zero word each getter reads back exactly the masked value its setter stored |
| FlagSpecs.ArgtOf | cbuild.h:4724-4731 | the argument kind named by an `arg=` value is at most 3 (arg 1, list 2, tlist 3, otherwise 0) |
| FlagSpecs.ArgoOf | cbuild.h:4732-4734 | the optional bit from a trailing `?` is at most 1 |
| FlagSpecs.ArgWord | cbuild.h:4723-4734 | an `arg=` entry ORs its kind and optional bit into their fields and leaves the others |
| FlagSpecs.LenWord | cbuild.h:4735-4736 | a `len=` entry ORs the value modulo 256 into the list length and leaves the others |
| FlagSpecs.DelimWord | cbuild.h:4739-4740 | a `tdelim=` entry ORs the byte into the terminator field and leaves the others |
| FlagSpecs.ApplyEntry | cbuild.h:4712-4750 | succeeds exactly for the keys arg, len, thint, tdelim and group (any other key is the syntax-error exit); only the type word, type hint and group name change, and never the type bits |
| FlagSpecs.ArgEntryEffect | cbuild.h:4723-4734 | the effect of an `arg=` entry on the type word |
| FlagSpecs.LenEntryEffect | cbuild.h:4735-4736 | the effect of a `len=` entry, with `atoi` reading on past the entry as the C string allows |
| FlagSpecs.DelimEntryEffect | cbuild.h:4739-4740 | the effect of a `tdelim=` entry, the first byte of the value (or the byte after it when empty) |
| FlagSpecs.MetaDelim | cbuild.h:4703-4711 | the index of the first '\t' or ';', or the length when there is none (scanned by `cbuild_sv_chop_by_func`, cbuild.h:2832-2845) |
| FlagSpecs.MetadataKeeps | cbuild.h:4751-4769 | reading the metadata section changes only the type word, type hint and group name, never the type bits |
| FlagSpecs.MetadataDescription | cbuild.h:4751-4769 | the view left for the description is everything after the first tab, or empty when there is none (read at cbuild.h:4862) |
| FlagSpecs.ChopEntry | cbuild.h:4703-4755 | one chop gives the bytes up to the first '\t' or ';', the rest after it, and the delimiter the callback stored (unchanged when it found none) |
| FlagSpecs.ParseMetadataSpec | cbuild.h:4751-4769 | the corrected loop computes Metadata, the entries up to the first tab, both the filled-in spec and the leftover view, or the syntax-error exit |
| FlagSpecs.ChopResumes | cbuild.h:4753-4763 | one chop with the delimiter reset is one unfolding of Metadata |
| FlagSpecs.MetadataSpinsAsWritten | cbuild.h:4756-4764 | in the loop as written, once the entries run out after a ';' the loop state is a fixed point and the guard stays true |
| FlagSpecs.NoTabAfterSemicolonSpins | cbuild.h:4756-4764 | a section whose last separator is ';' reaches that fixed point after applying its last entry |
| FlagParse.GetLopt | cbuild.h:4659-4669 | returns the first flag of type 0 or 1 whose long option equals the name, and None only when no flag has it |
| FlagParse.GetLoptAliased | cbuild.h:4670-4685 | returns the first flag whose long option or one of whose aliases equals the name, and None only when no flag matches; this is the lookup AliasedFrom describes |
| FlagParse.GetSopt | cbuild.h:4686-4693 | returns the first flag of type 1 with the given short option, and None only when there is none; this is the lookup SoptFrom describes |
| FlagParse.FirstDelim | cbuild.h:4694-4702 | the index of the first '\t', '\n' or '\r' of a spec string (or its length), with no separator before it |
| FlagParse.Head | cbuild.h:4822-4848 | an accepted head names the flag by the text before the first separator, starts unparsed with no arguments or aliases, and leaves a strictly shorter metadata text |
| FlagParse.ChopHead | cbuild.h:4822-4857 | the chopping code of `cbuild_flag_new` (name, type delimiter, one-byte short option, second tab) yields exactly the head the declaration function describes, including every syntax error |
| FlagParse.DeclareLongOnly | cbuild.h:4813-4868 | `name\n\tDESC` declares a long-only flag `name` with description DESC and no argument |
| FlagParse.DeclareWithShort | cbuild.h:4813-4868 | `name\tc\t\tDESC` declares flag `name` of type 1 with short option c and description DESC |
| FlagParse.DeclareShape | cbuild.h:4813-4868 | every accepted declaration is named by the text before the first separator, starts unfound with no arguments or aliases, and has a short option exactly when that separator is a tab |
| FlagParse.AliasesUnfold | cbuild.h:4787-4798 | one pass of the alias do-while: an empty piece is an error, the rest is strictly shorter, an empty rest ends the loop and otherwise the pieces continue from the rest |
| FlagParse.AliasesJoin | cbuild.h:4787-4798 | a non-empty list of non-empty aliases without ',' joined by ',' is split back into exactly that list |
| FlagParse.SplitAliases | cbuild.h:4786-4798 | the alias loop succeeds exactly when no piece between commas is empty, and then adds exactly the pieces in order |
| FlagParse.ListEnd | cbuild.h:4916-4930 | the first argument from the given index that ends a list (an option for a list, the one-byte terminator for a terminated list), with no earlier one ending it |
| FlagParse.FlagArgs | cbuild.h:4869-4944 | the reference reading of a flag's arguments: only the arguments change, the status is success or exit 1, and the last argument consumed lies between the flag's own index and the end of argv |
| FlagParse.AliasedFrom | cbuild.h:4670-4685 | the first flag from an index on whose long option or alias is the name; None exactly when no later flag has it |
| FlagParse.SoptFrom | cbuild.h:4686-4693 | the first flag from an index on with the short option; None exactly when no later flag has it |
| FlagParse.LongStep | cbuild.h:4954-4984 | the reference effect of one long option; the loop continues strictly after the option |
| FlagParse.ClusterStep | cbuild.h:4985-5033 | the reference effect of one cluster of short options; the loop continues strictly after the cluster |
| FlagParse.ArgStep | cbuild.h:4953-5036 | the reference effect of one pass of the parse loop; the loop always moves forward |
| FlagParse.ParseAll | cbuild.h:4952-5037 | the reference parse loop; the option tokens it records lie in the part of argv it was given |
| FlagParse.LongFinds | cbuild.h:4954-4984 | a long option only adds found bits and arguments; when it succeeds its flag was known and is found; an unknown name (not help or version) exits with 1 and changes nothing; a known one marks its first flag found, gives it exactly the arguments read for it and changes no other flag |
| FlagParse.ClusterFinds | cbuild.h:4985-5033 | a cluster only adds found bits and arguments; when it succeeds every option in it is known, is neither 'h' nor 'V', and has its flag found |
| FlagParse.ClusterFails | cbuild.h:4992-5033 | the first option of a cluster that forces an exit (OptionFailure) decides the status: 0 for 'h' or 'V', 1 for an unknown option or one before the last that needs an argument |
| FlagParse.ArgStepFinds | cbuild.h:4953-5036 | a pass only adds found bits and arguments; a successful pass over an option token marks found every flag the token names |
| FlagParse.ParseAllFinds | cbuild.h:4952-5037 | a parse only adds found bits and arguments; a successful parse has found every flag named by an option token the loop interpreted |
| FlagParse.ParseAllPositional | cbuild.h:4952-5037 | after "--", or with no argument starting with '-', the rest of argv is appended to the positional arguments in order and no flag changes |
| FlagParse.ParseAllSeparator | cbuild.h:4954-4964 | a leading "--" makes the rest of argv positional, after a "--" of its own exactly when the separator is on |
| FlagParse.ParseAllBuiltIn | cbuild.h:4954-5001 | "--help", "--version", or a first cluster starting with 'h' or 'V', exits with 0 |
| FlagParse.ParseFlagArgs | cbuild.h:4869-4944 | only the flag's arguments change; no argument kind consumes nothing; at the end of argv a required argument is an error; one argument replaces the list unless it starts with '-' (an error when required); a list appends the arguments up to its end, gives back the option that ended it, and is an error when a fixed length is set and not met; the outcome is exactly the reference reading FlagArgs |
| FlagParse.EvolvedTrans | cbuild.h:4945-5038 | the way flags may change while argv is parsed (declarations kept, found stays found, newly found only when named by some argument) composes over successive steps |
| FlagParse.NamedByDeclared | cbuild.h:4945-5038 | whether an argument names a flag depends only on its declaration, not on its found bit or arguments |
| FlagParse.PargsGrewTrans | cbuild.h:4945-5038 | the growth of the positional arguments (an extension by "--" or arguments of argv) composes over successive steps |
| FlagParse.PargsPush | cbuild.h:4958-4962 | appending "--" or an argument of argv keeps the positional-argument growth invariant |
| FlagParse.FlagContext.constructor | cbuild.h:4658 | the static context starts zeroed: separator off, no application name, groups, positional arguments or flags |
| FlagParse.FlagContext.ParseCmd | cbuild.h:4770-4812 | `separator` turns the separator on; `alias` has the alias effect; `group:NAME:DESC` appends the pair; any other command changes nothing; nothing else in the context changes |
| FlagParse.FlagContext.ParseAlias | cbuild.h:4776-4799 | succeeds exactly when some flag has the named long option and no alias is empty, and then only the first such flag gains the aliases, in order |
| FlagParse.FlagContext.FlagNew | cbuild.h:4813-4868 | a spec starting with '-' runs the command; any other spec leaves separator and groups alone, succeeds exactly when it is a valid declaration and then appends exactly that flag, its metadata read with the corrected loop |
| FlagParse.FlagContext.FlagParse | cbuild.h:4945-5038 | records argv[0] as the application name; the status, flags and positional arguments are exactly those of the reference parse ParseAll; on success every flag named by an option token is found; the flag list only evolves and the positional arguments only grow; with no option-like argument every argument is positional; a leading "--" makes the rest positional, after "--" itself when the separator is on; a leading help or version argument exits with 0 |
| FlagParse.FlagContext.ParseArg | cbuild.h:4953-5036 | one argument has exactly the effect of the reference pass ArgStep: after options ended or without a leading '-' it is positional; "--" ends the options and is pushed only when the separator is on; help and version exit with 0; the loop always moves forward |
| FlagParse.FlagContext.MarkFound | cbuild.h:4982 | sets only the found bit of the flag, which the argument names |
| FlagParse.FlagContext.ReadArgs | cbuild.h:4983-4984 | the flag gets exactly the arguments, status and last index of the reference reading FlagArgs; no other flag changes; no argument before the flag is consumed |
| FlagParse.FlagContext.FoundWithArgs | cbuild.h:4982-4984 | marking a flag found and reading its arguments is the reference reading FlagArgs of the found flag |
| FlagParse.FlagContext.LongFlag | cbuild.h:4954-4984 | exactly the reference effect LongStep: "--help" and "--version" exit with 0, an unknown name with 1, otherwise the first flag it names is marked and reads its arguments; the loop moves forward |
| FlagParse.FlagContext.ShortFlags | cbuild.h:4985-5033 | exactly the reference effect ClusterStep: a cluster starting with 'h' or 'V' exits with 0; each known option is marked found, only the last one reads arguments and an earlier one requiring an argument is an error |
| FlagParse.FlagContext.ClusterOption | cbuild.h:4992-5033 | one option of a cluster has exactly the reference effect ClusterStep: it ends the cluster with that status and next index, or marks the option found and leaves the rest of the cluster to the next option |
| FlagParse.FlagContext.GetPargs | cbuild.h:5209-5211 | yields the positional arguments the parse collected |
| FlagParse.FlagContext.GetFlag | cbuild.h:5212-5223 | Some exactly when the first flag with that long option exists and was found, and then its arguments; aliases are not consulted |
| Numbers.DigitChar | CBuild/CBuild/src/cli_parser.cpp:315 | the digit character of a value below 10 is a digit that reads back as that value |
| Numbers.Decimal | CBuild/CBuild/src/cli_parser.cpp:315 | the numeral `std::to_string` gives a non-negative number is a non-empty run of digits without a leading zero |
| Numbers.DecimalValue | CBuild/CBuild/src/cli_parser.cpp:315 | reading the numeral of a number back gives that number |
| Numbers.DecimalInjective | CBuild/CBuild/src/cli_parser.cpp:315-324 | different numbers have different numerals, so the "a" and "pa" keys of different positions differ |
| Numbers.DigitRun | cbuild.h:4736 | the run of leading digits `atoi` reads: all digits, and followed by a non-digit when it stops early |
| Numbers.SpaceRun | cbuild.h:4736 | the run of leading white space `atoi` skips: all white space, followed by a non-space when it stops early |
| Numbers.AtoiDecimal | cbuild.h:4736 | `atoi` of a numeral followed by a non-digit is the number the numeral denotes |
| Paths.TailCopyLenAsWritten | cbuild.h:4237-4253 | the byte count handed to `memcpy` for the tail after index i is the string length minus i plus one |
| Paths.TailCopyOverreads | cbuild.h:4237-4256 | with that count the copy from `path + i + 1` ends one byte past the terminating NUL, for every path and split index |
| Paths.TailCopyLen | cbuild.h:4237-4240 | the corrected count copies the tail up to and including the NUL and no further |
| Paths.CopyTail | cbuild.h:4237-4240 | copying with the corrected count yields exactly the bytes after the split index |
| Paths.PathExt | cbuild.h:4222-4242 | "" for a path without '.', else exactly the bytes after the last '.', which contain no '.' and are preceded by that '.' |
| Paths.ScanEnd | cbuild.h:4245-4247 | the scan end skips exactly one trailing '/' |
| Paths.SplitPoint | cbuild.h:4245-4252 | the start of the last component: no '/' between it and the scan end, and a '/' (or the start of the path) just before it |
| Paths.ScanForSlash | cbuild.h:4244-4252 | the backward scan of name and base stops one before the start of the last component |
| Paths.PathName | cbuild.h:4243-4258 | the last component, non-empty, with no '/' except a trailing one the path had |
| Paths.PathBase | cbuild.h:4259-4283 | the directory part before the last component, "" or ending with '/' |
| Paths.BaseNameSplit | cbuild.h:4243-4283 | base followed by name is the whole path |
| Paths.WalkAllStep | cbuild.h:4300-4317 | the component walk is one visit of the component chopped at the next '/' followed by the walk of the rest |
| Paths.Root | cbuild.h:4293-4299 | one '/' is kept for an absolute path and a second one exactly for a path starting with "//" but not "///"; the root holds only '/' |
| Paths.Ups | cbuild.h:4306-4307 | k emitted "../" take 3k bytes |
| Paths.Finish | cbuild.h:4321-4324 | an empty text becomes "."; a trailing '/' is dropped unless the text is "/" or "//"; otherwise the text is kept |
| Paths.Normalize | cbuild.h:4289-4327 | a normalised path is never empty and ends in '/' only when it is "/" or "//" |
| Paths.WalkAllClean | cbuild.h:4300-4317 | the walk only ever stacks proper directory names (non-empty, no '/', not "." or "..") |
| Paths.NoDoubleSlashEnd | cbuild.h:4293-4324 | before the final trim the text ends in "//" only when it is the root "//" itself |
| Paths.PathNormalize | cbuild.h:4289-4327 | the imperative normalisation (root, do-while walk with the directory stack, join, final trim) yields exactly the normalised path |
| Paths.WalkComponents | cbuild.h:4300-4317 | the do-while loop emits one "../" per unmatched ".." and leaves exactly the walk's directory stack |
| Paths.ChopAndVisit | cbuild.h:4301-4316 | each pass chops one component, keeps the walk of the whole path unchanged and strictly shortens a non-empty rest |
| Paths.VisitDir | cbuild.h:4302-4316 | one component: "" and "." change nothing, ".." pops or emits "../" on an empty stack, any other name is pushed |
| Paths.AppendDirs | cbuild.h:4318-4320 | appends every stacked directory followed by '/' |
| Paths.FinishText | cbuild.h:4321-4324 | the closing steps compute exactly the final trim |
| Paths.WalkAllConcat | cbuild.h:4300-4317 | walking `a/b` is walking a and then b |
| Paths.WalkAllJoin | cbuild.h:4300-4317 | walking proper directory names joined by '/' pushes them all in order |
| Paths.NormalizeKeepsCleanPath | cbuild.h:4289-4327 | a relative path of proper directory names joined by single slashes is its own normal form |
| Paths.NormalizeDotDot | cbuild.h:4289-4327 | "d/../rest" normalises like "rest" for a proper directory name d and a relative rest |
| Paths.NormalizeSameWalk | cbuild.h:4289-4327 | the normal form depends only on the root and the component walk |
| Glob.TransformGlob | rglob.h:68-136 | the loop builds "^", the translation of every pattern byte in order, then "$" for glob syntax; a regex pattern is passed through; an unknown syntax gives "" |
| Glob.TransformByte | rglob.h:79-128 | one byte in the source's order of tests: after '#' copied raw, a leading '!' in brackets becomes '^', bracket bodies are copied, '#' escapes, '[' and ']' switch state, '*' and '?' become ".*" and ".", the nine specials get a backslash |
| Glob.RunAppend | rglob.h:78-130 | translating a concatenation is translating the first part and continuing from the state it ends in |
| Glob.RunSnoc | rglob.h:78-130 | one more pattern byte is one more turn of the loop |
| Glob.PlainCopied | rglob.h:122-128 | outside brackets, bytes without a meaning of their own are copied unchanged |
| Glob.ClassCopied | rglob.h:89-93 | inside brackets every byte up to ']' is copied verbatim |
| Glob.RunSingle | rglob.h:78-130 | a one-byte pattern is one turn of the loop |
| Glob.Wildcards | rglob.h:107-124 | '*' becomes ".*", '?' becomes "." and each of the nine specials is escaped with a backslash |
| Glob.EscapedRaw | rglob.h:79-98 | '#' emits nothing and the next byte is copied raw, whatever it is |
| Glob.BracketBody | rglob.h:84-93 | after '[' a leading '!' becomes '^' and the rest of the body is copied verbatim |
| Glob.BracketOpen | rglob.h:84-102 | '[' followed by a body is copied with a leading '!' turned into '^' |
| Glob.OpenThen | rglob.h:99-102 | after '[' the translation continues from the first-in-bracket state |
| Glob.Bracket | rglob.h:84-106 | a whole bracket expression is copied verbatim, a leading '!' turned into '^', and translation is back outside brackets after ']' |
| Glob.Matching | rglob.h:149-153 | the results are list elements the regex matches, each with its own index, in increasing index order |
| Glob.MatchingComplete | rglob.h:149-153 | every matching list element appears in the results |
| Glob.MatchingEmpty | rglob.h:149-154 | there are no results exactly when no list element matches |
| Glob.SelectMatches | rglob.h:149-153 | the result loop computes exactly the matching subsequence with indices |
| Glob.GlobT.constructor | rglob.h:63 | a zeroed `glob_t`: no results, no regex, not valid |
| Glob.GlobT.Glob | rglob.h:137-156 | an empty pattern gives GLOB_EMPTY_PAT and changes nothing; with GLOB_COMPILE a regcomp error is returned unchanged, otherwise the translated regex is kept and marked valid; then the results are exactly the matching elements and the code is GLOB_NOMATCH exactly when there are none |
| Glob.GlobT.GlobFree | rglob.h:157-162 | clears the results and the valid flag |
| Theme.Page.constructor | wiki/wikimk/script/theme.js:1-7 | a page starts with the given storage entry, no theme attribute, no caption and no listeners |
| Theme.Page.SetTheme | wiki/wikimk/script/theme.js:9-11 | sets the root's `data-theme` attribute to the theme and changes nothing else |
| Theme.Page.SystemThemeEvent | wiki/wikimk/script/theme.js:12-18 | only an absent or "system" entry makes the attribute follow the operating system's preference |
| Theme.Page.SetupTheme | wiki/wikimk/script/theme.js:40-52 | a stored "dark" or "light" is applied, "system" follows the OS, and anything else is replaced by "system" and follows the OS |
| Theme.Page.ToggleTheme | wiki/wikimk/script/theme.js:19-39 | an empty entry is set up; system goes to dark, dark to light, light to system (following the OS); a foreign entry is left alone |
| Theme.Page.SwitchButtonThemeText | wiki/wikimk/script/theme.js:53-67 | the caption names a known entry; for any other entry the caption is unchanged |
| Theme.Page.Click | wiki/wikimk/script/theme.js:71-72 | a click toggles, then relabels from the new entry, in the order the listeners were added |
| Theme.Page.LoadPageTheme | wiki/wikimk/script/theme.js:68-78 | installs the listeners and labels the button from the stored entry |
| Theme.Page.Boot | wiki/wikimk/script/theme.js:79-82 | after the script's top level and the load handler the entry and attribute agree, the button is labelled and the listeners are installed |
| Theme.SetupConsistent | wiki/wikimk/script/theme.js:40-52 | setting up makes any state consistent (a known entry and an applied colour that agrees with it) and keeps the entry or replaces it by "system" |
| Theme.SetupIdempotent | wiki/wikimk/script/theme.js:40-66 | setting up twice ends in the same entry and attribute as setting up once, and labelling the button again after it keeps the caption |
| Theme.ToggleKeepsConsistent | wiki/wikimk/script/theme.js:12-39 | toggles and preference changes keep a consistent state consistent |
| Theme.ToggleIgnoresOs | wiki/wikimk/script/theme.js:24-32 | the moves from system to dark and from dark to light do not consult the OS |
| Theme.SystemFollowsOs | wiki/wikimk/script/theme.js:33-37 | entering the "system" state shows the OS preference |
| Theme.ForeignEntryStays | wiki/wikimk/script/theme.js:24-38 | a toggle never touches an entry other than the three themes |
| Theme.FourToggles | wiki/wikimk/script/theme.js:19-52 | from empty storage four toggles store system, dark, light and system |
| Theme.ToggleCycle | wiki/wikimk/script/theme.js:24-38 | three toggles bring a known entry back to itself |
| Theme.ClickLabelsEntry | wiki/wikimk/script/theme.js:53-72 | after a click from a consistent state the caption names the stored entry |
| LibMap.FirstIndex | packages/deb/libcbuild/usr/include/CBuild/map.hpp:159-169 | the first entry with the key and none before it, or None exactly when no entry has the key |
| LibMap.LastIndex | packages/deb/libcbuild/usr/include/CBuild/map.hpp:248-259 | the last entry with the key and none after it, or None exactly when no entry has the key |
| LibMap.Without | packages/deb/libcbuild/usr/include/CBuild/map.hpp:242 | `vector::erase` at one position: one entry fewer, those before it unchanged and those after it shifted down by one |
| LibMap.Filter | packages/deb/libcbuild/usr/include/CBuild/map.hpp:405-411 | no longer than the input, every kept entry comes from the input and lacks the key, and every input entry without the key is kept |
| LibMap.Skipping | packages/deb/libcbuild/usr/include/CBuild/map.hpp:405-411 | what the as-written erase loop leaves is no longer than the input |
| LibMap.Map.constructor | packages/deb/libcbuild/usr/include/CBuild/map.hpp:87-89 | a new map is empty |
| LibMap.Map.FromList | packages/deb/libcbuild/usr/include/CBuild/map.hpp:99-104 | the initializer-list constructor holds exactly the listed entries in order |
| LibMap.Map.PushBack | packages/deb/libcbuild/usr/include/CBuild/map.hpp:111-113 | appends the entry without checking the key |
| LibMap.Map.PushBackCheck | packages/deb/libcbuild/usr/include/CBuild/map.hpp:129-133 | fails (the thrown error) exactly when the key is already present, and otherwise appends the entry; a failure changes nothing |
| LibMap.Map.PopBack | packages/deb/libcbuild/usr/include/CBuild/map.hpp:149-153 | on an empty map reports the `out_of_range` error and changes nothing; otherwise returns the last entry and removes it |
| LibMap.Map.Get | packages/deb/libcbuild/usr/include/CBuild/map.hpp:159-169 | the value of the first entry with the key, and None exactly when there is none |
| LibMap.Map.GetPtr | packages/deb/libcbuild/usr/include/CBuild/map.hpp:175-185 | the position of the first entry with the key, or None |
| LibMap.Map.ContainsKey | packages/deb/libcbuild/usr/include/CBuild/map.hpp:192-198 | true exactly when some entry has the key, that is when `get` finds one |
| LibMap.Map.Contains | packages/deb/libcbuild/usr/include/CBuild/map.hpp:205-211 | true exactly when some entry holds the value |
| LibMap.Map.Clear | packages/deb/libcbuild/usr/include/CBuild/map.hpp:215-217 | leaves the map empty |
| LibMap.Map.At | packages/deb/libcbuild/usr/include/CBuild/map.hpp:223-225 | the entry at an index inside the map, and the `out_of_range` error past the end (and its const overload at map.hpp:283-285) |
| LibMap.Map.RemoveIndex | packages/deb/libcbuild/usr/include/CBuild/map.hpp:239-243 | an index past the end changes nothing; otherwise exactly that entry is removed and the others keep their order |
| LibMap.Map.RemoveKey | packages/deb/libcbuild/usr/include/CBuild/map.hpp:248-259 | only the last entry with the key is removed, and nothing changes when there is none |
| LibMap.Map.Keys | packages/deb/libcbuild/usr/include/CBuild/map.hpp:264-270 | one key per entry, in insertion order |
| LibMap.Map.Size | packages/deb/libcbuild/usr/include/CBuild/map.hpp:275-277 | the number of entries |
| LibMap.Map.Empty | packages/deb/libcbuild/usr/include/CBuild/map.hpp:402-404 | true exactly when there are no entries |
| LibMap.Map.Plus | packages/deb/libcbuild/usr/include/CBuild/map.hpp:291-296 | a new map holding the entries and then the added one; the receiver is untouched |
| LibMap.Map.PlusAssign | packages/deb/libcbuild/usr/include/CBuild/map.hpp:302-308 | appends the entry and returns a fresh copy of the new contents |
| LibMap.Map.AssignEntry | packages/deb/libcbuild/usr/include/CBuild/map.hpp:350-354 | the map then holds that single entry |
| LibMap.Map.Equals | packages/deb/libcbuild/usr/include/CBuild/map.hpp:360-368 | true exactly when both maps hold the same entries in the same order |
| LibMap.Map.EraseAsWritten | packages/deb/libcbuild/usr/include/CBuild/map.hpp:405-411 | the loop as written leaves exactly what the skipping walk leaves: the entry after each erased one is not examined |
| LibMap.Map.SkipVisit | packages/deb/libcbuild/usr/include/CBuild/map.hpp:406-410 | one pass of that loop keeps the skipping walk of the whole map unchanged and moves the index on |
| LibMap.Map.Erase | packages/deb/libcbuild/usr/include/CBuild/map.hpp:405-411 | the corrected loop leaves exactly the entries without the key, in order |
| LibMap.FilterStep | packages/deb/libcbuild/usr/include/CBuild/map.hpp:406-410 | one visit of the corrected loop: an entry with the key is dropped, any other is kept in front of the rest |
| LibMap.SkippingStep | packages/deb/libcbuild/usr/include/CBuild/map.hpp:406-410 | one visit of the as-written loop: an entry with the key is dropped and its successor is kept unexamined |
| LibMap.FirstIndexAppend | packages/deb/libcbuild/usr/include/CBuild/map.hpp:159-169 | after an append a present key is found where it was, a new key is found at the end, and other keys are still missing (after `push_back`, map.hpp:111-113) |
| LibMap.UniqueAfterCheckedPush | packages/deb/libcbuild/usr/include/CBuild/map.hpp:129-133 | a checked push keeps the keys unique |
| LibMap.UniqueFirstIsLast | packages/deb/libcbuild/usr/include/CBuild/map.hpp:248-259 | with unique keys `remove(key)` takes the entry `get` finds (`get` at map.hpp:159-169) |
| LibMap.SkippingKeepsAdjacent | packages/deb/libcbuild/usr/include/CBuild/map.hpp:405-411 | the as-written erase of a key held by two adjacent entries keeps the second one |
| LibMap.FilterRemovesAll | packages/deb/libcbuild/usr/include/CBuild/map.hpp:405-411 | after the corrected erase no entry has the key, and a map without the key is unchanged |
| Hasher.Widen | packages/deb/libcbuild/usr/include/CBuild/hasher/hasher.hpp:44 | `(uint64_t)c` on a signed `char`: a byte below 0x80 is unchanged and one from 0x80 is sign-extended, always a 64-bit value |
| Hasher.DjbStep | packages/deb/libcbuild/usr/include/CBuild/hasher/hasher.hpp:44 | one step of djb2 stays a 64-bit value |
| Hasher.HashDjb2 | packages/deb/libcbuild/usr/include/CBuild/hasher/hasher.hpp:41-47 | the loop computes the djb2 fold of the string from 5381, a 64-bit value |
| Hasher.HashFnv1a | packages/deb/libcbuild/usr/include/CBuild/hasher/hasher.hpp:54-61 | the loop computes the FNV-1a fold of the string from the 64-bit offset basis, with the xor and the wrapping multiplication by the prime |
| Hasher.DjbFoldBound | packages/deb/libcbuild/usr/include/CBuild/hasher/hasher.hpp:41-47 | folding from a 64-bit value always yields a 64-bit value |
| Hasher.DjbFoldAppend | packages/deb/libcbuild/usr/include/CBuild/hasher/hasher.hpp:43-45 | the djb2 hash of a concatenation continues from the hash of the first part |
| Hasher.FnvFoldAppend | packages/deb/libcbuild/usr/include/CBuild/hasher/hasher.hpp:56-59 | the FNV-1a hash of a concatenation continues from the hash of the first part |
| Hasher.Djb2Snoc | packages/deb/libcbuild/usr/include/CBuild/hasher/hasher.hpp:41-47 | the empty string hashes to 5381 and one more byte is one more step |
| Hasher.Fnv1aSnoc | packages/deb/libcbuild/usr/include/CBuild/hasher/hasher.hpp:54-61 | the empty string hashes to the offset basis and one more byte is one more step |
| Hasher.HighByteSignExtended | packages/deb/libcbuild/usr/include/CBuild/hasher/hasher.hpp:44 | a byte from 0x80 enters djb2 as its value plus 2^64 - 256, modulo 2^64 |
| Metadata.GetLine | CBuild/CBuild/src/metadata_file.cpp:44 | `std::getline` on a failed stream changes nothing; on a good stream it consumes at least one byte or fails the stream |
| Metadata.LineLenOf | CBuild/CBuild/src/metadata_file.cpp:44 | the line read from a text starting with a line without '\n' is that line |
| Metadata.ReadLine | CBuild/CBuild/src/metadata_file.cpp:44 | one `getline` call computes exactly the stream model's next line and state |
| Metadata.Data | CBuild/CBuild/src/metadata_file.cpp:40 | reading the file up to its first NUL gives the whole text of a file without NUL |
| Metadata.ReadUntil | CBuild/CBuild/src/metadata_file.cpp:52-113 | the corrected list loop only adds lines, and it ends also when the stream fails |
| Metadata.AsWrittenSpins | CBuild/CBuild/src/metadata_file.cpp:53-56 | once the stream has failed on a line other than the terminator, the loop as written never ends, for any number of turns |
| Metadata.AsWrittenAgrees | CBuild/CBuild/src/metadata_file.cpp:53-56 | whenever the loop as written ends, the corrected loop ends with the same result |
| Metadata.NoEndDepsSpins | CBuild/CBuild/src/metadata_file.cpp:49-56 | a record that stops right after the "DEPS" line fails the stream, and the as-written deps loop then turns forever |
| Metadata.StrToULL | CBuild/CBuild/src/metadata_file.cpp:61 | `strtoull` on the hash line stays within 64 bits |
| Metadata.StripExt | CBuild/CBuild/src/metadata_file.cpp:168-169 | removing the extension keeps a prefix of the name, ending just before the last '.', with no '.' after the cut; a name without '.' is kept whole |
| Metadata.Dotted | CBuild/CBuild/src/metadata_file.cpp:171-173 | same length, and every '/' replaced by '.' while every other byte is kept |
| Metadata.ReplaceSlashes | CBuild/CBuild/src/metadata_file.cpp:171-173 | the replace loop computes exactly the dotted name |
| Metadata.SharedMetadataPath | CBuild/CBuild/src/metadata_file.cpp:166-176 | two sources whose dotted names without extension agree share one metadata file |
| Metadata.DistinctSourcesCollide | CBuild/CBuild/src/metadata_file.cpp:166-176 | "src/a.c" and "src.a.cpp" get the same metadata file |
| Metadata.LinesAppend | CBuild/CBuild/src/metadata_file.cpp:126-133 | streaming two lists of lines one after the other is streaming their concatenation |
| Metadata.LinesFree | CBuild/CBuild/src/metadata_file.cpp:126-133 | streaming lines that hold no byte c (other than '\n') produces no c |
| Metadata.GetLineOf | CBuild/CBuild/src/metadata_file.cpp:44 | reading a line ending in '\n' gives the line and leaves the stream good after it |
| Metadata.GetLineLines | CBuild/CBuild/src/metadata_file.cpp:44 | reading from streamed lines gives the first line and leaves the remaining lines |
| Metadata.ReadUntilStep | CBuild/CBuild/src/metadata_file.cpp:53-56 | a loop turn away from the terminator keeps the line and reads the next one |
| Metadata.Section | CBuild/CBuild/src/metadata_file.cpp:52-56 | a section of clean lines followed by its terminator is read whole, leaving the stream good after the terminator |
| Metadata.FreeTail | CBuild/CBuild/src/metadata_file.cpp:126-133 | the tail of a list with no byte c has none, nor has its head |
| Metadata.FreeClean | CBuild/CBuild/src/metadata_file.cpp:52-56 | lines without '\n' of which none is the terminator are clean section lines |
| Metadata.NoEndSection | CBuild/CBuild/src/metadata_file.cpp:52-56 | a section that never reaches its terminator is rejected by the corrected loop |
| Metadata.HashReadBack | CBuild/CBuild/src/metadata_file.cpp:58-61 | the written hash line starts and ends with a digit and `strtoull` reads the hash back (written at metadata_file.cpp:133) |
| Metadata.HashSection | CBuild/CBuild/src/metadata_file.cpp:57-62 | the hash line of a record is read back as its hash with status 0 |
| Metadata.DepsSection | CBuild/CBuild/src/metadata_file.cpp:52-57 | the deps section adds exactly its lines and goes on to the hash line |
| Metadata.DepsThen | CBuild/CBuild/src/metadata_file.cpp:52-57 | after the deps loop the reader goes on to the hash line from where the loop stopped |
| Metadata.FileHeads | CBuild/CBuild/src/metadata_file.cpp:44-51 | the source and object lines are stored and a "DEPS" line lets the reader go on |
| Metadata.KeywordsFree | CBuild/CBuild/src/metadata_file.cpp:128-153 | the section keywords hold neither '\n' nor NUL |
| Metadata.FreeAppend | CBuild/CBuild/src/metadata_file.cpp:126-133 | a concatenation has no byte c exactly when both parts have none |
| Metadata.DigitsNoNul | CBuild/CBuild/src/metadata_file.cpp:133 | a numeral holds no NUL |
| Metadata.WritableParts | CBuild/CBuild/src/metadata_file.cpp:122-136 | the fields of a writable record hold no '\n', and its written text holds no NUL |
| Metadata.FileTextSplit | CBuild/CBuild/src/metadata_file.cpp:126-133 | the text of a record splits into the head lines, the deps section and the hash line |
| Metadata.FileRoundTrip | CBuild/CBuild/src/metadata_file.cpp:32-136 | reading back a written record whose fields hold no '\n' or NUL, no dep equal to "ENDDEPS" and a 64-bit hash gives status 0 and that record |
| Metadata.MissingEndDepsRejected | CBuild/CBuild/src/metadata_file.cpp:32-63 | with the corrected loop a record whose deps never reach "ENDDEPS" gives -3 |
| Metadata.HeadsAndDeps | CBuild/CBuild/src/metadata_file.cpp:40-56 | the text of head lines and deps without NUL is read whole and splits at the "DEPS" line |
| Metadata.DepsNoEnd | CBuild/CBuild/src/metadata_file.cpp:52-60 | with the corrected dependency loop, deps lines that never reach "ENDDEPS" give -3, where the loop as written never returns |
| Metadata.WritableTargetParts | CBuild/CBuild/src/metadata_file.cpp:137-156 | the fields of a writable target record hold no '\n', and its written text holds no NUL |
| Metadata.TargetTextSplit | CBuild/CBuild/src/metadata_file.cpp:140-153 | the text of a target record splits into the tool lines, the compiler-argument section, "LARGS" and the linker-argument section |
| Metadata.TargetHeads | CBuild/CBuild/src/metadata_file.cpp:88-99 | the four tool lines are stored and a "CARGS" line lets the reader go on |
| Metadata.CArgsSection | CBuild/CBuild/src/metadata_file.cpp:100-108 | the compiler-argument section adds exactly its lines and goes on to the "LARGS" line |
| Metadata.LArgsSection | CBuild/CBuild/src/metadata_file.cpp:106-114 | the "LARGS" line and a clean linker-argument section give status 0 and add exactly its lines |
| Metadata.SectionAtEnd | CBuild/CBuild/src/metadata_file.cpp:109-113 | a section that ends the text is read whole |
| Metadata.LArgsThen | CBuild/CBuild/src/metadata_file.cpp:106-114 | after "LARGS" the reader returns what its corrected loop gives: 0 when the terminator was reached, and -3 when the text ends first, where the source's loop never ends (see "## Findings") |
| Metadata.TargetRoundTrip | CBuild/CBuild/src/metadata_file.cpp:75-156 | reading back a written target record whose fields hold no '\n' or NUL and no argument equals a terminator gives status 0 and that record |
| Metadata.CleanTargetRoundTrip | CBuild/CBuild/src/metadata_file.cpp:75-156 | the same round trip stated on clean argument sections |
| Metadata.TargetArgs | CBuild/CBuild/src/metadata_file.cpp:100-114 | the two argument sections of a written target record are read back exactly |
| Metadata.MissingEndCArgsRejected | CBuild/CBuild/src/metadata_file.cpp:75-104 | with the corrected loop a target record whose compiler arguments never reach "ENDCARGS" gives -3 |
| Metadata.MissingEndLArgsRejected | CBuild/CBuild/src/metadata_file.cpp:75-114 | with the corrected loops a target record whose linker arguments never reach "ENDLARGS" gives -3 |
| Metadata.LArgsNoEnd | CBuild/CBuild/src/metadata_file.cpp:100-114 | a clean compiler-argument section followed by linker arguments without "ENDLARGS" gives -3 under the corrected loop |
| Metadata.NoEndCArgsSpins | CBuild/CBuild/src/metadata_file.cpp:96-104 | a target record that stops right after "CARGS" fails the stream; the as-written compiler-argument loop then turns forever, and the corrected reader gives -3 |
| Metadata.NoEndLArgsSpins | CBuild/CBuild/src/metadata_file.cpp:105-113 | a target record with no compiler arguments that stops right after "LARGS" fails the stream; the as-written linker-argument loop then turns forever, and the corrected reader gives -3 |
| Metadata.Store.constructor | CBuild/CBuild/src/metadata_file.cpp:33 | the store holds the given files under the given metadata folder and extension |
| Metadata.Store.GetFileMetadataPath | CBuild/CBuild/src/metadata_file.cpp:166-176 | the imperative path builder yields exactly the metadata path of the source |
| Metadata.Store.ReadFileMetadataInternal | CBuild/CBuild/src/metadata_file.cpp:32-74 | a missing file gives -1 and leaves the record alone; an existing one gives exactly the status and record of parsing its text with the corrected dependency loop, which gives -3 where the source's loop never returns |
| Metadata.Store.ReadFileMetadata | CBuild/CBuild/src/metadata_file.cpp:65-69 | reads the record at the metadata path of the source, with the corrected dependency loop |
| Metadata.Store.ReadTargetMetadata | CBuild/CBuild/src/metadata_file.cpp:75-115 | a missing file gives -1, an existing one exactly the status and record of parsing its text with the corrected argument loops, which give -3 where the source's loops never end (see "## Findings") |
| Metadata.Store.ReadFileHash | CBuild/CBuild/src/metadata_file.cpp:116-121 | the status of reading the record with the corrected dependency loop, and its hash; a missing file leaves the hash as it was |
| Metadata.Store.WriteFileMetadata | CBuild/CBuild/src/metadata_file.cpp:122-136 | the metadata path of the source then holds exactly the record's text, other files are untouched, and the status is 0 |
| Metadata.Store.WriteTargetMetadata | CBuild/CBuild/src/metadata_file.cpp:137-156 | the target's metadata path then holds exactly the target record's text, and the status is 0 |
| Metadata.Store.WriteFileHash | CBuild/CBuild/src/metadata_file.cpp:157-165 | a missing or unreadable record (one without "ENDDEPS" included, by the corrected dependency loop) returns its status and writes nothing; otherwise the record is rewritten with only the hash changed |
| Metadata.WriteHashKeepsRecord | CBuild/CBuild/src/metadata_file.cpp:157-165 | rewriting a writable record with a new 64-bit hash reads back as the same record with that hash |
| Generator.Escape | CBuild/CBuild/src/generator.cpp:151-178 | the eight JSON-special characters become a backslash and their letter, every other character is kept |
| Generator.EscapeJson | CBuild/CBuild/src/generator.cpp:148-182 | the escaped text holds none of backspace, form feed, \n, \r or \t raw |
| Generator.PreprocessJsonStr | CBuild/CBuild/src/generator.cpp:148-182 | the loop computes exactly the escaped text |
| Generator.EscapeJsonAppend | CBuild/CBuild/src/generator.cpp:150-180 | escaping a concatenation is escaping each part |
| Generator.EscapeJsonLength | CBuild/CBuild/src/generator.cpp:148-182 | the escaped text is longer by one byte per special character |
| Generator.OthersCopied | CBuild/CBuild/src/generator.cpp:176-178 | a text without special characters is copied unchanged |
| Generator.UnescapeEscape | CBuild/CBuild/src/generator.cpp:148-182 | a JSON string decoder (section 7 of RFC 8259) gets the original text back from the escaped one |
| Generator.EvalCmd | CBuild/CBuild/src/generator.cpp:112-120 | the command is the compiler, " -c ", the file, " ", the arguments, " -o " and the object, in that order and nothing else |
| Generator.RecipeAppend | CBuild/CBuild/src/generator.cpp:92-94 | the recipe of a longer log extends the recipe of a shorter one |
| Generator.RecipeLength | CBuild/CBuild/src/generator.cpp:92-94 | each logged command is one recipe line, a tab and a newline longer than the command |
| Generator.ModeNamesCollide | CBuild/CBuild/src/generator.cpp:56-88 | a BUILD of toolchain "run_x" and a BUILD_RUN of toolchain "x" name the Makefile target alike |
| Generator.NameTellsId | CBuild/CBuild/src/generator.cpp:56-88 | within one mode the target name determines the id part |
| Generator.MakefileOut.constructor | CBuild/CBuild/src/generator.cpp:47 | a Makefile with the given presence and text |
| Generator.MakefileOut.Generate | CBuild/CBuild/src/generator.cpp:41-98 | the file exists afterwards and is extended by exactly one target, named by the mode prefix and the toolchain id, task id or random name, whose recipe is the command log, and a blank line |
| Generator.MakefileOut.AppendRecipe | CBuild/CBuild/src/generator.cpp:92-94 | the loop appends one tab-indented line per logged command |
| Generator.Commands | CBuild/CBuild/src/generator.cpp:216-223 | one compile entry per (source, object) pair |
| Generator.CommandDecodes | CBuild/CBuild/src/generator.cpp:216-246 | the command text of every entry decodes back to the evaluated compile command of its pair, and the entry names its source |
| Generator.CcjOut.constructor | CBuild/CBuild/src/generator.cpp:230 | a compile_commands.json with the given presence and text |
| Generator.CcjOut.Generate | CBuild/CBuild/src/generator.cpp:190-251 | the generator goes on exactly in a BUILD run of a toolchain other than "all"; otherwise nothing changes; a new file holds "[", the entries and "]" |
| Generator.BuildCommands | CBuild/CBuild/src/generator.cpp:216-223 | the loop builds exactly the entry list |
| Generator.WriteEntries | CBuild/CBuild/src/generator.cpp:235-250 | the loop writes exactly the entries, the first opened with "{" and the others with ",\n{\n" |
| Register.Pending | CBuild/CBuild/src/register.cpp:308-312 | the toolchains `ToolchainAll` runs are registered ones whose flag was false |
| Register.PendingStep | CBuild/CBuild/src/register.cpp:308-312 | one more position of the loop adds that toolchain exactly when its flag was false |
| Register.MarkAllStep | CBuild/CBuild/src/register.cpp:308-312 | one more position of the loop sets that toolchain's flag and keeps the flags of the others |
| Register.MarkAllKeeps | CBuild/CBuild/src/register.cpp:306-328 | a toolchain the loop does not reach keeps its flag |
| Register.MarkAllFlags | CBuild/CBuild/src/register.cpp:306-328 | after the loop every registered toolchain is flagged and no flag is added or lost |
| Register.DepsFirstJoin | CBuild/CBuild/src/register.cpp:205-207 | two runs of calls in which every task follows its requirements join into one such run |
| Register.DepsFirstSnoc | CBuild/CBuild/src/register.cpp:205-211 | calling a task after its requirements extends a run in which every task follows its requirements |
| Register.AllCalledStep | CBuild/CBuild/src/register.cpp:205-207 | after the call of one more requirement all requirements so far have run |
| Register.DepsBeforeOf | CBuild/CBuild/src/register.cpp:203-207 | with unique task names, the requirements of a task found by name are those that ran |
| Register.SpacedSnoc | CBuild/CBuild/src/register.cpp:290-293 | one more argument appends it and a space to the packed list |
| Register.UntilSpace | CBuild/CBuild/src/register.cpp:286-305 | the count stops at the first space and no space precedes it |
| Register.WordsSpaced | CBuild/CBuild/src/register.cpp:286-305 | arguments without spaces are read back from the packed list unchanged |
| Register.UntilSpaceOf | CBuild/CBuild/src/register.cpp:290-293 | a packed argument without a space is read back to its own length |
| Register.SpaceSplitsArgument | CBuild/CBuild/src/register.cpp:290-293 | an argument holding a space is read back as two arguments |
| Register.TaskRegistered | CBuild/CBuild/src/register.cpp:182-194 | registering a new name with a false flag keeps names unique and every name flagged |
| Register.TaskRunFresh | CBuild/CBuild/src/register.cpp:195-215 | the tasks one CallTask runs are registered, had not run, appear once each and rank no higher than the task; the run is empty exactly when the task is missing or has run, and otherwise ends with the task |
| Register.ReqRunFresh | CBuild/CBuild/src/register.cpp:205-207 | the tasks the requirement loop runs are registered, had not run, appear once each and rank below the requiring task |
| Register.TaskRan | CBuild/CBuild/src/register.cpp:209-211 | running a task whose flag was false and setting the flag keeps each task run at most once |
| Register.TargetRegistered | CBuild/CBuild/src/register.cpp:216-229 | registering a new toolchain with a false flag keeps ids unique and every id flagged |
| Register.TargetRan | CBuild/CBuild/src/register.cpp:309-316 | setting a toolchain's flag, and running it when the flag was false, keeps each toolchain run at most once |
| Register.UniqueKeysAt | packages/deb/libcbuild/usr/include/CBuild/map.hpp:129-133 | in a map filled only by checked pushes two entries with the same key are one |
| Register.RegisteredStep | CBuild/CBuild/src/register.cpp:161-181 | registering one more system keyword keeps the ones before and registers it and its task |
| Register.Registry.constructor | CBuild/CBuild/src/register.cpp:142-157 | the registry starts empty, with the rebuild name "CBuild.run" |
| Register.Registry.RegisterTask | CBuild/CBuild/src/register.cpp:182-194 | a new name is appended with a false flag; a name already registered is rejected and nothing changes |
| Register.Registry.CallTask | CBuild/CBuild/src/register.cpp:195-215 | the calls made are exactly the post-order TaskRun: for a registered task that has not run, what each required task runs, in list order, then the task itself; a missing or already-run task changes nothing; exactly the flags of the tasks run turn on; every task runs after the registered tasks it requires; no task runs twice |
| Register.Registry.CallRequired | CBuild/CBuild/src/register.cpp:205-207 | the loop over the required tasks makes exactly the calls ReqRun describes, each ranked below the task, and leaves every registered requirement run |
| Register.Registry.CallTaskFinish | CBuild/CBuild/src/register.cpp:209-211 | a task runs once, after its requirements, and its flag is set |
| Register.Registry.RegisterTarget | CBuild/CBuild/src/register.cpp:216-229 | a new id is appended with a false flag; a duplicate is rejected and nothing changes |
| Register.Registry.GetToolchain | CBuild/CBuild/src/register.cpp:230-253 | without force a toolchain is handed out once, when registered and not yet flagged, and is then flagged; with force any registered toolchain is returned and no flag changes |
| Register.Registry.RegisterKeyword | CBuild/CBuild/src/register.cpp:258-268 | the keyword is added when new and its task is registered when new; duplicates change nothing |
| Register.Registry.GetKeywordsList | CBuild/CBuild/src/register.cpp:269-272 | the keywords in registration order |
| Register.Registry.SetRebuildName | CBuild/CBuild/src/register.cpp:274-277 | the rebuild name becomes the given one |
| Register.Registry.AddLinkArg | CBuild/CBuild/src/register.cpp:278-281 | the link argument is appended |
| Register.Registry.AddCompileArg | CBuild/CBuild/src/register.cpp:282-285 | the compile argument is appended |
| Register.Registry.GetRebuildArgs | CBuild/CBuild/src/register.cpp:286-305 | the compile and link arguments, each followed by a space, inside two quoted lists, then the executable name |
| Register.Registry.ToolchainAll | CBuild/CBuild/src/register.cpp:306-328 | exactly the toolchains not yet flagged run, in registration order, and afterwards every toolchain is flagged |
| Register.Registry.BuildAt | CBuild/CBuild/src/register.cpp:308-316 | one pass of the loop runs that toolchain if its flag was false and sets its flag |
| Register.Registry.GetGenerator | CBuild/CBuild/src/register.cpp:329-335 | the generator when registered, none otherwise |
| Register.Registry.RegisterGenerator | CBuild/CBuild/src/register.cpp:336-344 | a new id is appended; a duplicate changes nothing |
| Register.Registry.GetGeneratorsList | CBuild/CBuild/src/register.cpp:345-351 | the generator ids in registration order |
| Register.Registry.GetToolchainsList | CBuild/CBuild/src/register.cpp:352-358 | the toolchain ids in registration order |
| Register.Registry.GetTasksList | CBuild/CBuild/src/register.cpp:359-365 | task names in registration order |
| Register.Registry.Init | CBuild/CBuild/src/register.cpp:161-181 | every system keyword and its task are registered, and the "make" and "ccj" generators |
| CliParser.HasFirst | packages/deb/libcbuild/usr/include/CBuild/map.hpp:159-169 | the key is present exactly when a lookup finds its first entry |
| CliParser.KeywordFirst | CBuild/CBuild/src/cli_parser.cpp:374-375 | a token names a keyword exactly when the keyword list holds it, and it yields the name stored in its first entry |
| CliParser.InsertKeeps | packages/deb/libcbuild/usr/include/CBuild/map.hpp:129-133 | a checked push keeps every earlier entry, leaves the key present, keeps the first value of a key already stored, stores the value of a new key and keeps keys unique |
| CliParser.StepAt | CBuild/CBuild/src/cli_parser.cpp:364-392 | a handler that goes on consumes one or two tokens, and two only when the operand token exists |
| CliParser.LoopUnfold | CBuild/CBuild/src/cli_parser.cpp:364-393 | the parse from a token is that token's handler followed by the parse from the token it leaves the pointer at, or the exit or crash it ends in |
| CliParser.TaskNames | CBuild/CBuild/src/register.cpp:359-365 | task names in registration order |
| CliParser.ParseArgs | CBuild/CBuild/src/cli_parser.cpp:355-395 | for the handlers as written or corrected: `init` adds the system keywords with their tasks and the "make" and "ccj" generators, leaves the toolchains, their flags, the calls and the builds unchanged, and the outcome is that version's parse over the registry's generators, toolchains, tasks and keywords |
| CliParser.RunLoop | CBuild/CBuild/src/cli_parser.cpp:359-394 | for the handlers as written or corrected, the loop from the first token after the program name computes that version's parse outcome |
| CliParser.Advance | CBuild/CBuild/src/cli_parser.cpp:365-392 | for either version of the handlers, one turn moves the pointer forward without changing the outcome of the parse, or yields its exit or crash |
| CliParser.InsertChecked | CBuild/CBuild/src/cli_parser.cpp:159-253 | storing a value the handler checked keeps earlier entries, unique keys and every stored generator, toolchain and task registered |
| CliParser.CounterKeysFree | CBuild/CBuild/src/cli_parser.cpp:312-327 | the keys of `-a` and `-pa` operands are never a generator, toolchain or task key |
| CliParser.StepKeeps | CBuild/CBuild/src/cli_parser.cpp:364-392 | one handler keeps every earlier entry, unique keys and checked values |
| CliParser.ArgKeys | CBuild/CBuild/src/cli_parser.cpp:312-327 | the numbered keys of `-a` and `-pa` are allowed in every registry |
| CliParser.LoopKeeps | CBuild/CBuild/src/cli_parser.cpp:364-394 | a parse that ends keeps every entry it started with, unique keys and only registered generators, toolchains and tasks |
| CliParser.CorrectedNeverCrashes | CBuild/CBuild/src/cli_parser.cpp:149-296 | with the operand checks corrected no command line reads past the last token or throws |
| CliParser.NoTokens | CBuild/CBuild/src/cli_parser.cpp:359-395 | a command line without tokens after the program name parses to an error run and leaves the arguments unchanged |
| CliParser.ArgAlwaysExits | CBuild/CBuild/src/cli_parser.cpp:305-311 | as written, every `-a` and `-pa` exits with status 255 |
| CliParser.ArgParseExits | CBuild/CBuild/src/cli_parser.cpp:305-311 | as written, the whole parse of `cbuild -a x` exits with status 255, whatever the registry holds |
| CliParser.ArgStored | CBuild/CBuild/src/cli_parser.cpp:321-327 | corrected, `-a x` stores x under "a" and the counter and increments the counter |
| CliParser.PaStored | CBuild/CBuild/src/cli_parser.cpp:313-319 | corrected, `-pa x` stores x under "pa" and the counter and increments the counter |
| CliParser.LastOperandMissing | CBuild/CBuild/src/cli_parser.cpp:149-227 | a `-g` or build flag as the last token reads past the end as written, and exits with status 255 corrected |
| CliParser.SecondTask | CBuild/CBuild/src/cli_parser.cpp:284-296 | a `-t` after a task is already set throws as written, and keeps the first task corrected |
| CliParser.SecondOutLast | CBuild/CBuild/src/cli_parser.cpp:137-146 | `-v` as the last token after the mode is already set reads past the end as written, and keeps the first mode corrected |
| CliParser.TaskTwiceRun | CBuild/CBuild/src/cli_parser.cpp:284-296 | `-t x -t x` throws as written, and corrected runs task x |
| CliParser.ArgsNumbered | CBuild/CBuild/src/cli_parser.cpp:298-335 | `-a x -pa y -a z` stores a0, pa0 and a1 in order, each counter counting its own flag |
| CliParser.ArgsNumberedSteps | CBuild/CBuild/src/cli_parser.cpp:298-335 | the three handler calls of `-a x -pa y -a z` and the entries each adds |
| CliParser.FirstArg | CBuild/CBuild/src/cli_parser.cpp:321-327 | the first `-a` stores under "a0" |
| CliParser.SecondArg | CBuild/CBuild/src/cli_parser.cpp:313-319 | the first `-pa` stores under "pa0" while the `-a` counter stays at one |
| CliParser.ThirdArg | CBuild/CBuild/src/cli_parser.cpp:321-327 | the second `-a` stores under "a1" |
| CliParser.AsMap | packages/deb/libcbuild/usr/include/CBuild/map.hpp:159-169 | the map reading gives each stored key the value of its first entry |
| CBuildHash.KeySet | packages/deb/libcbuild/usr/include/CBuild/map.hpp:192-198 | the keys of the map: every stored key, each found by a lookup |
| CBuildHash.Lookup | packages/deb/libcbuild/usr/include/CBuild/map.hpp:159-169 | a lookup finds a value exactly when the key is stored, and it is the value of the key's first entry |
| CBuildHash.MismatchSound | CBuild/CBuild/src/cbuild_hash.cpp:133-166 | a reported mismatch comes from a changed file reached through a chain of includes that visits no file twice |
| CBuildHash.MismatchComplete | CBuild/CBuild/src/cbuild_hash.cpp:133-166 | every changed file reached through such a chain of includes is reported as a mismatch |
| CBuildHash.ChainCons | CBuild/CBuild/src/cbuild_hash.cpp:151-163 | an include leading to a chain of includes that ends at a changed file is such a chain one step longer |
| CBuildHash.FeedsCons | CBuild/CBuild/src/cbuild_hash.cpp:151-163 | an include placed in front of a chain that ends at a changed file gives a chain that ends at the same file |
| CBuildHash.SimpleCons | CBuild/CBuild/src/cbuild_hash.cpp:151-163 | a name off the path in front of names that avoid it keeps the chain free of repeats |
| CBuildHash.FeedsTail | CBuild/CBuild/src/cbuild_hash.cpp:151-163 | the rest of a chain from its first include is again a chain that ends at the changed file |
| CBuildHash.TailFeeds | CBuild/CBuild/src/cbuild_hash.cpp:151-163 | each link of the rest of a chain is an include whose metadata is stored |
| CBuildHash.TailChanged | CBuild/CBuild/src/cbuild_hash.cpp:135-150 | the rest of a chain ends at the same changed file |
| CBuildHash.SimpleTail | CBuild/CBuild/src/cbuild_hash.cpp:151-163 | the rest of a chain without repeats avoids its first name |
| CBuildHash.DepsSound | CBuild/CBuild/src/cbuild_hash.cpp:151-164 | a mismatch found in the include loop comes from one include, off the path, whose stored header or source metadata mismatches |
| CBuildHash.DepsFrom | CBuild/CBuild/src/cbuild_hash.cpp:151-164 | one include off the path whose header or source metadata mismatches makes the include loop report a mismatch |
| CBuildHash.ChangedMismatches | CBuild/CBuild/src/cbuild_hash.cpp:135-150 | a file without old metadata, or with a different object, hash or include list, mismatches, both as written and corrected |
| CBuildHash.CycleLookups | CBuild/CBuild/src/cbuild_hash.cpp:151-163 | in two headers that include each other each name finds its header and no source |
| CBuildHash.CycleNeverEnds | CBuild/CBuild/src/cbuild_hash.cpp:133-166 | as written, the check of two unchanged headers that include each other never returns, at any recursion depth |
| CBuildHash.CycleCorrected | CBuild/CBuild/src/cbuild_hash.cpp:133-166 | corrected, the same two headers report no mismatch |
| CBuildHash.AsWrittenNoMismatch | CBuild/CBuild/src/cbuild_hash.cpp:133-166 | when the check as written returns no mismatch, the corrected check reports none either, whatever the path |
| CBuildHash.DepsAsWrittenNoMismatch | CBuild/CBuild/src/cbuild_hash.cpp:151-164 | when the include loop as written returns no mismatch, the corrected loop reports none either |
| CBuildHash.AsWrittenChain | CBuild/CBuild/src/cbuild_hash.cpp:133-166 | a mismatch returned as written comes from a changed file reached through a chain of includes, perhaps with repeated names |
| CBuildHash.DepsAsWrittenFound | CBuild/CBuild/src/cbuild_hash.cpp:151-164 | a mismatch returned by the include loop as written comes from one include whose stored header or source metadata mismatches as written |
| CBuildHash.CutChain | CBuild/CBuild/src/cbuild_hash.cpp:151-163 | cutting a chain between two visits of the same name leaves a chain to the same changed file |
| CBuildHash.ShortenChain | CBuild/CBuild/src/cbuild_hash.cpp:133-166 | every chain of includes to a changed file shortens to one that visits no file twice |
| CBuildHash.MismatchAsWrittenAgrees | CBuild/CBuild/src/cbuild_hash.cpp:133-166 | whenever the check as written returns, at any recursion depth, its answer is the corrected check's answer |
| CBuildHash.ElemsSnoc | CBuild/CBuild/src/cbuild_hash.cpp:77-93 | one more include adds its name to the set of includes |
| CBuildHash.KeySetSnoc | packages/deb/libcbuild/usr/include/CBuild/map.hpp:111-113 | a pushed entry adds its key to the keys |
| CBuildHash.UniqueSnoc | packages/deb/libcbuild/usr/include/CBuild/map.hpp:129-133 | pushing a new key keeps keys unique |
| CBuildHash.Insert | CBuild/CBuild/src/cbuild_hash.cpp:87-90 | a checked push whose exception is ignored: a new key is appended, a stored key leaves the map unchanged, and keys stay unique |
| CBuildHash.QueueAll | CBuild/CBuild/src/cbuild_hash.cpp:77-93 | every include is queued for parsing, the queue only grows and keeps unique keys |
| CBuildHash.QueueAllStep | CBuild/CBuild/src/cbuild_hash.cpp:84-91 | one more include queues it if it is new |
| CBuildHash.Mark | CBuild/CBuild/src/cbuild_hash.cpp:185 | flagging a queued header parsed changes that entry only and keeps the keys |
| CBuildHash.SameKeys | CBuild/CBuild/src/cbuild_hash.cpp:182-186 | entries with the same keys in the same positions give the same key set and uniqueness |
| CBuildHash.ParseStep | CBuild/CBuild/src/cbuild_hash.cpp:52-110 | parsing a file writes its new metadata file, queues its includes, and stores its metadata among the headers for the "header" object and among the sources otherwise; the old record is read with the corrected dependency loop |
| CBuildHash.ParseSources | CBuild/CBuild/src/cbuild_hash.cpp:177-179 | every source is parsed and stored, and only included files are queued, without repeats |
| CBuildHash.PrefixKeys | packages/deb/libcbuild/usr/include/CBuild/map.hpp:111-113 | a map that only grows keeps its keys |
| CBuildHash.UniqueBound | CBuild/CBuild/src/cbuild_hash.cpp:182-186 | a queue with unique keys from a finite set of files is no longer than that set |
| CBuildHash.UniqueFront | CBuild/CBuild/src/cbuild_hash.cpp:182-186 | the last entry of a queue with unique keys is new to the entries before it |
| CBuildHash.HeaderLoop | CBuild/CBuild/src/cbuild_hash.cpp:182-186 | the header loop ends, since the queue grows only with new names from the finite set of included files, and it only adds headers |
| CBuildHash.HeaderRound | CBuild/CBuild/src/cbuild_hash.cpp:183-185 | one round parses the queued header, flags it and keeps the loop invariant |
| CBuildHash.Collect | CBuild/CBuild/src/cbuild_hash.cpp:174-186 | the collected data has a queue with unique keys and metadata for every source |
| CBuildHash.Selected | CBuild/CBuild/src/cbuild_hash.cpp:196-202 | exactly the sources whose corrected check reports a mismatch are returned, with their objects |
| CBuildHash.Recompile | CBuild/CBuild/src/cbuild_hash.cpp:168-204 | lists of different lengths give nothing and write no metadata |
| CBuildHash.DepsOfInsert | CBuild/CBuild/src/cbuild_hash.cpp:96-106 | storing a file's metadata adds only its own includes to the known includes |
| CBuildHash.ParseStepQueued | CBuild/CBuild/src/cbuild_hash.cpp:52-110 | after a file is parsed every include of a parsed file is still queued |
| CBuildHash.ParseSourcesQueued | CBuild/CBuild/src/cbuild_hash.cpp:177-179 | after the sources are parsed every include of a parsed file is queued |
| CBuildHash.CoveredStep | CBuild/CBuild/src/cbuild_hash.cpp:183-185 | flagging the header just parsed extends the flagged and parsed prefix of the queue by one |
| CBuildHash.HeaderLoopCloses | CBuild/CBuild/src/cbuild_hash.cpp:182-186 | when the header loop ends every queued header is flagged and parsed and every include of a parsed file is queued |
| CBuildHash.CollectCloses | CBuild/CBuild/src/cbuild_hash.cpp:174-186 | after both loops every include of every parsed file has itself been parsed |
| CBuildHash.WrittenMetaReadBack | CBuild/CBuild/src/cbuild_hash.cpp:56-108 | the metadata a parse writes is read back by the next parse of the same file, which then sees no change |
| CBuildHash.ParseFileInto | CBuild/CBuild/src/cbuild_hash.cpp:52-110 | the method computes the parse step, with its corrected read of the old record, and the metadata files it leaves |
| CBuildHash.IncludeLoop | CBuild/CBuild/src/cbuild_hash.cpp:77-93 | the include loop records every include in order and queues each |
| CBuildHash.GetFilesForRecompilation | CBuild/CBuild/src/cbuild_hash.cpp:168-204 | the method returns the sources selected by the corrected check, with old records read by the corrected dependency loop, and leaves the metadata files of the whole computation |
| CBuildHash.SelectLoop | CBuild/CBuild/src/cbuild_hash.cpp:196-202 | the loop returns exactly the sources the corrected check finds mismatching, in order |
| CBuildHash.HeadersInto | CBuild/CBuild/src/cbuild_hash.cpp:182-186 | the method computes the header loop and the metadata files it leaves |

## Left out

- The operating-system side of `cbuild.h`: file, directory, process and shared-memory calls, and self-rebuild. These are system calls. `cbuild_compare_mtime_many` is modelled over a list of per-input comparison results.
- printf-style formatting: `cbuild_sb_appendf`, `cbuild_temp_sprintf`, the text of log lines, flag help printing and terminal colours. The C library formats this text. The log model decides only whether a message is printed and with which label.
- `cbuild_sv_chop_by_sv`: its search starts one byte into the view and can run past it, so it has no well-defined result to model.
- `cbuild_sv_chop_right*` and the `dot` option of `cbuild_path_ext`: no version of the library in the repository defines them.
- Paths.PathName: requires a non-empty path, because on "" the source reads `path[-1]`.
- Paths.PathBase: requires a non-empty path, for the same reason.
- The `src/` tree: a stale snapshot of the library, superseded by `cbuild.h`. Its files do not agree with one another.
- Paths.Root: models a build with CBUILD_API_POSIX or CBUILD_API_STRICT_POSIX defined, where a leading "//" (but not "///") keeps both slashes. Other builds keep only one.
- Paths.Normalize: models the same POSIX build as Paths.Root.
- Paths.PathNormalize: models the same POSIX build as Paths.Root.
- DynArrays.DynArray.Resize: capacities are unbounded. The size_t overflow of `capacity * sizeof(elem)` and the abort when `cbuild_malloc`/`cbuild_realloc` returns NULL are not modelled.
- DynArrays.DynArray.Append: inherits the capacity and allocation assumptions of DynArrays.DynArray.Resize.
- DynArrays.DynArray.AppendArr: inherits the same allocation assumptions; the size_t overflow of `size + arr_size` is not modelled either.
- Byte buffers (dynamic array, stack, string builder, `lib::map`'s vector) are `seq` fields that methods reassign, not arrays. Reallocation and aliasing of the old buffer are therefore not captured.
- C strings are the bytes before their NUL. The NUL enters the model only where the source reads it: the tail copies of the path helpers, and the flag parser's `atoi` and `tdelim` reads.
- Numbers.Atoi: the mathematical value of the digits. C's `atoi` overflow is undefined behaviour and is not modelled.
- Glob.GlobT.Glob: without GLOB_COMPILE it matches against whatever `regex` holds, whether or not `valid` is set. When `valid` is false (a zeroed `glob_t`, or one after `globfree` ran `regfree`), the source's `regexec` call is undefined behaviour. The model treats it as defined and matches against the stale or empty pattern text.
- BucketMaps.BucketMap.Remove: models `cbuild_map_remove`, which passes no clear callback. The `elem_clear_func` call of the `_ex` variants (cbuild.h:4536) runs foreign code on the element and is not modelled.
- BucketMaps.BucketMap.Clear: models `cbuild_map_clear`, which passes no clear callback. The `elem_clear_func` calls of `cbuild_map_clear_ex` (cbuild.h:4561-4570) are not modelled; the map ends empty either way.
- `regcomp`, `regexec` and `regfree`: a foreign regex library. They are parameters: a compile function returning an error code, and a match predicate.
- The browser: the theme script's DOM, `localStorage` and `matchMedia` are two state cells and a boolean input for the operating system's dark preference.
- Toolchains, cross-compilation, the gcc and manual hashers, printing, `std::system` and pkg-config helpers, and the packaging and wiki build scripts. These build shell commands, run threads and processes, or read interactive input.
- Metadata.Store: the file system is a map from paths to contents. File errors other than a missing file are not modelled.
- `read_file_metadata_direct`: it is `read_file_metadata_internal` on a given path, which Metadata.Store.ReadFileMetadataInternal models.
- FlagParse.FlagContext.FlagNew: reads the metadata with the corrected loop FlagSpecs.ParseMetadataSpec; on a spec whose metadata ends after a ';' with no tab the loop of cbuild.h:4751-4769 never ends, while the model declares the flag or exits 1.
- Metadata.LArgsThen: states the corrected linker-argument loop, which gives -3 at the end of the text; the source's loop never returns there (see "## Findings").
- Metadata.Store.ReadTargetMetadata: reads with the corrected argument loops; on a record that ends before "ENDCARGS" or "ENDLARGS" the source never returns, while the model gives -3 (see "## Findings").
- Metadata.DepsNoEnd: states the corrected dependency loop, which gives -3 at the end of the text; the source's loop never returns there (see "## Findings").
- Metadata.Store.ReadFileMetadataInternal: parses with the corrected dependency loop; on a record that ends before "ENDDEPS" the source never returns, while the model gives -3. Metadata.AsWrittenAgrees shows the two agree wherever the source's loop returns.
- Metadata.Store.ReadFileMetadata: inherits the corrected dependency loop of Metadata.Store.ReadFileMetadataInternal; on a record without "ENDDEPS" the source never returns.
- Metadata.Store.ReadFileHash: inherits the same corrected dependency loop; on a record without "ENDDEPS" the source never returns.
- Metadata.Store.WriteFileHash: on a record without "ENDDEPS" the model returns -3 and writes nothing; the source's read never returns there.
- Metadata.ParseFile: an empty hash line is undefined behaviour in the source (`front()` of an empty string). The model takes it as the -3 rejection.
- `print_metadata` and every message printed by the C++ library: terminal output.
- `lib::map` `operator+(map)` and `operator+=(map)`: they call a `push` that the class does not define.
- Generator.EscapeJson: follows the source, which copies every other byte below 0x20 unescaped. Such output is not valid JSON under section 7 of RFC 8259.
- Generator.CcjOut.Generate: the branch that appends to an existing compile_commands.json (generator.cpp:252-324) is not modelled. With the file present, its content is left unchanged.
- The output generators' Makefile and compile_commands.json paths, and the random name of `get_random_string`, are parameters.
- Register.Registry.CallTask: requires a rank under which every required task ranks below any task requiring it. On a requirement cycle the source recurses without end.
- Registry entries: tasks and toolchains are their names and ids. What a task's or toolchain's `call` does is recorded as the list of names called. The bodies of the system tasks (help text, the init directories, the version print) are output only.
- `Registry::GetTargets`: it returns a copy of the toolchain map; GetToolchainsList models its keys.
- The command-line parser: `CBuild::exit` always ends the program, since `real_exit` is true by default. The global `-a`/`-pa` counters start at zero, because `parse` runs once per program.
- The recompilation check: a file's text with comments stripped, and its resolved, existing includes, are an input (`Env`), because reading, regex matching and `fs::exists` are I/O.
- CBuildHash.ParseStep: reads the old record with the corrected dependency loop; on a stored record without "ENDDEPS" the read of cbuild_hash.cpp:56 never returns, while the model goes on and writes and queues.
- CBuildHash.ParseFileInto: equals CBuildHash.ParseStep, with the same corrected read of the old record.
- CBuildHash.Selected: selects with the corrected check, which skips the files on the current path of includes; on an include cycle of unchanged files `check_mismatch_recursive` never returns. CBuildHash.MismatchAsWrittenAgrees shows the two agree wherever the check as written returns.
- CBuildHash.SelectLoop: the loop of CBuildHash.Selected, with the same corrected check.
- CBuildHash.GetFilesForRecompilation: selects with the corrected check and reads old records with the corrected dependency loop; on an include cycle of unchanged files, or on a stored record without "ENDDEPS", the source never returns.
- CBuildHash.HeaderRound: the entry pointer `ptr_at(i)` of cbuild_hash.cpp:183-185 is held across `parse_file`, which can grow the queue and move the vector. The model flags entry `i` by index, as the code evidently intends.
- The recompilation check: `internal_data` and its `lib::map`s are values (association lists) passed through the functions.

## Findings

| source | as written | input that shows it | evidently intended | confidence | as-written member | corrected member |
|---|---|---|---|---|---|---|
| cbuild.h:1861-1887 | `cbuild_stack_resize` sets the new capacity but never lowers `ptr` | a stack with `ptr` 3 and capacity 4 resized to 1 keeps `ptr` 3 | the stack is truncated to the new capacity, as its documentation says | not executed | Stacks.ResizeAsWritten, Stacks.ResizeAsWrittenOverruns | Stacks.ResizeCorrected, Stacks.Stack.Resize |
| cbuild.h:4237-4253 | `cbuild_path_ext` and `cbuild_path_name` copy `strlen(path) - i + 1` bytes from `path + i + 1` | "a.c": 3 bytes are copied from offset 2 of a 4-byte buffer, one past the NUL | copy `strlen(path) - i` bytes, the tail and its NUL | not executed | Paths.TailCopyLenAsWritten, Paths.TailCopyOverreads | Paths.TailCopyLen, Paths.CopyTail |
| cbuild.h:4751-4769 | the metadata loop of a flag spec ends only when a chop reports a tab, and a chop that finds no delimiter leaves the previous `';'` in place | the spec "out\to\targ=arg;thint=file" loops for ever | a chop reaching the end of the metadata ends the loop | not executed | FlagSpecs.MetadataSpinsAsWritten, FlagSpecs.NoTabAfterSemicolonSpins | FlagSpecs.ParseMetadataSpec, FlagParse.FlagContext.FlagNew |
| CBuild/CBuild/src/metadata_file.cpp:53-56 | the dependency loop of the record reader stops only at an "ENDDEPS" line; at end of file `getline` leaves the line unchanged | a record file "a\nb\nDEPS\n" loops for ever | end of file before "ENDDEPS" rejects the record | not executed | Metadata.AsWrittenSpins, Metadata.NoEndDepsSpins, Metadata.AsWrittenAgrees | Metadata.ReadUntil, Metadata.MissingEndDepsRejected, Metadata.DepsNoEnd, Metadata.Store.ReadFileMetadataInternal, Metadata.Store.ReadFileMetadata, Metadata.Store.ReadFileHash, Metadata.Store.WriteFileHash, CBuildHash.ParseStep, CBuildHash.ParseFileInto |
| CBuild/CBuild/src/metadata_file.cpp:101-113 | the compiler- and linker-argument loops of the target reader stop only at an "ENDCARGS" or "ENDLARGS" line; at end of file `getline` leaves the line unchanged | a target record "o\nc\nl\np\nCARGS\n" loops for ever, pushing "" into `cargs` | end of file before the terminator rejects the record | not executed | Metadata.AsWrittenSpins, Metadata.NoEndCArgsSpins, Metadata.NoEndLArgsSpins | Metadata.ReadUntil, Metadata.MissingEndCArgsRejected, Metadata.MissingEndLArgsRejected, Metadata.LArgsThen, Metadata.Store.ReadTargetMetadata |
| CBuild/CBuild/src/cli_parser.cpp:305-311 | the operand check of `-a`/`-pa` is `!(argc < ptr + 1)`, which always holds | `cbuild -a x` exits with status 255 | exit only when the operand is missing | not executed | CliParser.ArgAlwaysExits, CliParser.ArgParseExits, CliParser.ParseArgs | CliParser.ArgStored, CliParser.PaStored, CliParser.ArgsNumbered, CliParser.ParseArgs |
| CBuild/CBuild/src/cli_parser.cpp:154-193 | the operand check of `-g` and the build flags is `!(argc >= ptr + 1)`, which never holds, so `argv[argc]` is read | `cbuild -b` as the whole command line | exit with status 255 when the operand is missing | not executed | CliParser.LastOperandMissing, CliParser.ParseArgs | CliParser.CorrectedNeverCrashes, CliParser.ParseArgs |
| CBuild/CBuild/src/cli_parser.cpp:285 | `task_handler` stores `task_id` once outside the `try`, so a second task throws an uncaught exception | `cbuild -t x -t x` | the first task is kept and the second reported, as the `try` right after it intends | not executed | CliParser.TaskTwiceRun, CliParser.ParseArgs | CliParser.SecondTask, CliParser.ParseArgs |
| CBuild/CBuild/src/cli_parser.cpp:140-142 | `out_handler`'s message for an already set mode reads `argv[ptr + 1]` | `cbuild -v -v` reads `argv[argc]` | the message shows the new mode, `argv[ptr]`, and the first mode is kept | not executed | CliParser.SecondOutLast, CliParser.ParseArgs | CliParser.SecondOutLast, CliParser.CorrectedNeverCrashes, CliParser.ParseArgs |
| CBuild/CBuild/src/cbuild_hash.cpp:133-166 | `check_mismatch_recursive` follows includes without remembering the files visited | two unchanged headers that include each other recurse without end | a file already on the path of includes is not revisited | not executed | CBuildHash.CycleNeverEnds, CBuildHash.MismatchAsWrittenAgrees | CBuildHash.MismatchSound, CBuildHash.MismatchComplete, CBuildHash.CycleCorrected, CBuildHash.Selected, CBuildHash.SelectLoop, CBuildHash.GetFilesForRecompilation |
| packages/deb/libcbuild/usr/include/CBuild/map.hpp:405-411 | `erase(key)` moves the index on after erasing, so the entry that slid into the hole is skipped | two adjacent entries with the key: the second is kept | every entry with the key is removed | not executed | LibMap.Map.EraseAsWritten, LibMap.SkippingKeepsAdjacent | LibMap.Map.Erase, LibMap.FilterRemovesAll |
