# Verified model of the VPU ELF library

The library writes, reads and loads ELF files for an NPU. This project models its three cores in Dafny and proves
what they promise. `dafny verify dfyconfig.toml` checks everything.

**The loader** (`relocations.dfy`, `relocation_values.dfy`, `patching.dfy`, `tasks.dfy`, `loader_model.dfy`, `loader_facts.dfy`,
`loading_facts.dfy`, `device_memory.dfy`, `loader.dfy`, `loader_runs.dfy`, `relocation_order.dfy`,
`loader_system.dfy`, `loader_tables.dfy`, `resolution.dfy`, `relocated_words.dfy`, `load_by_header.dfy`).
`VPUXLoader` decides which sections get
device buffers, which buffers clones may share, keeps pristine backups of the private ones, and patches the private
images with relocations: at load time, when it is copied, when scratch buffers arrive late, and again for every set of
user buffers. Many relocation types compute with the bytes they replace, so an image is right only if every relocation
was applied exactly once to pristine bytes. The class `Loader.VPUXLoader` keeps the original's fields and loops; its
buffers live in a `BufferManager` that maps regions to bytes and tracks lock counters (a buffer may be written only
under its lock, locked only at counter 0, unlocked only at 1). The reader caches sections in buffers of the same
memory, in place or copied, and relocation and symbol entries are decoded from there. Every operation is proved against
a function on images: `Tasks.RunTasks` runs lists of resolved relocations, `LoaderModel.LoadPost`, `ClonePost`,
`ScratchPost` and `JitPost` say what each operation leaves behind, `SectionsLoad` and `LoadOutcome` how a load ends.
`LoaderRuns` follows any number of loaders over one memory through every sequence of steps, and `LoaderSystem` proves
that every sequence of calls on the objects is such a run. What these functions mean is fixed without them:
`RelocationValues` by the value that each relocation type leaves, `LoaderTables` by the bytes of the tables, `Resolution`
by how symbols follow addresses, `LoadByHeader` by the numbers in the headers, and `RelocatedWords` by the bytes that
stand in an image where a relocation of the file points.

**The serializer** (`serial_format.dfy`, `serial_reading.dfy`, `serial.dfy`). Elements and vectors of fixed-size
records are packed behind 8-aligned descriptors that are linked into a chain while writing. `SerialFormat.Image` is
the finished buffer, `SerialReading.Walk` follows a chain in any bytes; the imperative code is proved equal to both.

**Writer and reader** (`elf_codec.dfy`, `elf_layout.dfy`, `string_table.dfy`, `symbol_tables.dfy`, `regions.dfy`, `writer_model.dfy`,
`blob_layout.dfy`, `blob_bytes.dfy`, `writer.dfy`, `blob_reader.dfy`, `blob_round_trip.dfy`). `WriterModel.Prepared` is what preparing
makes of the sections, `BlobLayout.Generated` what emitting writes, `BlobLayout.AllWritten` what any interleaving of
streaming and emitting leaves in the blob; `Writer.Run` ties that to the writer's objects. The layout of the
structures follows the System V gABI, Chapter 4.

Conventions: `byte` is an 8-bit vector; 16-, 32- and 64-bit fields are bounded integers with wrap-around written out
where the code relies on it; exceptions are `Errors.Status` values; an access outside an object, or a shift by 64 or
more, is the outcome `Err(Undefined)`. `mSectionHeaders`, `m_sections` and other vectors are sequences, unordered maps
are maps whose iteration order is left open. `BlobReader.Reader` is the reader over raw bytes; the loader uses
`DeviceMemory.Reader`, which starts from decoded headers and adds the data cache and access counting.

Where code and comments disagree, the model follows the code: R_VPU_DISP40_RTM keeps the low 40 bits of the old word,
R_VPU_DISP4_MULTICAST_OFFSET_CMP ORs a truth value into the word, the check on symbol indexes lets an index equal to the table
size through, and symbol indexes are not refreshed after sorting.

## Model

| member | source | states |
|---|---|---|
| Relocations.OverwriteShape | vpux_elf/loader/src/vpux_loader.cpp:101-367 | The overwriting types (64, 32, MULTICAST_BASE, LO_21, LO_21_RSHIFT_4, the 16_LSB_21 family, CMX_LOCAL) never fail; inside a fixed bit mask their result does not depend on the old bytes, and outside it the old bytes stay |
| Relocations.AbsorbsExactly | vpux_elf/loader/src/vpux_loader.cpp:71-408 | Of all types in the relocation map, exactly the overwriting ones absorb: patching with one symbol and then with another equals patching with the second alone, for every old word, symbols and addend; for each other type an input refutes it |
| Relocations.BroadcastMaskInRange | vpux_elf/loader/src/vpux_loader.cpp:44-53 | The range check on the broadcast mask can never throw: the mask is below 16 for every address |
| RelocationValues.TypesInMap | vpux_elf/loader/src/vpux_loader.cpp:433-461 | The relocation map holds exactly the types 0 to 23 and 1011 to 1013 |
| RelocationValues.StoresValue | vpux_elf/loader/src/vpux_loader.cpp:101-151 | R_VPU_64 and R_VPU_32 store a little-endian word that minus the addend is the symbol value, modulo 2^64 and 2^32, whatever was there; this is the plain word the other types are compared with |
| RelocationValues.Lo21Fields | vpux_elf/loader/src/vpux_loader.cpp:226-284 | R_VPU_LO_21 and R_VPU_LO_21_RSHIFT_4 put the low 21 bits of the plain word, or these shifted right by 4, into the low 21 bits, and keep all others |
| RelocationValues.HalfFields | vpux_elf/loader/src/vpux_loader.cpp:259-367 | The three 16_LSB_21_RSHIFT_5 types put bits 5 to 20 of the plain word into the low half, the high half, or bits 17 to 31 and 14, and keep all other bits |
| RelocationValues.CmxLocal | vpux_elf/loader/src/vpux_loader.cpp:286-296 | R_VPU_CMX_LOCAL_RSHIFT_5: shifted back by 5, the word is the plain word without bits 21 to 26 and 0 to 4 |
| RelocationValues.Sums | vpux_elf/loader/src/vpux_loader.cpp:71-246 | The SUM types: the new word minus the old one is the plain word, its low 21 bits or its low half |
| RelocationValues.Ors | vpux_elf/loader/src/vpux_loader.cpp:110-309 | The OR types keep every old bit and set exactly those of the plain word, without bits 21 to 26 for type 17 |
| RelocationValues.OrOnHalves | vpux_elf/loader/src/vpux_loader.cpp:369-395 | The LOW_16 and HIGH_16 types on the two halves of a word leave what the 4-byte type leaves on the whole |
| RelocationValues.OrOnLowWord | vpux_elf/loader/src/vpux_loader.cpp:298-322 | R_VPU_64_BIT_OR_B21_B26_UNSET is the 4-byte type on the low word; the high word stays |
| RelocationValues.OrHigh27 | vpux_elf/loader/src/vpux_loader.cpp:397-408 | R_VPU_HIGH_27_BIT_OR keeps old bits and the low 37, and sets bits 37 to 63 by bits 4 to 30 of the plain word without 21 to 23 |
| RelocationValues.TimesLaws | vpux_elf/loader/src/vpux_loader.cpp:81-89 | R_VPU_64_MULT is multiplication modulo 2^64: by 0 it clears, by 1 it keeps, and it adds up over sums |
| RelocationValues.Multiplies | vpux_elf/loader/src/vpux_loader.cpp:81-99 | R_VPU_64_MULT looks at word and symbol value alone; R_VPU_64_MULT_SUB multiplies by what is missing from the value to the addend |
| RelocationValues.Shifts | vpux_elf/loader/src/vpux_loader.cpp:120-129 | R_VPU_64_LSHIFT multiplies by a power of two (PowerLaws) for values below 64 and has no result from 64 on |
| RelocationValues.PowerLaws | vpux_elf/loader/src/vpux_loader.cpp:120-129 | That factor is 1 for value 0 and doubles with every further one |
| RelocationValues.RunTimeMappedTypes | vpux_elf/loader/src/vpux_loader.cpp:131-162 | R_VPU_32_RTM stores, and R_VPU_DISP40_RTM sets the low 40 bits of, the plain word for the addend times the old bits below the symbol's size |
| RelocationValues.NothingBelow | vpux_elf/loader/src/vpux_loader.cpp:131-162 | With no old bit below the symbol's size that is the symbol value itself |
| RelocationValues.MulticastBases | vpux_elf/loader/src/vpux_loader.cpp:42-257 | R_VPU_32_MULTICAST_BASE changes bits 20 to 23 of the plain word alone, by its four broadcast patterns; R_VPU_32_MULTICAST_BASE_SUB stores what is missing to that from the old word; the LO_21 type stores the low 21 bits |
| RelocationValues.MulticastDisplacements | vpux_elf/loader/src/vpux_loader.cpp:42-224 | The multicast offset types: for a slice index above 2 undefined; otherwise the offset is index + 1 times 0x20000 up to the pattern's number and 0 from there on, above the kept low bits, or as a flag in them |
| Patching.Permute | vpux_elf/loader/src/vpux_loader.cpp:922-985 | Relocations whose byte ranges are pairwise disjoint give the same outcome and image in every order, for every relocation type |
| Patching.MoveToFront | vpux_elf/loader/src/vpux_loader.cpp:922-985 | Any one of several disjoint relocations may be applied first |
| Patching.PatchAllAppend | vpux_elf/loader/src/vpux_loader.cpp:922-985 | Applying two lists of relocations one behind the other is applying their concatenation, failures included |
| Patching.EndsExactly | vpux_elf/loader/src/vpux_loader.cpp:922-985 | How one relocation ends, in numbers: RelocError for an offset behind the target or a type that is not in the map, the symbol's own error, undefined for a write across the end or without a result; a failure changes nothing |
| Patching.EndsAtFirstFailure | vpux_elf/loader/src/vpux_loader.cpp:922-985 | A list ends as its first relocation that fails does, with what came before applied |
| Patching.AppliedOnce | vpux_elf/loader/src/vpux_loader.cpp:922-985 | In a list that succeeds, a relocation whose range no other touches leaves there what its function makes of the bytes before the list |
| Patching.AbsorbAll | vpux_elf/loader/src/vpux_loader.cpp:101-367 | A list of overwriting relocations, overlapping or not, gives the same image from any two images that agree outside the bits it covers |
| Patching.ChangesCoveredOnly | vpux_elf/loader/src/vpux_loader.cpp:101-367 | A list of overwriting relocations changes only the bits it covers, even when it stops at a failure |
| Tasks.EachSectionItsOwn | vpux_elf/loader/src/vpux_loader.cpp:857-989 | A pass over all relocation sections succeeds iff no section fails its checks and every target accepts its own relocations; then each image is the fold of all relocations for its section, in order, each once |
| Tasks.EveryJobHasItsPlace | vpux_elf/loader/src/vpux_loader.cpp:857-989 | No relocation of any section is lost on the way to its target, nor moved past another |
| Tasks.EveryJobTakesEffect | vpux_elf/loader/src/vpux_loader.cpp:857-989 | In a pass that succeeds, every relocation of every section that is alone in its range has its effect on the old image |
| Tasks.OrderDoesNotMatter | vpux_elf/loader/src/vpux_loader.cpp:857-989 | Reordering relocations within and across relocation sections changes neither success nor any image, when the ranges within each target are disjoint |
| RelocationOrder.FilesReordered | vpux_elf/loader/src/vpux_loader.cpp:857-989 | Files that differ in the order of entries in their relocation sections, and relocation lists in another order, resolve to the same relocations for every target |
| RelocationOrder.EntriesToJobs | vpux_elf/loader/src/vpux_loader.cpp:922-985 | If a file's relocation entries for a section touch disjoint bytes, so do the resolved relocations |
| RelocationOrder.RelocatedInAnyOrder | vpux_elf/loader/src/vpux_loader.cpp:857-989 | Loaders at the same addresses end alike and with the same images whichever way the file orders its relocation entries and the relocation sections are applied, if the entries for each private section touch disjoint bytes |
| Tasks.RunStatusIgnoresBytes | vpux_elf/loader/src/vpux_loader.cpp:991-1107 | How a run of overwriting relocations ends does not depend on the bytes it patches |
| Tasks.JitAbsorbs | vpux_elf/loader/src/vpux_loader.cpp:991-1107 | Patching with user buffers A (to the end or up to a failure) and then with B ends as patching with B alone does, and in success with the same images, when the types overwrite; targets may overlap |
| LoaderFacts.Untouched | vpux_elf/loader/src/vpux_loader.cpp:463-542 | A loader whose own and read-only regions keep their bytes keeps its invariant and its images |
| LoaderFacts.PrivateWrite | vpux_elf/loader/src/vpux_loader.cpp:837-855 | Writing one private buffer keeps the invariant, changes that image only, and touches only regions that the loader owns |
| LoaderFacts.ScratchIsNotData | vpux_elf/loader/src/vpux_loader.cpp:1193-1206 | Replacing scratch buffers leaves every data buffer, owned region and read-only region as it was |
| LoaderFacts.CopyIsSound | vpux_elf/loader/src/device_buffer_container.cpp:64-78 | A map copied by sharing or re-creating buffers, over any runtime symbols, satisfies the loader invariant on the same file |
| LoaderTables.EntriesCounted | vpux_elf/core/include/vpux_elf/reader.hpp:42-47 | The loader counts the whole entries of sh_entsize bytes that fit into sh_size, none for size 0 |
| LoaderTables.RelaFields | vpux_elf/core/include/vpux_elf/reader.hpp:57-63 | A relocation entry by byte offsets: r_offset at 0, type at 8, symbol index at 12, addend at 16 |
| LoaderTables.SymbolFields | vpux_elf/core/include/vpux_elf/reader.hpp:57-63 | A symbol entry by byte offsets: type in the low half of byte 4, section index at 6, value at 8, size at 16 |
| LoaderTables.RelocationTableRead | vpux_elf/loader/src/vpux_loader.cpp:913-923 | A table that a writer emitted is read entry by entry, each with its own offset, symbol index, type and addend, the last one included, and nothing behind it |
| LoaderTables.EveryEntryIsAJob | vpux_elf/loader/src/vpux_loader.cpp:913-985 | Once a section has passed its checks, its task holds one resolved relocation for each entry of the emitted table, in order |
| LoaderTables.EveryJitEntryIsAJob | vpux_elf/loader/src/vpux_loader.cpp:1036-1104 | The same for a JIT section |
| LoaderTables.SymbolTableRead | vpux_elf/loader/src/vpux_loader.cpp:913-965 | An emitted symbol table is read symbol by symbol, each with its type, section, value and size |
| LoaderTables.EntrySymbolIsFound | vpux_elf/loader/src/vpux_loader.cpp:576-600 | Wherever in its table the first entry symbol stands, the last place included, the search finds it |
| Resolution.InPlacedSection | vpux_elf/loader/src/vpux_loader.cpp:955-964 | In a section with a device address, a symbol's value minus that address is the st_value of the table |
| Resolution.SymbolsMoveAlong | vpux_elf/loader/src/vpux_loader.cpp:955-964 | For any two sets of addresses the values of a symbol differ as the addresses of its section do |
| Resolution.OtherSymbolsStay | vpux_elf/loader/src/vpux_loader.cpp:955-979 | Moving one section leaves the symbols of all others alone |
| Resolution.AgainstRuntimeTable | vpux_elf/loader/src/vpux_loader.cpp:952-964 | A relocation against the runtime table takes the runtime symbol, displaced only if that names a section with an address |
| Resolution.ByListedType | vpux_elf/loader/src/vpux_loader.cpp:965-979 | Without an address, the first position of the section's type in the list names the runtime symbol that takes over; a position behind the runtime symbols is a read past them |
| Resolution.ByUnlistedType | vpux_elf/loader/src/vpux_loader.cpp:965-979 | A type that is not listed takes the runtime symbol behind the end of the list, which need not exist |
| Resolution.OfNoSection | vpux_elf/loader/src/vpux_loader.cpp:965-966 | Without an address, a symbol whose section index is not in the file gives RangeError |
| Resolution.BehindLastSymbol | vpux_elf/loader/src/vpux_loader.cpp:930-953 | An index behind the table is refused; the one right behind it is read outside the table |
| Resolution.BuffersOfKind | vpux_elf/loader/src/vpux_loader.cpp:1028-1041 | The section flags choose inputs, outputs or profiling buffers, in this order |
| Resolution.BufferOfSymbol | vpux_elf/loader/src/vpux_loader.cpp:1074-1103 | A JIT relocation against symbol n takes the address of the n-th user buffer, counted from 1, and the st_size of the table; indexes behind either list are refused |
| Resolution.OnlyItsOwnSymbol | vpux_elf/loader/src/vpux_loader.cpp:1074-1103 | Replacing one user buffer leaves the symbols for all others alone |
| RelocatedWords.EveryEntryTakesEffect | vpux_elf/loader/src/vpux_loader.cpp:857-989 | If the relocations of a loader succeed, each entry of each emitted table that is alone in its range names a symbol that resolves, and leaves in its target what its function makes of the file's bytes |
| RelocatedWords.EntryInImage | vpux_elf/loader/src/vpux_loader.cpp:800-989 | So it stands in the images of every loader, loaded, copied or given scratch buffers late, for its own addresses and symbols |
| RelocatedWords.JitEntryInImage | vpux_elf/loader/src/vpux_loader.cpp:991-1107 | Patching in user buffers takes effect entry by entry, for the buffers that the symbols stand for |
| RelocatedWords.CopiesReferToThemselves | vpux_elf/loader/src/vpux_loader.cpp:499-542 | A copy refers to its own buffers: a word that R_VPU_64 stored for a symbol of some section differs from the source's exactly as the device addresses of their buffers for that section differ |
| DeviceMemory.BufferManager.Allocate | vpux_elf/loader/include/vpux_headers/buffer_manager.hpp:17-37 | An allocation is a new region of exactly the requested size, or an empty buffer where the driver may share scratch |
| DeviceMemory.BufferManager.Lock | vpux_elf/loader/include/vpux_headers/buffer_manager.hpp:19-37 | A buffer may be locked only when its counter is 0, which makes it 1 |
| DeviceMemory.BufferManager.Unlock | vpux_elf/loader/include/vpux_headers/buffer_manager.hpp:19-37 | A buffer may be unlocked only when its counter is 1, which makes it 0 |
| DeviceMemory.BufferManager.LoadWithLock | vpux_elf/loader/src/managed_buffer.cpp:44-48 | Replaces the whole contents of one region and leaves all lock counters as they were |
| LoaderModel.Elf.ReadStatus | vpux_elf/core/include/vpux_elf/accessor.hpp:164-166 | Reading a section succeeds iff it lies inside the file; Undefined iff it does not and the wrapping bounds check lets it pass, and AccessError otherwise |
| DeviceMemory.Reader.GetData | vpux_elf/core/include/vpux_elf/reader.hpp:57-63 | A section read before is available from its buffer without another access; any other gets a buffer with the file's bytes, or ends as the wrapping bounds check has it |
| DeviceMemory.Reader.Entry | vpux_elf/core/include/vpux_elf/reader.hpp:57-63 | An entry taken from a cached buffer is the entry the file holds |
| DeviceMemory.Reader.GetDataBuffer | vpux_elf/core/include/vpux_elf/accessor.hpp:164-177 | In place or copied: the buffer holds the section's file bytes, and nothing that existed before changes |
| Loader.VPUXLoader.ApplyOne | vpux_elf/loader/src/vpux_loader.cpp:921-984 | One relocation on a locked buffer refines the relocation function on bytes, error cases included; RelocationValues says which value each type leaves |
| Loader.VPUXLoader.FindSymbolType | vpux_elf/loader/src/vpux_loader.cpp:969-974 | The first entry of m_symbolSectionTypes with the section's type, or the length if there is none |
| Loader.VPUXLoader.ResolveSymbol | vpux_elf/loader/src/vpux_loader.cpp:930-979 | Resolution by this loader's addresses (see the rows of Resolution), or by section type from the runtime symbols; an index equal to the table size is an access outside the table |
| Loader.VPUXLoader.ReadRelocation | vpux_elf/loader/src/vpux_loader.cpp:862-923 | A relocation entry read from the cached section is the file's |
| Loader.VPUXLoader.CheckSection | vpux_elf/loader/src/vpux_loader.cpp:862-911 | The checks on a relocation section end as specified; section and symbol table are cached when they pass, and nothing is read when they were before |
| Loader.VPUXLoader.ApplySection | vpux_elf/loader/src/vpux_loader.cpp:860-986 | One relocation section transforms the images as its task says, its tables read from the cache entry by entry while the target changes; every buffer is unlocked afterwards, on failure too; only private regions change; LoaderTables.EveryEntryIsAJob says that the task holds every entry of the table |
| Loader.VPUXLoader.ApplyRelocations | vpux_elf/loader/src/vpux_loader.cpp:857-989 | The whole pass transforms the images as the list of tasks says, in which no entry is missing (LoaderTables.EveryEntryIsAJob); once the tables are cached no access to the file is needed |
| Loader.VPUXLoader.RegisterSections | vpux_elf/loader/src/vpux_loader.cpp:612-745 | Each section is classified by its type and flags: buffers, pending scratch, and both relocation lists in file order; the first section that is refused decides how it throws |
| Loader.VPUXLoader.UpdateSharedBuffers | vpux_elf/loader/src/vpux_loader.cpp:769-798 | The targets of the given relocation sections, and nothing else, stop being shared; the first section without a valid target decides how it throws |
| Loader.VPUXLoader.LoadBuffers | vpux_elf/loader/src/vpux_loader.cpp:800-835 | In any map order: succeeds iff all data lies inside the file, and otherwise ends as some data section's read does; on success shared buffers and backups hold the file's bytes, and private buffers start as copies of their backups |
| Loader.VPUXLoader.Load | vpux_elf/loader/src/vpux_loader.cpp:602-767 | A load gets to its relocations exactly if headers and data allow it; then, whether relocation succeeds or throws, the loader is ready, classified and has this call's arguments, and the status is that of its relocations (Ok while scratch is pending). Otherwise the first refused section, or some unreadable data, decides the exception. A second load is refused. Success establishes the exact sharing decision and canonical images (pristine ones while scratch is pending); no existing byte is written; the sections waited for are those whose scratch allocation came back empty; symbol and JIT tables are cached, and all tables when no scratch is pending |
| Loader.VPUXLoader.ApplyJitRelocations | vpux_elf/loader/src/vpux_loader.cpp:991-1107 | User-buffer patching changes exactly the private images, as the JIT tasks say; locks return to 0 at every exit; no access to the file once the tables are cached |
| Loader.VPUXLoader.GetEntry | vpux_elf/loader/src/vpux_loader.cpp:576-600 | Every outcome is that of the search in file order; Ok gives the buffer of the first entry symbol, ImplausibleState means there is none; no access to the file when symbol tables are cached, as they are after every load |
| LoaderFacts.EntryFoundExactly | vpux_elf/loader/src/vpux_loader.cpp:576-600 | The search succeeds exactly if an entry symbol whose section has a buffer is reached: no entry symbol comes before it, and every symbol table before it can be read to its end; the last symbol of a table counts (LoaderTables.EntrySymbolIsFound) |
| Loader.VPUXLoader.ReloadNewBuffers | vpux_elf/loader/src/vpux_loader.cpp:837-855 | In any map order, every private image becomes the file's bytes again, and only private regions are written |
| Loader.VPUXLoader.UpdateSharedScratchBuffers | vpux_elf/loader/src/vpux_loader.cpp:1193-1206 | A wrong number of buffers changes nothing; otherwise the images are pristine bytes relocated once with the new addresses, which symbols follow (Resolution.SymbolsMoveAlong); the reader's cache only grows, and not by an access once the tables are there |
| Loader.CopyBufferMap | vpux_elf/loader/src/device_buffer_container.cpp:64-78 | In any map order: shared entries are taken over, every other gets a fresh buffer of the same size; no existing byte changes |
| Loader.Clone | vpux_elf/loader/src/vpux_loader.cpp:499-542 | Both copy constructors: whatever the outcome, the copy has the source's fields, shares its shared buffers and has its own others, and the outcome is that of relocating it; on success its images are pristine bytes relocated once for its own addresses and symbols (RelocatedWords.CopiesReferToThemselves), whatever was patched into the source. The source and all existing bytes stay, the reader's cache only grows, and there is no access to the file once the tables are cached |
| LoaderRuns.RelocationSucceedsExactly | vpux_elf/loader/src/vpux_loader.cpp:857-989 | The relocations of a load or of a copy succeed exactly if every relocation section passes its checks and every private section accepts its own relocations at this loader's addresses |
| LoaderRuns.NothingToRelocate | vpux_elf/loader/src/vpux_loader.cpp:857-859 | A file without load-time relocations loads once its sections do, and its copies never throw |
| Loader.SharingDecided | vpux_elf/loader/src/vpux_loader.cpp:747-798 | After both passes a buffer is shared iff it is allocated read-only PROGBITS data that no relocation section targets, for every order of sections |
| Loader.TargetsRegistered | vpux_elf/loader/src/vpux_loader.cpp:710-749 | A section is the target of some relocation section of the file iff it is the target of one in the two registered lists |
| LoadByHeader.FlagIsDigit | vpux_elf/core/include/vpux_elf/types/section_header.hpp:58-69 | A section flag is set exactly if its binary digit of sh_flags is 1 |
| LoadByHeader.BuffersByHeader | vpux_elf/loader/src/vpux_loader.cpp:602-749 | By the numbers in the headers: which sections have buffers, which of them carry data, which are shared, and which relocation sections are registered, in file order |
| LoadByHeader.ReceivedByHeader | vpux_elf/loader/src/vpux_loader.cpp:602-745 | By section type and flags: which sections load refuses with which exception, which it reads at once, and which pass |
| LoadByHeader.TargetByHeader | vpux_elf/loader/src/vpux_loader.cpp:769-798 | A registered relocation section is accepted iff it is flagged SHF_INFO_LINK and names a section with a buffer; else RelocError or OutOfRange |
| LoadByHeader.StaticSectionPasses | vpux_elf/loader/src/vpux_loader.cpp:862-911 | A load-time relocation section is worked on exactly if entries, symbol table and target are all there |
| LoadByHeader.StaticSectionThrows | vpux_elf/loader/src/vpux_loader.cpp:862-911 | For sections inside the file: which missing thing gives which exception |
| LoadByHeader.JitSectionPasses | vpux_elf/loader/src/vpux_loader.cpp:991-1059 | A JIT section is worked on exactly if it is also flagged for user buffers and its symbols are in the file |
| LoadByHeader.JitSectionThrows | vpux_elf/loader/src/vpux_loader.cpp:991-1059 | For sections inside the file: which missing thing gives which exception |
| LoaderFacts.JitTablesCached | vpux_elf/loader/src/vpux_loader.cpp:710-734 | After registration every JIT relocation section and the symbol table it links to have been read |
| LoaderFacts.CacheStays | vpux_elf/core/include/vpux_elf/reader.hpp:57-63 | Writes to other regions and new memory leave every cached section as it was |
| LoaderSystem.MembersAreReady | vpux_elf/loader/src/vpux_loader.cpp:499-1206 | In every reachable system each loader object is ready for its next operation, whatever the other loaders on the same buffer manager have done |
| LoaderSystem.CallLoad | vpux_elf/loader/src/vpux_loader.cpp:602-767 | Loading through a new loader and reader is a step of the runs, on success and on failure, and leaves all buffers unlocked |
| LoaderSystem.CallClone | vpux_elf/loader/src/vpux_loader.cpp:499-542 | So is copying a loader with its own or with other symbols |
| LoaderSystem.CallUpdateScratch | vpux_elf/loader/src/vpux_loader.cpp:1193-1206 | So is handing a loader scratch buffers |
| LoaderSystem.CallPatchUserIO | vpux_elf/loader/src/vpux_loader.cpp:991-1107 | So is patching user buffers into a loader |
| LoaderSystem.CallGetEntry | vpux_elf/loader/src/vpux_loader.cpp:576-600 | So is looking up the entry |
| LoaderSystem.Run | vpux_elf/loader/src/vpux_loader.cpp:463-1206 | Every sequence of calls on any number of loader objects, failing ones included, is a run whose last system the objects represent; no buffer is locked between calls |
| LoaderRuns.StepKeepsInv | vpux_elf/loader/src/vpux_loader.cpp:499-1206 | Every load, clone, clone with other symbols, scratch update, entry lookup and user-buffer patch, failing or not, keeps the invariant of all loaders and readers |
| LoaderRuns.RunKeepsInv | vpux_elf/loader/src/vpux_loader.cpp:499-1206 | In every state of every run with any number of loaders, clones included: each loader's images are what its own history makes of the file's bytes; its sections are classified and shared exactly as the headers say; the file is unchanged; nobody owns what others own, read or cache; and cached sections hold the file's bytes |
| LoaderRuns.CanonicalImages | vpux_elf/loader/src/vpux_loader.cpp:800-989 | Before user buffers are patched, each private image is the fold of exactly this loader's load-time relocations for its section over the pristine bytes, each applied once; that these are all entries of the tables is RelocatedWords.EntryInImage |
| LoaderRuns.SameAddressesSameImages | vpux_elf/loader/src/vpux_loader.cpp:499-542 | In any two runs, loaders with the same allocation mode, addresses and symbols have byte-identical images once relocated and not patched since: a clone equals a fresh load |
| LoaderRuns.ImagesKept | vpux_elf/loader/src/vpux_loader.cpp:499-542 | No step of another loader, nor any load, clone or failure, changes a loader's images |
| LoaderRuns.ReadOnlyKept | vpux_elf/loader/src/vpux_loader.cpp:769-989 | No step changes a byte of the file, of a backup or of a shared buffer |
| LoaderRuns.PristineNeverWritten | vpux_elf/loader/src/vpux_loader.cpp:769-989 | Over whole runs those bytes are never written |
| LoaderRuns.EarlierJitsForgotten | vpux_elf/loader/src/vpux_loader.cpp:991-1107 | With overwriting JIT types, earlier patches, failed ones included, do not change how a later one ends, and leave no trace once it succeeds |
| LoaderRuns.OnlyLastUserIOCounts | vpux_elf/loader/src/vpux_loader.cpp:991-1107 | So whenever a patch succeeds, the images are what patching the unpatched images with these buffers gives, however often the loader was patched before |
| LoaderRuns.CachedIsFresh | vpux_elf/core/include/vpux_elf/reader.hpp:57-63 | In every state of every run, what a reader has cached of a section is what a fresh read of the file gives |
| LoaderRuns.EverythingIsCached | vpux_elf/loader/src/vpux_loader.cpp:710-734 | A load without pending scratch, and otherwise the first successful scratch update or clone, leaves all tables in the reader's cache |
| LoaderRuns.NoMoreAccesses | vpux_elf/loader/src/vpux_loader.cpp:710-734 | From then on no patch, clone, scratch update or entry lookup of any loader with that reader, successful or not and in any order, reaches the access manager |
| LoaderRuns.ScratchComposes | vpux_elf/loader/src/vpux_loader.cpp:1193-1206 | Two scratch updates in a row have the outcome, buffers and images of the second alone |
| LoaderRuns.ScratchBuffersArrive | vpux_elf/loader/src/vpux_loader.cpp:1193-1206 | Each buffer that is handed over arrives at its own scratch section, in file order |
| LoaderRuns.NothingLacksAfterwards | vpux_elf/loader/src/vpux_loader.cpp:694-700 | The sections waited for are exactly those whose scratch allocation came back empty: once they have buffers, no scratch section lacks one |
| LoaderRuns.OnlyLastScratchCounts | vpux_elf/loader/src/vpux_loader.cpp:1193-1206 | Any sequence of scratch updates is one update with the last buffers |
| SerialFormat.DecodeEncodeDescriptor | vpux_elf/loader/include/vpux_headers/serial_struct_base.hpp:18-23 | A descriptor is read back as written |
| SerialFormat.ImageAppend | vpux_elf/loader/include/vpux_headers/serial_struct_base.hpp:245-277 | Writing one more element changes nothing before it but the link of the last descriptor |
| SerialFormat.TotalSizeAligned | vpux_elf/loader/include/vpux_headers/serial_struct_base.hpp:228-243 | The size formula is a multiple of 8, so every descriptor is aligned |
| SerialFormat.BlockSizeBounds | vpux_elf/loader/include/vpux_headers/serial_struct_base.hpp:235-243 | An element takes up its descriptor and data, rounded up by less than 8 to a multiple of 8 |
| SerialReading.DescriptorLayout | vpux_elf/loader/include/vpux_headers/serial_struct_base.hpp:18-23 | Data offset, next offset, count and size stand at 0, 8, 16 and 24 of a descriptor |
| SerialReading.BytesOfElement | vpux_elf/loader/include/vpux_headers/serial_struct_base.hpp:245-277 | Where each element stands in the buffer: behind the blocks before it, with its data offset, link, count and size at fixed offsets and its bytes behind them; the last link is 0 and an empty vector records nothing |
| Serial.SerialOutputBuffer.GetNextBufferSlice | vpux_elf/loader/include/vpux_headers/serial_struct_base.hpp:77-86 | The slice starts at the aligned cursor; it throws iff the slice ends behind the buffer |
| Serial.SerialOutputBuffer.SerializeElement | vpux_elf/loader/include/vpux_headers/serial_struct_base.hpp:245-277 | Within the computed size it never throws; it links the previous descriptor and writes its own descriptor and data, and nothing else |
| Serial.CalculateBufferSize | vpux_elf/loader/include/vpux_headers/serial_struct_base.hpp:235-243 | The sum over all elements of descriptor and data, each rounded up to 8; 0 only without elements |
| Serial.CursorAligned | vpux_elf/loader/include/vpux_headers/serial_struct_base.hpp:77-86 | Behind each element the aligned cursor is exactly the size formula over the elements so far |
| Serial.CursorAtEnd | vpux_elf/loader/include/vpux_headers/serial_struct_base.hpp:228-243 | So fewer than 8 bytes are left behind the last element |
| Serial.Serialize | vpux_elf/loader/include/vpux_headers/serial_struct_base.hpp:189-203 | Never throws except for an empty list; the buffer is exactly the linked image of the elements, of exactly the computed size, and fewer than 8 bytes of it are left when writing ends |
| Serial.GetAddressOfOffset | vpux_elf/loader/include/vpux_headers/serial_struct_base.hpp:65-69 | The two wrapping checks, in 64-bit arithmetic, decide |
| Serial.DeserializeElement | vpux_elf/loader/include/vpux_headers/serial_struct_base.hpp:279-308 | One element refines the reading function: clear to what VersionSkew spells out, resize, copy up to the first refused read, then the next descriptor |
| Serial.Deserialize | vpux_elf/loader/include/vpux_headers/serial_struct_base.hpp:205-223 | For every buffer and every chain in it: the elements and the outcome are those of following the chain on values, which terminates and takes bytes only from inside the buffer |
| SerialReading.AddressExact | vpux_elf/loader/include/vpux_headers/serial_struct_base.hpp:48-69 | For sizes an object can have, the range check and the pointer check together accept exactly the reads inside the buffer, despite wrap-around |
| SerialReading.EveryCheckNeeded | vpux_elf/loader/include/vpux_headers/serial_struct_base.hpp:131-172 | Without the range check, the pointer check or the element-size check, some read outside the buffer would be accepted |
| SerialReading.WalkImage | vpux_elf/loader/include/vpux_headers/serial_struct_base.hpp:205-223 | From any descriptor of an image on, the chain visits every remaining element once and restores it |
| SerialReading.VersionSkew | vpux_elf/loader/include/vpux_headers/serial_struct_base.hpp:205-223 | A shorter list reads the prefix; a longer one reads all stored elements and leaves every remaining vector empty and every remaining single object with the bytes of a value-initialized one |
| SerialReading.OldContentsForgotten | vpux_elf/loader/include/vpux_headers/serial_struct_base.hpp:205-223 | From any buffer, well-formed or not: outcome and elements up to where reading stops do not depend on what the targets held |
| SerialReading.OutsideIsRefused | vpux_elf/loader/include/vpux_headers/serial_struct_base.hpp:279-308 | A descriptor whose data ends behind the buffer stops reading before its target is touched |
| SerialReading.MismatchIsRefused | vpux_elf/loader/include/vpux_headers/serial_struct_base.hpp:104-172 | Several objects for a single one, more than a vector may hold, or objects of another size are refused, each with its exception and what the element is left with |
| SerialReading.RoundTrip | vpux_elf/loader/include/vpux_headers/serial_struct_base.hpp:189-223 | For every non-empty list, empty vectors included, deserializing what was serialized restores every element, whatever the targets held |
| Bytes.DecodeEncode | vpux_elf/core/src/types/relocation_entry.cpp:12-25 | Little-endian integers of any width are read back |
| Bytes.DecodeSplit | vpux_elf/core/src/types/relocation_entry.cpp:12-25 | Little-endian: the bytes behind the first k weigh 256^k times as much |
| Bytes.LittleEndianWords | vpux_elf/loader/src/vpux_loader.cpp:30-37 | Words that relocations load and store have their least significant byte first |
| Bytes.WordOfInt | vpux_elf/core/src/types/relocation_entry.cpp:12-25 | A field decoded as an integer and a word loaded from the same bytes are the same number |
| ElfCodec.StructureSizes | vpux_elf/core/include/vpux_elf/types/section_header.hpp:58-69 | Headers are 64 bytes, symbol and relocation entries 24, as in gABI Chapter 4 |
| ElfCodec.SectionHeaderRoundTrip | vpux_elf/core/include/vpux_elf/types/section_header.hpp:58-69 | A section header is read back as written |
| ElfCodec.ElfHeaderRoundTrip | vpux_elf/core/include/vpux_elf/types/elf_header.hpp:74-89 | The ELF header fields that writer and reader use are read back as written |
| ElfCodec.SymbolRoundTrip | vpux_elf/core/include/vpux_elf/types/symbol_entry.hpp:51-58 | A symbol entry is read back as written |
| ElfCodec.RelaRoundTrip | vpux_elf/core/include/vpux_elf/types/relocation_entry.hpp:24-28 | A relocation entry is read back as written |
| ElfCodec.RInfoRoundTrip | vpux_elf/core/src/types/relocation_entry.cpp:12-25 | Symbol index and type are recovered from r_info |
| ElfLayout.SectionHeaderLayout | vpux_elf/core/include/vpux_elf/types/section_header.hpp:58-69 | Each field of a section header stands at its gABI offset |
| ElfLayout.ElfHeaderLayout | vpux_elf/core/include/vpux_elf/types/elf_header.hpp:74-89 | So does each field of the ELF header that the reader uses |
| ElfLayout.SymbolLayout | vpux_elf/core/include/vpux_elf/types/symbol_entry.hpp:51-58 | And of a symbol entry |
| ElfLayout.RelaLayout | vpux_elf/core/include/vpux_elf/types/relocation_entry.hpp:24-28 | And of a relocation entry; the type is the low half of r_info, the symbol index the high half |
| ElfFile.AlignUpFits | vpux_elf/core/src/utils/utils.cpp:33-38 | In 64-bit arithmetic, wrap-around included: if size and alignment add up to at most 2^64, the result is the least multiple at or above the size |
| StringTable.StandingIsRead | vpux_elf/core/src/writer/string_section.cpp:18-29 | A NUL-terminated string in a table is read from its offset as itself, exactly if it holds no NUL |
| StringTable.EveryStringIsRead | vpux_elf/core/src/writer/string_section.cpp:18-29 | Every string is read back from its own offset whatever is added before and after it, exactly if it holds no NUL |
| SymbolTables.SortIsStable | vpux_elf/core/src/writer/symbol_section.cpp:35-37 | The emitted order is by binding, with the symbols of each binding in the order of adding |
| SymbolTables.StableOrderIsUnique | vpux_elf/core/src/writer/symbol_section.cpp:35-37 | Those two promises leave one result, so any stable sort gives it |
| SymbolTables.SortKeepsSymbols | vpux_elf/core/src/writer/symbol_section.cpp:35-37 | The emitted symbols are a permutation of the added ones |
| SymbolTables.NullSymbolStaysFirst | vpux_elf/core/src/writer/symbol_section.cpp:15-37 | The null symbol stays at index 0 |
| SymbolTables.SortedAlready | vpux_elf/core/src/writer/symbol_section.cpp:35-37 | The order of adding is kept iff bindings were added in non-decreasing order |
| SymbolTables.EmittedDescribes | vpux_elf/core/src/writer/symbol_section.cpp:42-49 | Each emitted entry carries its symbol's fields and a st_name from which the name is read, whatever else the names section holds |
| SymbolTables.RelocationDecodes | vpux_elf/core/src/writer/relocation_section.cpp:59-67 | Each emitted relocation entry decodes to its type, offset, addend and the index at which its symbol was added, or its special symbol |
| SymbolTables.IndexesStayExactly | vpux_elf/core/src/writer/symbol_section.cpp:24-37 | Indexes are not refreshed after sorting: they are right for all symbols iff the symbols were added in non-decreasing order of binding |
| SymbolTables.SortedToRank | vpux_elf/core/src/writer/symbol_section.cpp:35-37 | Sorting moves each symbol to its rank: behind all of smaller binding and the earlier ones of its own |
| SymbolTables.IndexStaysExactly | vpux_elf/core/src/writer/symbol_section.cpp:24-37 | One symbol's index refers to its own emitted entry iff its rank by binding is the position at which it was added |
| SymbolTables.MisplacedSymbol | vpux_elf/core/src/writer/symbol_section.cpp:24-37 | A global symbol added before a local one: its index refers to the other one's entry |
| SymbolTables.LinkingIsCorrect | vpux_elf/core/src/writer/relocation_section.cpp:52-73 | If its symbol's index is right, each emitted r_info leads to the entry of the relocation's own symbol, whose name is read from the names section |
| BlobLayout.LayoutIsSafe | vpux_elf/core/src/writer.cpp:47-78 | Sections that carry bytes get aligned, pairwise disjoint ranges in file order, behind the header table and within the total size |
| BlobLayout.LayoutIsTight | vpux_elf/core/src/writer.cpp:47-78 | No more room than alignments ask for: every section starts at the least aligned offset behind its predecessor, the first behind the header table, and the blob ends with the last |
| BlobLayout.PreparedIsReady | vpux_elf/core/src/writer.cpp:37-79 | Preparing establishes everything that streaming and emitting rely on; tables fill their places exactly |
| BlobLayout.NewWriterFits | vpux_elf/core/src/writer.cpp:28-35 | A new writer satisfies everything that preparing asks for |
| Regions.WriteInside | vpux_elf/core/src/writer/section.cpp:113-119 | A write inside one range changes nothing in any other and nothing outside all of them |
| BlobLayout.AppendHolds | vpux_elf/core/src/writer/section.cpp:113-119 | Appending extends its own section's bytes and disturbs nothing else |
| BlobLayout.EmitHolds | vpux_elf/core/src/writer.cpp:81-108 | Emitting leaves header and header table intact, even when an empty symbol-name table was written over offset 0, and every streamed byte |
| BlobBytes.HeadersOfBlob | vpux_elf/core/src/writer.cpp:81-179 | The emitted bytes by gABI offset: 7f 45 4c 46, class 2, data encoding 1, type 1, section headers at 64, sizes 64, the number of sections, names in section 1, all else 0; and every field of section header i at its offset behind 64 + 64 i |
| BlobLayout.RunHolds | vpux_elf/core/src/writer.cpp:81-119 | Over every run of appends and emits, each byte of the blob is accounted for: tables, own appends, or what was there initially |
| BlobLayout.OwnBytesArrive | vpux_elf/core/src/writer/section.cpp:113-119 | If the bytes fit, each section holds the concatenation of its own appends |
| BlobLayout.InterleavingDoesNotMatter | vpux_elf/core/src/writer.cpp:81-119 | Streams with the same bytes for each section leave identical blobs, however appends are interleaved and whether headers are emitted before, between or after |
| Writer.AppendTo | vpux_elf/core/src/writer/section.cpp:105-119 | An append through a prepared writer's section, fitting or not, is one step of the stream model: bytes, cursors and outcome |
| Writer.EmitTo | vpux_elf/core/src/writer.cpp:81-108 | Emitting through a prepared writer is one step of the stream model and does not throw |
| Writer.Run | vpux_elf/core/src/writer.cpp:81-119 | Any sequence of appends and emits on the writer's objects leaves the blob that the stream model says, failing appends included |
| Writer.Section.AddSymbolEntry | vpux_elf/core/src/writer/symbol_section.cpp:24-28 | The index handed out is the number of symbols so far, and every symbol still carries its own |
| Writer.Section.AddString | vpux_elf/core/src/writer/string_section.cpp:18-29 | The table grows by the string and a NUL; the empty string gets offset 0 and changes nothing |
| Writer.Section.FinalizeSymbols | vpux_elf/core/src/writer/symbol_section.cpp:34-55 | Sorted symbols, the emitted table, links, size and interned names are those of the specification |
| Writer.Section.FinalizeRelocations | vpux_elf/core/src/writer/relocation_section.cpp:52-73 | The emitted table, links, flag and size are those of the specification |
| Writer.Section.AppendData | vpux_elf/core/src/writer/section.cpp:113-119 | Throws iff no start address is set or the bytes do not fit, and then changes nothing; otherwise writes exactly at the cursor and advances it |
| Writer.WriteRawBytes | vpux_elf/core/src/writer.cpp:181-195 | Throws iff the write starts or ends behind the blob's end, and then changes nothing |
| Writer.Writer.FinalizeSections | vpux_elf/core/src/writer.cpp:42-45 | After finalizing and naming all sections in order, both string tables included, every section is as specified |
| Writer.Writer.LayOutSections | vpux_elf/core/src/writer.cpp:47-78 | Offsets, total size and the copied headers are those of the specified layout |
| Writer.Writer.PrepareWriter | vpux_elf/core/src/writer.cpp:37-79 | The prepared sections, headers and size are those of the specification, and ready for streaming and emitting; BlobBytes.HeadersOfBlob gives the bytes of the ELF header |
| Writer.Writer.SetSectionsStartAddr | vpux_elf/core/src/writer.cpp:114-119 | Every section streams to its own offset; cursors stay; a null address is refused |
| Writer.Writer.GenerateELF | vpux_elf/core/src/writer.cpp:81-108 | After preparation it never throws on a buffer of the total size and leaves exactly the specified blob, whose headers BlobBytes.HeadersOfBlob gives byte by byte; before preparation, or without a buffer, it throws and changes nothing |
| BlobReader.ReadRange | vpux_elf/core/include/vpux_elf/accessor.hpp:138-144 | Returns the bytes of the range iff it lies inside the blob; AccessError iff the wrapped sum is above the size; a range that wraps around below it is read outside the blob |
| BlobReader.WrappingBlobIsReadOutside | vpux_elf/core/include/vpux_elf/reader.hpp:100-116 | A blob of 64 bytes whose header table is accepted by all checks and read from outside it |
| BlobReader.OutcomeOf | vpux_elf/core/include/vpux_elf/reader.hpp:94-126 | Parsing succeeds iff the header is acceptable and header table and names lie inside the blob |
| BlobReader.Reader.Parse | vpux_elf/core/include/vpux_elf/reader.hpp:94-126 | Construction ends as that function says; on success header, section headers and names are those of the blob |
| BlobReader.Reader.GetSection | vpux_elf/core/include/vpux_elf/reader.hpp:143-154 | Cached or not, a section is what the headers say; RangeError iff the index is not below e_shnum |
| BlobReader.Reader.GetSectionsNum | vpux_elf/core/include/vpux_elf/reader.hpp:132-141 | Throws only for the count 65535 |
| BlobReader.Reader.GetData | vpux_elf/core/include/vpux_elf/reader.hpp:68-84 | No data for NOBITS and CMX sections; otherwise exactly the section's range of the blob, or a throw exactly if that is not inside |
| BlobReader.EntriesNum | vpux_elf/core/include/vpux_elf/reader.hpp:42-47 | The number of whole entries in the section, or an error for entry size 0 |
| BlobRoundTrip.HeaderKept | vpux_elf/core/src/writer.cpp:60-78 | Preparing keeps the fields that clients set |
| BlobRoundTrip.NamesAreRead | vpux_elf/core/include/vpux_elf/reader.hpp:94-126 | Parsing a completed blob succeeds and finds the written headers and section-name table |
| BlobRoundTrip.NameIsFound | vpux_elf/core/src/writer.cpp:42-45 | Each section's name is read from its sh_name, exactly if it holds no NUL |
| BlobRoundTrip.RoundTrip | vpux_elf/core/src/writer.cpp:37-119 | For any sections and any interleaving that fills them, parsing succeeds and returns at every index the prepared header (which keeps the client's fields), the name exactly if it holds no NUL, and the bytes: appended data, symbol and relocation tables and both string tables alike |
| BlobRoundTrip.NamedExactly | vpux_elf/core/src/writer/symbol_section.cpp:42-54 | The symbol-name table outgrows its first byte exactly if some symbol of some table has a name |
| BlobRoundTrip.RelocationsResolve | vpux_elf/core/src/writer/relocation_section.cpp:52-73 | Linking in the blob: following any relocation through the parsed sections by sh_link and r_info arrives at the entry of its own symbol, if that symbol's index is right (its rank by binding is where it was added); its name is read through st_name exactly if some symbol of some table has a name |
| BlobRoundTrip.NamelessSymbolIsNotRead | vpux_elf/core/src/writer/string_section.cpp:18-29 | In a blob whose only symbol is the null symbol, a relocation against it arrives, but no name can be read |

Main preconditions, as the code relies on them: relocation targets carry data (`TargetsCarryData`); a loader is copied
after it was loaded; a section-name or symbol-name table stays below 2^32 bytes, there are fewer than 65535 sections
and the blob's size fits 64 bits (`FitsFields`); sizes of binary sections are set before preparing, and headers are
not changed afterwards; a relocation section has a section to patch.

## Left out

- BlobLayout.LayoutIsSafe: stated for sections that occupy bytes; a section that only asks for alignment moves the running size, as in the code, but has no range.
- Loader.Clone: clones are compared by copy construction only; copy assignment of loader and container does not clear the existing map and is not modelled.
- SerialReading.RoundTrip: `limit` is what a vector can hold in bytes, and the buffer is assumed to leave room for one record before the end of the 64-bit space.
- Relocations on sections without file data (NOBITS): their initial bytes are unspecified.
- Allocation failures and buffers of another size than requested: the driver is assumed to return exact sizes, or empty scratch buffers; deallocation and the lifetime of shared handles.
- Clones made before their source was loaded: both would then register relocations in the same index vectors.
- A load that is tried again after it failed half way: no state is promised for it.
- Registration of user inputs and outputs (earlyFetchIO, registerUserIO), profiling buffers and lists of buffers by section type.
- Private buffers are stored by value in the map: after copying they have one owner, so the shared_ptr is not modelled.
- What the code does after it has read or written outside an object: the outcome Undefined ends the operation.
- A relocation section whose sh_entsize reports more entries than it has bytes for is read past its end by the code; the model gives that section as a whole the outcome Undefined.
- Files with 65535 sections, which getSectionsNum refuses: the loader's model assumes fewer.
- HostParsedInference, platform classes, version checks and metadata structures: wiring and plain data.
- File-stream access, logging, error texts, the FlatBuffers schemas and the example programs.
- std::stable_sort is a function with its promise proved, not an in-place sort.
- prepareWriter called twice, expandData, and the caller-supplied sh_info of symbol tables.
- The ELF header of a writer that was not prepared is uninitialized in the code; here it has another magic number.
- Pointers between writer sections are section indexes, and a symbol section is handed the symbol-name section when it is finalized.
- DynamicBuffer's alignment arithmetic and the choice between in-place and copied reads: either result has the same bytes.
- Threads: operations are atomic and interleave.

Nothing was executed; every statement is checked by the Dafny verifier only.
