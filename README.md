# kfc-tools in Dafny

A Dafny model of the parsing core of kfc-tools, an extractor for the archive
files of a game. The archive is made of two files:

- **the KFC directory file.** It holds a 24-byte header followed by three
  index-aligned tables:
  - the content hashes that name the files;
  - 16-byte size records;
  - the offsets of each file's bytes in the data file.
- **the KFC data file.** It holds the bytes of the files.

The extractor parses the directory, then handles every entry in index order:

1. slice the entry's bytes out of the data file;
2. classify them as a resource package when they start with the tag "CRPF",
   and as raw otherwise;
3. write them to `./output/<category>/<hash in upper-case hex>`.

A second container format, KSC1, is parsed by its own reader. A KSC1 file has
a 24-byte header tagged "KSC1", a table of contents of 12-byte entries, and
then the sections themselves, back to back.

The files of the model:

| file | module | models |
|---|---|---|
| `bytes.dfy` | `Bytes` | byte and word types; the little-endian decoders used for `read_u32`/`read_u64`, with encoders as their inverses |
| `io.dfy` | `Io` | the error kinds; the result types; `Reader`, a class holding an input of bytes and a cursor, for the `Read + Seek` stream |
| `kfc.dfy` | `Kfc` | `src/kfc.rs` |
| `ksc.dfy` | `Ksc` | `src/ksc.rs` |
| `extractor.dfy` | `Extractor` | the extraction loop of `main` in `src/main.rs` |

### How the model is built

The readers are imperative, as in the source. The stream primitives
(`StreamPosition`, `Seek`, `ReadU32`, `ReadU64`, `ReadExact`) are methods of
the `Reader` class. Each `read_*` function of the parsers is a module-level
method that takes the reader as a parameter and moves its cursor with
sequential reads and absolute seeks, and its loops append to sequences.
Each such method is proved equal to a declarative layout function of the
input bytes and the start position (`KfcDirAt`, `Ksc1FileAt`). The
properties of the formats are lemmas about those functions.

The extraction loop is the method `ExtractKfc`. It updates the output tree,
a `map<string, seq<uint8>>` from path to file contents. It is proved equal
to `RunUpTo`, a fold over the results of the entries, entry by entry
(`EntryWrites`). The lemmas on `RunUpTo` state several things:
- last writer wins;
- untouched paths keep their contents;
- the run stops at the first failing entry;
- a run completes exactly when every entry succeeds.

Panics are error results:
- the `assert_eq!` on the two KFC counts gives `CountMismatch`;
- the `assert_eq!` on the KSC1 magic gives `BadMagic`;
- an out-of-range index in the CRPF test gives `IndexOutOfBounds`.

### Points where the code is followed as written

- **Parser called by `main`.** `src/main.rs:8` and `src/main.rs:26` call
  `read_kfc_dir`, but `src/kfc.rs` defines only `read_kfc_dir_file`
  (`src/kfc.rs:65`). The model runs `Kfc.ReadKfcDirFile` in that place.
- **Short entries.** The CRPF test (`src/main.rs:51-54`) indexes bytes 0 to 3
  with no length check. The model evaluates the `&&` chain left to right,
  as Rust does:
  - an entry shorter than four bytes whose bytes are a prefix of "CRPF"
    panics, with an index-out-of-bounds error;
  - any other short entry fails an earlier comparison first and is
    classified raw.

  The model does not treat every short entry as raw.
- **Output path.** The path is `./output/<category>/<HEX>`
  (`src/main.rs:61-62`). There is no `kfc` path component.
- **KFC magic is not checked.** `read_kfc_file_header` reads the `magic`
  field (`src/kfc.rs:20`) and nothing compares it with a constant, so a
  directory file with any first four bytes parses. The model keeps this and
  adds no magic check, unlike the KSC1 reader whose magic is asserted.
- **KSC1 is never reached.** `src/main.rs` does not declare `src/ksc.rs` as a
  module, so no run reaches the KSC1 reader. The model covers it on its own.

## Model

| member | source | states |
|---|---|---|
| Bytes.U32At | src/kfc.rs:20-23 | definition: `read_u32::<LittleEndian>`, the four bytes at p, least significant first |
| Bytes.U64At | src/kfc.rs:24 | definition: `read_u64::<LittleEndian>`, the eight bytes at p, low word first |
| Bytes.U32DecodeEncode | src/kfc.rs:20-23 | the four little-endian bytes of a u32 decode back to that value |
| Bytes.U32EncodeDecode | src/kfc.rs:20-23 | re-encoding a decoded u32 gives back exactly the four bytes it was read from |
| Bytes.U64DecodeEncode | src/kfc.rs:24 | the eight little-endian bytes of a u64 decode back to that value |
| Bytes.U64EncodeDecode | src/kfc.rs:24 | re-encoding a decoded u64 gives back exactly the eight bytes it was read from |
| Bytes.U32AtPrefix | src/kfc.rs:20-23 | a u32 read depends only on its four bytes: inputs that agree up to n decode equally below n |
| Bytes.U64AtPrefix | src/kfc.rs:24 | a u64 read depends only on its eight bytes |
| Io.Reader.constructor | src/main.rs:25 | a fresh reader over the file bytes starts at position 0 |
| Io.Reader.StreamPosition | src/kfc.rs:69 | `stream_position` returns the cursor and moves nothing |
| Io.Reader.Seek | src/kfc.rs:78 | an absolute seek sets the cursor to any position, even past the end |
| Io.Reader.ReadU32 | src/kfc.rs:20 | a u32 read yields the little-endian value at the cursor and advances 4 when four bytes remain; otherwise it fails with end of stream |
| Io.Reader.ReadU64 | src/kfc.rs:24 | a u64 read yields the little-endian value at the cursor and advances 8 when eight bytes remain; otherwise it fails with end of stream |
| Io.Reader.ReadExact | src/ksc.rs:47 | `read_exact` succeeds exactly when the buffer is empty or the buffer's length in bytes remains; an empty buffer succeeds at once, wherever the cursor is; a non-empty one then holds those bytes, and the cursor has moved past them; otherwise it fails with end of stream, with the cursor and buffer unchanged |
| Kfc.HeaderAt | src/kfc.rs:15-28 | definition: the header fields as the u32s at +0, +4, +8, +12 and the u64 at +16 |
| Kfc.SizeEntryAt | src/kfc.rs:40-51 | definition: a size record as its position and the four u32s after it |
| Kfc.U64Table | src/kfc.rs:79-83 | definition: the n consecutive little-endian u64s from p, the vector the hash-table loop pushes (and the offset-table loop at src/kfc.rs:95-99) |
| Kfc.SizeTable | src/kfc.rs:87-91 | definition: the n consecutive 16-byte size records from p, the vector the size-table loop pushes |
| Kfc.KfcDirAt | src/kfc.rs:65-109 | definition: the directory at p0, or the first error: short header, count mismatch, then a table that does not fit |
| Kfc.ReadKfcFileHeader | src/kfc.rs:15-28 | header fields are the little-endian u32s at +0, +4, +8 and +12 and the u64 at +16; the reader ends 24 bytes on; a short header is an error |
| Kfc.ReadKfcSizeEntry | src/kfc.rs:40-51 | a size record is its own start position followed by four little-endian u32s; the reader ends 16 bytes on; a short record is an error |
| Kfc.ReadU64Table | src/kfc.rs:79-83 | the table loop succeeds exactly when all n u64s fit; it then yields the n consecutive values from the cursor on |
| Kfc.ReadSizeTable | src/kfc.rs:87-91 | the size-table loop succeeds exactly when all n 16-byte records fit; it then yields the n consecutive records |
| Kfc.ReadKfcDirFile | src/kfc.rs:65-109 | `read_kfc_dir_file` returns exactly the directory or the error that the layout function gives for the input and start position; on success the cursor has reached the end of the offset table |
| Kfc.KfcDirSuccess | src/kfc.rs:75-99 | a directory is returned if and only if the header is complete, count equals count2, and 32 bytes per entry follow the header; on success the three tables have count entries each, the directory records p0 as its offset and p0 + 24 as its data start, and its header is the one stored at p0 |
| Kfc.KfcCountMismatchRejected | src/kfc.rs:75 | differing counts are always rejected, with both counts in the error, however long the input |
| Kfc.KfcTablesContiguous | src/kfc.rs:86-94 | in a parsed directory the size table is sought to where the hash table ends, and the offset table, placed by count2, to where the size table ends; the offset table ends 32 bytes per entry after the header, within the input |
| Kfc.KfcEntryLayout | src/kfc.rs:69-99 | the data start is the start plus 24; entries hash[i], size[i] and offset[i] are the values at dataStart + 8i, dataStart + 8count + 16i and dataStart + 24count2 + 8i; size[i] records its own position |
| Kfc.KfcDirLocal | src/kfc.rs:65-109 | the parse reads nothing past the end of the offset table: any input that agrees up to there parses to the same directory |
| Ksc.Ksc1HeaderAt | src/ksc.rs:18-29 | definition: the header as its position, the u32s at +0 and +4 and the u64s at +8 and +16 |
| Ksc.TocEntryAt | src/ksc.rs:40-57 | definition: an entry as the u32 hash, four raw name bytes and the u32 size, recording the position after them |
| Ksc.TocAt | src/ksc.rs:82-86 | definition: the n consecutive 12-byte entries from p, the vector the TOC loop pushes |
| Ksc.SizePrefix | src/ksc.rs:92-96 | definition: the sum of the first i entry sizes, the bytes the section loop has read before section i |
| Ksc.SectionAt | src/ksc.rs:93-95 | definition: section i as the toc[i].size bytes that follow the earlier sections |
| Ksc.SectionsAt | src/ksc.rs:91-97 | definition: section i is the toc[i].size bytes after the sum of the earlier sizes |
| Ksc.Ksc1FileAt | src/ksc.rs:72-107 | definition: the container at p0, or the first error: short header, wrong magic, short table of contents, short section |
| Ksc.Ksc1MagicIsTag | src/ksc.rs:6 | 0x3143534B is the little-endian reading of the bytes "KSC1", and its encoding is those bytes |
| Ksc.Ksc1MagicDecidedByHeader | src/ksc.rs:77-78 | a wrong magic is rejected as BadMagic from the 24 header bytes alone, whatever follows |
| Ksc.Ksc1FileSuccess | src/ksc.rs:72-107 | a container is returned if and only if the header is complete and tagged "KSC1", all table-of-contents entries fit, and all the sections they declare fit after them |
| Ksc.Ksc1TocLayout | src/ksc.rs:40-57 | on success the header offset is the start and the table of contents begins 24 bytes on; entry i is the hash, four name bytes and size at tocStart + 12i, and records tocStart + 12(i+1); the sections begin at tocStart + 12 sectionCount |
| Ksc.Ksc1FileAtParts | src/ksc.rs:76-97 | a parsed container is the header, then the table of contents read from after it, then the sections cut from after that |
| Ksc.SectionsAtLayout | src/ksc.rs:92-96 | section i is the toc[i].size bytes that begin after the sizes of the sections before it |
| Ksc.Ksc1SectionLayout | src/ksc.rs:92-96 | on success section i has length toc[i].size and is the input slice at sectionsStart + the sum of the earlier sizes |
| Ksc.SectionsPrefixTile | src/ksc.rs:91-97 | the first k sections, joined, are the input bytes from the section start to the sum of the first k sizes |
| Ksc.SectionsTile | src/ksc.rs:91-97 | all the sections, joined, are the input bytes they were cut from, and each has its entry's size |
| Ksc.Ksc1SectionsTile | src/ksc.rs:91-97 | on success the sections tile the input in order: one per entry, each its entry's size, with concatenation equal to the input from sectionsStart to the end of the last section |
| Ksc.ConcatInjective | src/ksc.rs:91-97 | block sequences with the same lengths and the same concatenation are equal |
| Ksc.TilingUnique | src/ksc.rs:91-97 | any blocks of the entries' sizes whose concatenation is the section bytes are exactly the sections |
| Ksc.ReadKsc1Header | src/ksc.rs:18-29 | the header records the start position, then the little-endian u32s at +0 and +4 and the u64s at +8 and +16; the reader ends 24 bytes on; a short header is an error |
| Ksc.ReadKsc1TocEntry | src/ksc.rs:40-57 | an entry is a u32 hash, four raw name bytes and a u32 size, and records the position after them; a short entry is an error |
| Ksc.ReadToc | src/ksc.rs:81-86 | the table-of-contents loop succeeds exactly when all n entries fit; it then yields the n consecutive entries |
| Ksc.ReadSections | src/ksc.rs:89-97 | the section loop succeeds exactly when all sections fit; it then yields exactly the sections laid back to back, and the cursor ends after the last one |
| Ksc.ReadKsc1File | src/ksc.rs:72-107 | `read_ksc1_file` returns exactly the container, or the error, that the layout function gives; after BadMagic the cursor is just past the header; on success it is past the last section |
| Extractor.CrpfMagicIsTag | src/main.rs:51-54 | the four bytes compared are the ASCII tag "CRPF" |
| Extractor.SniffCategory | src/main.rs:50-60 | data of four or more bytes is always classified; it is a resource package if and only if its first four bytes are "CRPF"; classification fails, with an index past the end, if and only if the data is shorter than four bytes and is a prefix of "CRPF" |
| Extractor.UpperHex | src/main.rs:62 | definition: `{:X}`, upper-case hexadecimal digits, most significant first, no padding |
| Extractor.CategoryName | src/main.rs:56-58 | definition: the category strings "resource_packages" and "raw" |
| Extractor.OutputDir | src/main.rs:61 | definition: `./output/` followed by the category name |
| Extractor.OutputFilePath | src/main.rs:61-62 | definition: `./output/` + category + `/` + the hash in `{:X}` |
| Extractor.UpperHexRoundTrip | src/main.rs:62 | reading the `{:X}` digits back as hexadecimal gives the hash |
| Extractor.UpperHexShape | src/main.rs:62 | `{:X}` yields at least one digit, every digit is 0-9 or A-F, and the first digit is '0' only for zero |
| Extractor.UpperHexInjective | src/main.rs:62 | two hashes format alike if and only if they are equal |
| Extractor.OutputFilePathInjective | src/main.rs:61-62 | two output paths are equal if and only if category and hash are equal |
| Extractor.ResolveEntryFromDirFile | src/main.rs:33-36 | every index below count is valid in all three tables of a parsed directory; entry i takes its hash, offset and size_0 from the directory bytes at 24 + 8i, 24 + 24count + 8i and 24 + 8count + 16i |
| Extractor.ResolveEntry | src/main.rs:34-36 | definition: entry i is hash_table[i], offset_table[i] and size_table[i].size_0 |
| Extractor.ExtractEntry | src/main.rs:43-62 | definition: the loop body up to the write, as a value: the slice read, its category and its output path, or the error that ends the run |
| Extractor.EntryBytes | src/main.rs:43-45 | definition: the seek and `read_exact` of an entry: nothing for size 0, end of stream when the data file is shorter than offset + size, otherwise data[offset..offset + size] |
| Extractor.ExtractEntryCorrect | src/main.rs:43-62 | an entry fails with end of stream if and only if its size is positive and the data file is shorter than offset + size; an entry of size 0 reads nothing, wherever its offset is, and then panics at its first index; an entry that fits and has at least four bytes is always written; the bytes written are data[offset..offset + size], under the path for "CRPF"-tagged or raw data |
| Extractor.EntryWrites | src/main.rs:33-62 | definition: one result per directory entry, that of entry i's body |
| Extractor.EntryWritesCorrect | src/main.rs:33-62 | entry i, in terms of the directory's tables: end of stream if and only if size_0 is positive and the data file ends before offset_table[i] + size_0; an entry of at least four bytes that fits is written; a written entry is the data file's bytes at offset_table[i], size_0 of them, under the path of their category and hash_table[i] |
| Extractor.RunUpTo | src/main.rs:33-67 | definition: the first n iterations in order; each success writes its file, the first failure stops the run with its error |
| Extractor.RunNextOk | src/main.rs:65-66 | an entry that succeeds while the run still goes adds its path and bytes to the tree, replacing any earlier contents |
| Extractor.RunNextErr | src/main.rs:45 | an entry that fails while the run still goes stops it with that entry's error and leaves the tree as it was |
| Extractor.RunStaysStopped | src/main.rs:45 | once stopped, later entries change neither the tree nor the error |
| Extractor.RunStep | src/main.rs:33-66 | a run that completes n entries had completed n - 1, and entry n - 1 was written on top of the tree they left |
| Extractor.RunAllWritten | src/main.rs:33-66 | after a completed run every entry succeeded |
| Extractor.RunLastWriterWins | src/main.rs:33-66 | after a completed run the path of entry i holds entry i's bytes unless a later entry was written to the same path |
| Extractor.RunUntouched | src/main.rs:65-66 | after a completed run a path that no entry wrote holds what it held before |
| Extractor.RunStopsAtFirstFailure | src/main.rs:33-66 | a failed run failed at the first failing entry k: the entries before it succeeded, the tree is what they left, and the error is entry k's |
| Extractor.RunPassIff | src/main.rs:33-66 | a run completes if and only if every entry succeeds |
| Extractor.ReadEntry | src/main.rs:34-62 | the loop body up to the write: seek, `read_exact` into a zeroed buffer, classify and format the path; it yields `ExtractEntry` of the resolved entry, so an entry of size 0 reads nothing, wherever its offset is, and then fails the classification with an index out of bounds; whenever the entry's bytes could be read, the data file's cursor ends at offset_table[i] + size_0 |
| Extractor.ReadEntryBytes | src/main.rs:43-45 | seeks to the offset, allocates a zeroed buffer of the size and fills it with `read_exact`; the result is `EntryBytes` of the data file, so a short file fails with end of stream and a size of 0 reads nothing; on success the cursor ends at offset + size |
| Extractor.ExtractKfc | src/main.rs:31-67 | the loop over 0..count leaves exactly the tree and outcome of the entry-by-entry run |
| Extractor.RunKfcExtractor | src/main.rs:24-67 | a directory that does not parse leaves the tree untouched and reports the parse error; one that parses is indexable and is run entry by entry over the data file |
| Extractor.SingleEntryDir | src/kfc.rs:55-63 | an indexable one-entry directory value whose entry 0 resolves to (hash, offset 0, size 4) |
| Extractor.SingleEntryDirParses | src/kfc.rs:65-109 | the 56 directory-file bytes of that entry (header 0, 1, 1, 0, 4; the hash; the size record 4, 0, 0, 0; offset 0) parse from position 0 to exactly `SingleEntryDir` |
| Extractor.SingleEntryPackage | src/main.rs:50-66 | a one-entry run over the bytes "CRPF" writes them to `./output/resource_packages/<HEX hash>` and completes; with `SingleEntryDirParses`, this is what `RunKfcExtractor` leaves for the two files |
| Extractor.SingleEntryRaw | src/main.rs:50-66 | a one-entry run over four zero bytes writes them to `./output/raw/<HEX hash>` and completes |

## Left out

- File I/O is not modelled: `File::open`, `BufReader`, `fs::create_dir_all`, `File::create` and `write_all`. The directory and data files are byte sequences. The output directory is a map from path to contents, and the `File::create` plus `write_all` of one entry is a single map update. Directory creation and write errors are not modelled.
- `println!` and `eprintln!` are not modelled: they only produce log output.
- Command-line handling is not modelled (`src/main.rs:11-20`). `RunKfcExtractor` takes the contents of the two files directly.
- Io.Reader.Seek: the model lets a seek always set the cursor, and a position past the end shows up as a failing read. Seek errors are not modelled; the source discards the seek results.
- Offsets of 2^63 or more: `File::seek` fails for them. `BufReader` then keeps its position, and because the error is discarded (`src/main.rs:43`), `read_exact` reads on from where the previous entry's read ended. The model seeks to the offset in every case, so it does not capture this.
- `try_into` from u32 to `usize` (`src/ksc.rs:94`, `src/main.rs:44`) cannot fail on the platforms the tool targets, so sizes are plain naturals.
- Positions are natural numbers. Position arithmetic that overflows u64 is not modelled: the positions the parsers compute from u32 counts cannot reach that.
- Io.Reader.ReadU32, Io.Reader.ReadU64 and Io.Reader.ReadExact leave the cursor and the buffer unchanged when they fail. The standard library leaves both unspecified. Every failure ends the parse or the run, so the difference is not observable.
- Kfc.ReadKfcFileHeader: on an error only the error is stated, not where the cursor stops; no caller uses the cursor after an error.
- Kfc.ReadKfcSizeEntry: on an error only the error is stated, not where the cursor stops; no caller uses the cursor after an error.
- Kfc.ReadU64Table: on an error only the error is stated, not where the cursor stops; no caller uses the cursor after an error.
- Kfc.ReadSizeTable: on an error only the error is stated, not where the cursor stops; no caller uses the cursor after an error.
- Kfc.ReadKfcDirFile: on an error only the error is stated, not where the cursor stops; no caller uses the cursor after an error.
- Ksc.ReadKsc1Header: on an error only the error is stated, not where the cursor stops; no caller uses the cursor after an error.
- Ksc.ReadKsc1TocEntry: on an error only the error is stated, not where the cursor stops; no caller uses the cursor after an error.
- Ksc.ReadToc: on an error only the error is stated, not where the cursor stops; no caller uses the cursor after an error.
- Ksc.ReadSections: on an error only the error is stated, not where the cursor stops; no caller uses the cursor after an error.
- Ksc.ReadKsc1File: on an error other than a wrong magic only the error is stated, not where the cursor stops; no caller uses the cursor after an error.
- Panics are error results: `assert_eq!` failures and the out-of-range index in the CRPF test. Unwinding and the process exit status are not modelled.
- `header_crc` is read but never checked by the source, and the model adds no check.
- Decompression of KSC1 sections and any extraction of KSC1 files are not modelled: nothing in the source does either.
- `reverse_engineering/ida_dump_reflection_data.py` is not part of this model. It reads a live process image through the IDA API.
