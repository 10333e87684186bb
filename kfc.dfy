/**
 * The KFC directory file: a 24-byte header followed by three index-aligned
 * tables (content hashes, 16-byte size records, data-file offsets), all
 * little-endian.
 */
module Kfc {
  import opened Bytes
  import opened Io

  const HeaderSize: nat := 24
  const SizeEntrySize: nat := 16

  datatype KfcDirFileHeader = KfcDirFileHeader(
    magic: uint32,
    count: uint32,
    count2: uint32,
    field0xc: uint32,
    dataFileSize: uint64)

  datatype KfcSizeEntry = KfcSizeEntry(
    offset: nat,       // stream position of the record
    size0: uint32,
    size1: uint32,
    entryIndex: uint32,
    unk: uint32)

  datatype KfcDirFile = KfcDirFile(
    offset: nat,       // stream position of the header
    header: KfcDirFileHeader,
    dataStart: nat,    // stream position right after the header
    hashTable: seq<uint64>,
    sizeTable: seq<KfcSizeEntry>,
    offsetTable: seq<uint64>)

  // ---------------------------------------------------------------------
  // The layout, as positions in the directory file

  /** The header stored at p: four u32 fields at +0, +4, +8, +12 and a u64 at +16. */
  function HeaderAt(data: seq<uint8>, p: nat): KfcDirFileHeader
    requires p + HeaderSize <= |data|
  {
    KfcDirFileHeader(U32At(data, p), U32At(data, p + 4), U32At(data, p + 8),
                     U32At(data, p + 12), U64At(data, p + 16))
  }

  /** The size record stored at p: four u32 fields, remembering where it was read. */
  function SizeEntryAt(data: seq<uint8>, p: nat): KfcSizeEntry
    requires p + SizeEntrySize <= |data|
  {
    KfcSizeEntry(p, U32At(data, p), U32At(data, p + 4), U32At(data, p + 8), U32At(data, p + 12))
  }

  /** n consecutive little-endian u64 values starting at p. */
  function U64Table(data: seq<uint8>, p: nat, n: nat): seq<uint64>
    requires n > 0 ==> p + 8 * n <= |data|
  {
    seq(n, i requires 0 <= i < n => U64At(data, p + 8 * i))
  }

  /** n consecutive size records starting at p. */
  function SizeTable(data: seq<uint8>, p: nat, n: nat): seq<KfcSizeEntry>
    requires n > 0 ==> p + SizeEntrySize * n <= |data|
  {
    seq(n, i requires 0 <= i < n => SizeEntryAt(data, p + SizeEntrySize * i))
  }

  /** Where each table is sought to, relative to the end of the header. */
  function HashTableStart(dataStart: nat): nat { dataStart }
  function SizeTableStart(dataStart: nat, count: nat): nat { dataStart + 8 * count }
  function OffsetTableStart(dataStart: nat, count2: nat): nat { dataStart + 24 * count2 }

  /**
   * The directory stored at p0, or the error that reading it meets first:
   * a short header, differing counts, then a table that does not fit.
   */
  function KfcDirAt(data: seq<uint8>, p0: nat): Result<KfcDirFile>
  {
    if |data| < p0 + HeaderSize then Err(UnexpectedEof)
    else
      var header := HeaderAt(data, p0);
      var dataStart := p0 + HeaderSize;
      var count, count2 := header.count, header.count2;
      if count != count2 then Err(CountMismatch(count, count2))
      else if |data| < HashTableStart(dataStart) + 8 * count then Err(UnexpectedEof)
      else if |data| < SizeTableStart(dataStart, count) + SizeEntrySize * count then Err(UnexpectedEof)
      else if |data| < OffsetTableStart(dataStart, count2) + 8 * count2 then Err(UnexpectedEof)
      else
        Ok(KfcDirFile(
             p0, header, dataStart,
             U64Table(data, HashTableStart(dataStart), count),
             SizeTable(data, SizeTableStart(dataStart, count), count),
             U64Table(data, OffsetTableStart(dataStart, count2), count2)))
  }

  /** The three tables have one element per entry. */
  ghost predicate TablesAligned(d: KfcDirFile)
  {
    && |d.hashTable| == d.header.count
    && |d.sizeTable| == d.header.count
    && |d.offsetTable| == d.header.count2
    && d.header.count == d.header.count2
  }

  // ---------------------------------------------------------------------
  // Properties of the layout

  /**
   * A directory is returned exactly when the header is complete, its two
   * counts agree and the input holds all 32 bytes per entry after the
   * header; the three tables then have the same length.
   */
  lemma KfcDirSuccess(data: seq<uint8>, p0: nat)
    ensures KfcDirAt(data, p0).Ok? <==>
              && p0 + HeaderSize <= |data|
              && HeaderAt(data, p0).count == HeaderAt(data, p0).count2
              && p0 + HeaderSize + 32 * HeaderAt(data, p0).count <= |data|
    ensures KfcDirAt(data, p0).Ok? ==>
              var d := KfcDirAt(data, p0).value;
              && TablesAligned(d)
              && d.offset == p0 && d.dataStart == p0 + HeaderSize
              && d.header == HeaderAt(data, p0)
  {
  }

  /** Differing counts never yield a directory, however long the input. */
  lemma KfcCountMismatchRejected(data: seq<uint8>, p0: nat)
    requires p0 + HeaderSize <= |data|
    requires HeaderAt(data, p0).count != HeaderAt(data, p0).count2
    ensures KfcDirAt(data, p0) == Err(CountMismatch(HeaderAt(data, p0).count, HeaderAt(data, p0).count2))
  {
  }

  /**
   * In a parsed directory the tables are back to back: the size table is
   * sought to where the hash table ends, the offset table (placed by count2)
   * to where the size table ends, and the offset table ends 32 bytes per
   * entry after the header, within the input.
   */
  lemma KfcTablesContiguous(data: seq<uint8>, p0: nat)
    requires KfcDirAt(data, p0).Ok?
    ensures var d := KfcDirAt(data, p0).value;
      var ds, c, c2 := d.dataStart, d.header.count, d.header.count2;
      && SizeTableStart(ds, c) == HashTableStart(ds) + 8 * |d.hashTable|
      && OffsetTableStart(ds, c2) == SizeTableStart(ds, c) + SizeEntrySize * |d.sizeTable|
      && OffsetTableStart(ds, c2) + 8 * |d.offsetTable| == ds + 32 * c <= |data|
  {
  }

  /** Entry i of each table, as bytes of the directory file. */
  lemma KfcEntryLayout(data: seq<uint8>, p0: nat, i: nat)
    requires KfcDirAt(data, p0).Ok?
    requires i < KfcDirAt(data, p0).value.header.count
    ensures var d := KfcDirAt(data, p0).value;
      && d.dataStart == p0 + HeaderSize
      && i < |d.hashTable| && i < |d.sizeTable| && i < |d.offsetTable|
      && d.hashTable[i] == U64At(data, d.dataStart + 8 * i)
      && d.sizeTable[i] == SizeEntryAt(data, d.dataStart + 8 * d.header.count + 16 * i)
      && d.sizeTable[i].offset == d.dataStart + 8 * d.header.count + 16 * i
      && d.offsetTable[i] == U64At(data, d.dataStart + 24 * d.header.count2 + 8 * i)
  {
  }

  /**
   * The parse reads nothing past the end of the directory: bytes after it,
   * or any input that agrees with it up to that point, parse the same.
   */
  lemma {:induction false} KfcDirLocal(data: seq<uint8>, other: seq<uint8>, p0: nat)
    requires KfcDirAt(data, p0).Ok?
    requires var n := p0 + HeaderSize + 32 * KfcDirAt(data, p0).value.header.count;
      n <= |other| && data[..n] == other[..n]
    ensures KfcDirAt(other, p0) == KfcDirAt(data, p0)
  {
    var d := KfcDirAt(data, p0).value;
    var ds: nat, c: nat := d.dataStart, d.header.count;
    var n := ds + 32 * c;
    U32AtPrefix(data, other, n, p0);
    U32AtPrefix(data, other, n, p0 + 4);
    U32AtPrefix(data, other, n, p0 + 8);
    U32AtPrefix(data, other, n, p0 + 12);
    U64AtPrefix(data, other, n, p0 + 16);
    assert HeaderAt(other, p0) == d.header;
    U64TableLocal(data, other, n, HashTableStart(ds), c);
    SizeTableLocal(data, other, n, SizeTableStart(ds, c), c);
    U64TableLocal(data, other, n, OffsetTableStart(ds, c), c);
  }

  lemma U64TableLocal(data: seq<uint8>, other: seq<uint8>, n: nat, p: nat, c: nat)
    requires n <= |data| && n <= |other| && data[..n] == other[..n] && p + 8 * c <= n
    ensures U64Table(other, p, c) == U64Table(data, p, c)
  {
    forall i | 0 <= i < c
      ensures U64Table(other, p, c)[i] == U64Table(data, p, c)[i]
    {
      U64AtPrefix(data, other, n, p + 8 * i);
    }
  }

  lemma SizeTableLocal(data: seq<uint8>, other: seq<uint8>, n: nat, p: nat, c: nat)
    requires n <= |data| && n <= |other| && data[..n] == other[..n] && p + SizeEntrySize * c <= n
    ensures SizeTable(other, p, c) == SizeTable(data, p, c)
  {
    forall i | 0 <= i < c
      ensures SizeTable(other, p, c)[i] == SizeTable(data, p, c)[i]
    {
      var q := p + SizeEntrySize * i;
      U32AtPrefix(data, other, n, q);
      U32AtPrefix(data, other, n, q + 4);
      U32AtPrefix(data, other, n, q + 8);
      U32AtPrefix(data, other, n, q + 12);
    }
  }

  // ---------------------------------------------------------------------
  // The reader

  /** `read_kfc_file_header`: five sequential little-endian reads. */
  method ReadKfcFileHeader(rdr: Reader) returns (r: Result<KfcDirFileHeader>)
    modifies rdr
    ensures old(rdr.pos) + HeaderSize <= |rdr.data| ==>
              r == Ok(HeaderAt(rdr.data, old(rdr.pos))) && rdr.pos == old(rdr.pos) + HeaderSize
    ensures |rdr.data| < old(rdr.pos) + HeaderSize ==> r == Err(UnexpectedEof)
  {
    var magic := rdr.ReadU32();
    if magic.Err? { return Err(magic.error); }
    var count := rdr.ReadU32();
    if count.Err? { return Err(count.error); }
    var count2 := rdr.ReadU32();
    if count2.Err? { return Err(count2.error); }
    var field0xc := rdr.ReadU32();
    if field0xc.Err? { return Err(field0xc.error); }
    var dataFileSize := rdr.ReadU64();
    if dataFileSize.Err? { return Err(dataFileSize.error); }
    r := Ok(KfcDirFileHeader(magic.value, count.value, count2.value, field0xc.value, dataFileSize.value));
  }

  /** `read_kfc_size_entry`: the record's own position, then four u32 reads. */
  method ReadKfcSizeEntry(rdr: Reader) returns (r: Result<KfcSizeEntry>)
    modifies rdr
    ensures old(rdr.pos) + SizeEntrySize <= |rdr.data| ==>
              r == Ok(SizeEntryAt(rdr.data, old(rdr.pos))) && rdr.pos == old(rdr.pos) + SizeEntrySize
    ensures |rdr.data| < old(rdr.pos) + SizeEntrySize ==> r == Err(UnexpectedEof)
  {
    var offset := rdr.StreamPosition();
    var size0 := rdr.ReadU32();
    if size0.Err? { return Err(size0.error); }
    var size1 := rdr.ReadU32();
    if size1.Err? { return Err(size1.error); }
    var entryIndex := rdr.ReadU32();
    if entryIndex.Err? { return Err(entryIndex.error); }
    var unk := rdr.ReadU32();
    if unk.Err? { return Err(unk.error); }
    r := Ok(KfcSizeEntry(offset, size0.value, size1.value, entryIndex.value, unk.value));
  }

  /**
   * `read_kfc_dir_file`: the header, the count check, then each table read
   * after an absolute seek. Any failed read ends the parse with no directory.
   */
  method ReadKfcDirFile(rdr: Reader) returns (r: Result<KfcDirFile>)
    modifies rdr
    ensures r == KfcDirAt(rdr.data, old(rdr.pos))
    ensures r.Ok? ==> rdr.pos == r.value.dataStart + 32 * r.value.header.count
  {
    var offset := rdr.StreamPosition();
    var hr := ReadKfcFileHeader(rdr);
    if hr.Err? { return Err(hr.error); }
    var header := hr.value;
    var dataStart := rdr.StreamPosition();
    ghost var data := rdr.data;
    assert header == HeaderAt(data, offset);

    if header.count != header.count2 {
      return Err(CountMismatch(header.count, header.count2));
    }
    var count, count2 := header.count, header.count2;

    // hash table
    rdr.Seek(HashTableStart(dataStart));
    var hashTable := ReadU64Table(rdr, count);
    if hashTable.Err? { return Err(hashTable.error); }

    // size table
    rdr.Seek(SizeTableStart(dataStart, count));
    var sizeTable := ReadSizeTable(rdr, count);
    if sizeTable.Err? { return Err(sizeTable.error); }

    // offset table
    rdr.Seek(OffsetTableStart(dataStart, count2));
    var offsetTable := ReadU64Table(rdr, count2);
    if offsetTable.Err? { return Err(offsetTable.error); }

    r := Ok(KfcDirFile(offset, header, dataStart, hashTable.value, sizeTable.value, offsetTable.value));
  }

  /** The loop that reads n consecutive u64 table entries, stopping at the first failed read. */
  method ReadU64Table(rdr: Reader, n: nat) returns (r: Result<seq<uint64>>)
    modifies rdr
    ensures r.Ok? <==> n == 0 || old(rdr.pos) + 8 * n <= |rdr.data|
    ensures r.Ok? ==> r.value == U64Table(rdr.data, old(rdr.pos), n) && rdr.pos == old(rdr.pos) + 8 * n
    ensures r.Err? ==> r.error == UnexpectedEof
  {
    var table: seq<uint64> := [];
    ghost var start := rdr.pos;
    for k := 0 to n
      invariant rdr.pos == start + 8 * k
      invariant k > 0 ==> rdr.pos <= |rdr.data|
      invariant |table| == k
      invariant forall i :: 0 <= i < k ==> table[i] == U64At(rdr.data, start + 8 * i)
    {
      var entry := rdr.ReadU64();
      if entry.Err? { return Err(entry.error); }
      table := table + [entry.value];
    }
    assert table == U64Table(rdr.data, start, n);
    r := Ok(table);
  }

  /** The loop that reads n consecutive size records, stopping at the first failed read. */
  method ReadSizeTable(rdr: Reader, n: nat) returns (r: Result<seq<KfcSizeEntry>>)
    modifies rdr
    ensures r.Ok? <==> n == 0 || old(rdr.pos) + SizeEntrySize * n <= |rdr.data|
    ensures r.Ok? ==> r.value == SizeTable(rdr.data, old(rdr.pos), n) && rdr.pos == old(rdr.pos) + SizeEntrySize * n
    ensures r.Err? ==> r.error == UnexpectedEof
  {
    var table: seq<KfcSizeEntry> := [];
    ghost var start := rdr.pos;
    for k := 0 to n
      invariant rdr.pos == start + SizeEntrySize * k
      invariant k > 0 ==> rdr.pos <= |rdr.data|
      invariant |table| == k
      invariant forall i :: 0 <= i < k ==> table[i] == SizeEntryAt(rdr.data, start + SizeEntrySize * i)
    {
      var entry := ReadKfcSizeEntry(rdr);
      if entry.Err? { return Err(entry.error); }
      table := table + [entry.value];
    }
    assert table == SizeTable(rdr.data, start, n);
    r := Ok(table);
  }
}
