/**
 * The KSC1 container: a 24-byte header tagged "KSC1", a table of contents
 * of 12-byte entries, then the sections themselves, back to back, each as
 * long as its table-of-contents entry says.
 */
module Ksc {
  import opened Bytes
  import opened Io

  /** "KSC1" read as a little-endian u32. */
  const Ksc1FileMagic: uint32 := 0x3143534B

  const Ksc1HeaderSize: nat := 24
  const TocEntrySize: nat := 12

  datatype Ksc1Header = Ksc1Header(
    offset: nat,       // stream position before the header
    magic: uint32,
    sectionCount: uint32,
    headerCrc: uint64, // read, never checked
    unk: uint64)

  datatype Ksc1TocEntry = Ksc1TocEntry(
    offset: nat,       // stream position after the entry
    hash: uint32,
    nameBytes: seq<uint8>,
    size: uint32)

  datatype Ksc1File = Ksc1File(
    offset: nat,
    header: Ksc1Header,
    tocStart: nat,
    toc: seq<Ksc1TocEntry>,
    sectionsStart: nat,
    sections: seq<seq<uint8>>)

  // ---------------------------------------------------------------------
  // The layout

  function Ksc1HeaderAt(data: seq<uint8>, p: nat): Ksc1Header
    requires p + Ksc1HeaderSize <= |data|
  {
    Ksc1Header(p, U32At(data, p), U32At(data, p + 4), U64At(data, p + 8), U64At(data, p + 16))
  }

  /** The entry stored at p: a u32 hash, four raw name bytes, a u32 size. */
  function TocEntryAt(data: seq<uint8>, p: nat): Ksc1TocEntry
    requires p + TocEntrySize <= |data|
  {
    Ksc1TocEntry(p + TocEntrySize, U32At(data, p), data[p + 4..p + 8], U32At(data, p + 8))
  }

  function TocAt(data: seq<uint8>, p: nat, n: nat): (toc: seq<Ksc1TocEntry>)
    requires p + TocEntrySize * n <= |data|
    ensures |toc| == n
  {
    seq(n, i requires 0 <= i < n => TocEntryAt(data, p + TocEntrySize * i))
  }

  /** The total size of the first i sections. */
  function SizePrefix(toc: seq<Ksc1TocEntry>, i: nat): nat
    requires i <= |toc|
  {
    if i == 0 then 0 else SizePrefix(toc, i - 1) + toc[i - 1].size
  }

  lemma {:induction false} SizePrefixMonotone(toc: seq<Ksc1TocEntry>, i: nat, j: nat)
    requires i <= j <= |toc|
    ensures SizePrefix(toc, i) <= SizePrefix(toc, j)
    decreases j
  {
    if i < j {
      SizePrefixMonotone(toc, i, j - 1);
    }
  }

  /** Section i: the bytes after the sections before it, as many as its entry says. */
  function SectionAt(data: seq<uint8>, start: nat, toc: seq<Ksc1TocEntry>, i: nat): seq<uint8>
    requires start + SizePrefix(toc, |toc|) <= |data|
    requires i < |toc|
  {
    SizePrefixMonotone(toc, i + 1, |toc|);
    data[start + SizePrefix(toc, i)..start + SizePrefix(toc, i) + toc[i].size]
  }

  function SectionsAt(data: seq<uint8>, start: nat, toc: seq<Ksc1TocEntry>): (ss: seq<seq<uint8>>)
    requires start + SizePrefix(toc, |toc|) <= |data|
    ensures |ss| == |toc|
  {
    seq(|toc|, i requires 0 <= i < |toc| => SectionAt(data, start, toc, i))
  }

  /**
   * The container stored at p0, or the error that reading it meets first:
   * a short header, a wrong magic, a short table of contents, a short section.
   */
  function Ksc1FileAt(data: seq<uint8>, p0: nat): Result<Ksc1File>
  {
    if |data| < p0 + Ksc1HeaderSize then Err(UnexpectedEof)
    else
      var header := Ksc1HeaderAt(data, p0);
      if header.magic != Ksc1FileMagic then Err(BadMagic(header.magic))
      else
        var tocStart := p0 + Ksc1HeaderSize;
        var n := header.sectionCount;
        if |data| < tocStart + TocEntrySize * n then Err(UnexpectedEof)
        else
          var toc := TocAt(data, tocStart, n);
          var sectionsStart := tocStart + TocEntrySize * n;
          if |data| < sectionsStart + SizePrefix(toc, n) then Err(UnexpectedEof)
          else Ok(Ksc1File(p0, header, tocStart, toc, sectionsStart, SectionsAt(data, sectionsStart, toc)))
  }

  /** The concatenation of a sequence of byte blocks. */
  function Concat(blocks: seq<seq<uint8>>): seq<uint8>
  {
    if blocks == [] then [] else Concat(blocks[..|blocks| - 1]) + blocks[|blocks| - 1]
  }

  // ---------------------------------------------------------------------
  // Properties of the layout

  /** The magic constant is the tag "KSC1", read little-endian. */
  lemma Ksc1MagicIsTag()
    ensures U32At(AsciiBytes("KSC1"), 0) == Ksc1FileMagic
    ensures U32Bytes(Ksc1FileMagic) == AsciiBytes("KSC1")
  {
  }

  /**
   * A wrong magic is reported from the 24 header bytes alone: any input that
   * shares them is rejected the same way, whatever follows.
   */
  lemma Ksc1MagicDecidedByHeader(data: seq<uint8>, other: seq<uint8>, p0: nat)
    requires p0 + Ksc1HeaderSize <= |data| && p0 + Ksc1HeaderSize <= |other|
    requires data[..p0 + Ksc1HeaderSize] == other[..p0 + Ksc1HeaderSize]
    requires Ksc1HeaderAt(data, p0).magic != Ksc1FileMagic
    ensures Ksc1FileAt(data, p0) == Ksc1FileAt(other, p0) == Err(BadMagic(Ksc1HeaderAt(data, p0).magic))
  {
    U32AtPrefix(data, other, p0 + Ksc1HeaderSize, p0);
  }

  /**
   * A container is returned exactly when the header is complete and tagged
   * "KSC1", the input holds all declared table-of-contents entries, and it
   * holds all the sections those entries declare after them.
   */
  lemma Ksc1FileSuccess(data: seq<uint8>, p0: nat)
    ensures Ksc1FileAt(data, p0).Ok? <==>
              && p0 + Ksc1HeaderSize <= |data|
              && Ksc1HeaderAt(data, p0).magic == Ksc1FileMagic
              && var n, tocStart := Ksc1HeaderAt(data, p0).sectionCount, p0 + Ksc1HeaderSize;
                 && tocStart + TocEntrySize * n <= |data|
                 && tocStart + TocEntrySize * n + SizePrefix(TocAt(data, tocStart, n), n) <= |data|
  {
  }

  /**
   * A successful parse has one entry and one section per declared section;
   * entry i comes from the 12 bytes at tocStart + 12 * i and records the
   * position after them; the sections start right after the last entry.
   */
  lemma Ksc1TocLayout(data: seq<uint8>, p0: nat, i: nat)
    requires Ksc1FileAt(data, p0).Ok?
    requires i < Ksc1FileAt(data, p0).value.header.sectionCount
    ensures var f := Ksc1FileAt(data, p0).value;
      && f.header.offset == p0 && f.tocStart == p0 + Ksc1HeaderSize
      && f.sectionsStart == f.tocStart + TocEntrySize * f.header.sectionCount
      && |f.toc| == |f.sections| == f.header.sectionCount
      && var e := f.toc[i];
         && e.hash == U32At(data, f.tocStart + 12 * i)
         && e.nameBytes == data[f.tocStart + 12 * i + 4..f.tocStart + 12 * i + 8]
         && e.size == U32At(data, f.tocStart + 12 * i + 8)
         && e.offset == f.tocStart + 12 * (i + 1)
  {
  }

  /** What a successful parse is made of, in terms of the layout functions. */
  lemma Ksc1FileAtParts(data: seq<uint8>, p0: nat, f: Ksc1File)
    requires Ksc1FileAt(data, p0) == Ok(f)
    ensures f.tocStart == p0 + Ksc1HeaderSize
    ensures f.sectionsStart == f.tocStart + TocEntrySize * f.header.sectionCount <= |data|
    ensures f.toc == TocAt(data, f.tocStart, f.header.sectionCount)
    ensures f.sectionsStart + SizePrefix(f.toc, |f.toc|) <= |data|
    ensures f.sections == SectionsAt(data, f.sectionsStart, f.toc)
  {
  }

  /** Each section is its entry's size, right after the sections before it. */
  lemma SectionsAtLayout(data: seq<uint8>, start: nat, toc: seq<Ksc1TocEntry>, i: nat)
    requires start + SizePrefix(toc, |toc|) <= |data|
    requires i < |toc|
    ensures start + SizePrefix(toc, i) + toc[i].size <= |data|
    ensures |SectionsAt(data, start, toc)| == |toc|
    ensures SectionsAt(data, start, toc)[i]
            == data[start + SizePrefix(toc, i)..start + SizePrefix(toc, i) + toc[i].size]
    ensures |SectionsAt(data, start, toc)[i]| == toc[i].size
  {
    SizePrefixBound(toc, i);
    SectionsAtIndex(data, start, toc, i);
  }

  /** Section i ends no later than the last section. */
  lemma SizePrefixBound(toc: seq<Ksc1TocEntry>, i: nat)
    requires i < |toc|
    ensures SizePrefix(toc, i) + toc[i].size <= SizePrefix(toc, |toc|)
  {
    SizePrefixMonotone(toc, i + 1, |toc|);
  }

  lemma SectionsAtIndex(data: seq<uint8>, start: nat, toc: seq<Ksc1TocEntry>, i: nat)
    requires start + SizePrefix(toc, |toc|) <= |data|
    requires i < |toc|
    ensures SectionsAt(data, start, toc)[i] == SectionAt(data, start, toc, i)
  {
  }

  /** Section i is exactly toc[i].size bytes, starting after the sections before it. */
  lemma Ksc1SectionLayout(data: seq<uint8>, p0: nat, f: Ksc1File, i: nat)
    requires Ksc1FileAt(data, p0) == Ok(f)
    requires i < f.header.sectionCount
    ensures i < |f.toc| && i < |f.sections|
    ensures f.sectionsStart + SizePrefix(f.toc, i) + f.toc[i].size <= |data|
    ensures f.sections[i]
            == data[f.sectionsStart + SizePrefix(f.toc, i)..f.sectionsStart + SizePrefix(f.toc, i) + f.toc[i].size]
    ensures |f.sections[i]| == f.toc[i].size
  {
    Ksc1FileAtParts(data, p0, f);
    ParsedSectionLayout(data, f, i);
  }

  lemma ParsedSectionLayout(data: seq<uint8>, f: Ksc1File, i: nat)
    requires f.sectionsStart + SizePrefix(f.toc, |f.toc|) <= |data|
    requires f.sections == SectionsAt(data, f.sectionsStart, f.toc)
    requires i < |f.toc|
    ensures i < |f.toc| && i < |f.sections|
    ensures f.sectionsStart + SizePrefix(f.toc, i) + f.toc[i].size <= |data|
    ensures f.sections[i]
            == data[f.sectionsStart + SizePrefix(f.toc, i)..f.sectionsStart + SizePrefix(f.toc, i) + f.toc[i].size]
    ensures |f.sections[i]| == f.toc[i].size
  {
    SectionsAtLayout(data, f.sectionsStart, f.toc, i);
  }

  /** The first k sections, joined, are the input bytes from the section start on. */
  lemma {:induction false} SectionsPrefixTile(data: seq<uint8>, start: nat, toc: seq<Ksc1TocEntry>, k: nat)
    requires start + SizePrefix(toc, |toc|) <= |data|
    requires k <= |toc|
    ensures SizePrefix(toc, k) <= SizePrefix(toc, |toc|)
    ensures Concat(SectionsAt(data, start, toc)[..k]) == data[start..start + SizePrefix(toc, k)]
  {
    SizePrefixMonotone(toc, k, |toc|);
    var s := SectionsAt(data, start, toc);
    if k > 0 {
      SectionsPrefixTile(data, start, toc, k - 1);
      assert s[..k][..k - 1] == s[..k - 1];
      var a, b, c := start, start + SizePrefix(toc, k - 1), start + SizePrefix(toc, k);
      assert s[k - 1] == data[b..c];
      assert data[a..b] + data[b..c] == data[a..c];
    }
  }

  /** The sections, joined in order, are the bytes they were cut from, each as long as its entry says. */
  lemma SectionsTile(data: seq<uint8>, start: nat, toc: seq<Ksc1TocEntry>)
    requires start + SizePrefix(toc, |toc|) <= |data|
    ensures var s := SectionsAt(data, start, toc);
      && |s| == |toc|
      && (forall i :: 0 <= i < |toc| ==> |s[i]| == toc[i].size)
      && Concat(s) == data[start..start + SizePrefix(toc, |toc|)]
  {
    var s := SectionsAt(data, start, toc);
    SectionsPrefixTile(data, start, toc, |toc|);
    assert s[..|toc|] == s;
    forall i | 0 <= i < |toc| ensures |s[i]| == toc[i].size {
      SectionsAtLayout(data, start, toc, i);
    }
  }

  /**
   * The sections tile the input exactly: joined in order they are the bytes
   * from the end of the table of contents to the end of the last section,
   * each as long as its entry says.
   */
  lemma Ksc1SectionsTile(data: seq<uint8>, p0: nat, f: Ksc1File)
    requires Ksc1FileAt(data, p0) == Ok(f)
    ensures |f.sections| == |f.toc|
    ensures forall i :: 0 <= i < |f.toc| ==> |f.sections[i]| == f.toc[i].size
    ensures f.sectionsStart + SizePrefix(f.toc, |f.toc|) <= |data|
    ensures Concat(f.sections) == data[f.sectionsStart..f.sectionsStart + SizePrefix(f.toc, |f.toc|)]
  {
    Ksc1FileAtParts(data, p0, f);
    SectionsTile(data, f.sectionsStart, f.toc);
  }

  lemma ConcatSnoc(blocks: seq<seq<uint8>>, b: seq<uint8>)
    ensures Concat(blocks + [b]) == Concat(blocks) + b
  {
    assert (blocks + [b])[..|blocks|] == blocks;
  }

  lemma SliceJoin(data: seq<uint8>, a: nat, b: nat, c: nat)
    requires a <= b <= c <= |data|
    ensures data[a..b] + data[b..c] == data[a..c]
  {
  }

  /** Block sequences of the same shape with the same concatenation are equal. */
  lemma {:induction false} ConcatInjective(a: seq<seq<uint8>>, b: seq<seq<uint8>>)
    requires |a| == |b|
    requires forall i :: 0 <= i < |a| ==> |a[i]| == |b[i]|
    requires Concat(a) == Concat(b)
    ensures a == b
  {
    if a != [] {
      var n := |a| - 1;
      var c := Concat(a);
      assert c == Concat(a[..n]) + a[n] == Concat(b[..n]) + b[n];
      assert a[n] == c[|c| - |a[n]|..] == b[n];
      assert Concat(a[..n]) == c[..|c| - |a[n]|] == Concat(b[..n]);
      ConcatInjective(a[..n], b[..n]);
      assert a == a[..n] + [a[n]] && b == b[..n] + [b[n]];
    }
  }

  /**
   * The tiling determines the sections: blocks with the entries' sizes whose
   * concatenation is the same bytes are the sections.
   */
  lemma TilingUnique(blocks: seq<seq<uint8>>, data: seq<uint8>, start: nat, toc: seq<Ksc1TocEntry>)
    requires start + SizePrefix(toc, |toc|) <= |data|
    requires |blocks| == |toc|
    requires forall i :: 0 <= i < |toc| ==> |blocks[i]| == toc[i].size
    requires Concat(blocks) == data[start..start + SizePrefix(toc, |toc|)]
    ensures blocks == SectionsAt(data, start, toc)
  {
    SectionsTile(data, start, toc);
    ConcatInjective(blocks, SectionsAt(data, start, toc));
  }

  // ---------------------------------------------------------------------
  // The reader

  /** `read_ksc1_header`: the position, then two u32 and two u64 reads. */
  method ReadKsc1Header(rdr: Reader) returns (r: Result<Ksc1Header>)
    modifies rdr
    ensures old(rdr.pos) + Ksc1HeaderSize <= |rdr.data| ==>
              r == Ok(Ksc1HeaderAt(rdr.data, old(rdr.pos))) && rdr.pos == old(rdr.pos) + Ksc1HeaderSize
    ensures |rdr.data| < old(rdr.pos) + Ksc1HeaderSize ==> r == Err(UnexpectedEof)
  {
    var offset := rdr.StreamPosition();
    var magic := rdr.ReadU32();
    if magic.Err? { return Err(magic.error); }
    var sectionCount := rdr.ReadU32();
    if sectionCount.Err? { return Err(sectionCount.error); }
    var headerCrc := rdr.ReadU64();
    if headerCrc.Err? { return Err(headerCrc.error); }
    var unk := rdr.ReadU64();
    if unk.Err? { return Err(unk.error); }
    r := Ok(Ksc1Header(offset, magic.value, sectionCount.value, headerCrc.value, unk.value));
  }

  /** `read_ksc1_toc_entry`: hash, four name bytes read into a buffer, size, then the position. */
  method ReadKsc1TocEntry(rdr: Reader) returns (r: Result<Ksc1TocEntry>)
    modifies rdr
    ensures old(rdr.pos) + TocEntrySize <= |rdr.data| ==>
              r == Ok(TocEntryAt(rdr.data, old(rdr.pos))) && rdr.pos == old(rdr.pos) + TocEntrySize
    ensures |rdr.data| < old(rdr.pos) + TocEntrySize ==> r == Err(UnexpectedEof)
  {
    var hash := rdr.ReadU32();
    if hash.Err? { return Err(hash.error); }
    var nameBytes := new uint8[4](_ => 0);
    var read := rdr.ReadExact(nameBytes);
    if read.Fail? { return Err(read.error); }
    var size := rdr.ReadU32();
    if size.Err? { return Err(size.error); }
    var offset := rdr.StreamPosition();
    r := Ok(Ksc1TocEntry(offset, hash.value, nameBytes[..], size.value));
  }

  /**
   * `read_ksc1_file`: the header and its magic check, the table of contents
   * read entry by entry, then each section read into a buffer of its
   * declared size. Any failed read ends the parse with no container.
   */
  method ReadKsc1File(rdr: Reader) returns (r: Result<Ksc1File>)
    modifies rdr
    ensures r == Ksc1FileAt(rdr.data, old(rdr.pos))
    ensures r.Err? && r.error.BadMagic? ==> rdr.pos == old(rdr.pos) + Ksc1HeaderSize
    ensures r.Ok? ==> rdr.pos == r.value.sectionsStart + SizePrefix(r.value.toc, |r.value.toc|)
  {
    var offset := rdr.StreamPosition();
    var hr := ReadKsc1Header(rdr);
    if hr.Err? { return Err(hr.error); }
    var header := hr.value;
    if header.magic != Ksc1FileMagic {
      return Err(BadMagic(header.magic));
    }

    var tocStart := rdr.StreamPosition();
    var toc := ReadToc(rdr, header.sectionCount);
    if toc.Err? { return Err(toc.error); }

    var sectionsStart := rdr.StreamPosition();
    var sections := ReadSections(rdr, toc.value);
    if sections.Err? { return Err(sections.error); }

    r := Ok(Ksc1File(offset, header, tocStart, toc.value, sectionsStart, sections.value));
  }

  /** The loop that reads n table-of-contents entries, stopping at the first failed read. */
  method ReadToc(rdr: Reader, n: nat) returns (r: Result<seq<Ksc1TocEntry>>)
    requires rdr.pos <= |rdr.data|
    modifies rdr
    ensures r.Ok? <==> old(rdr.pos) + TocEntrySize * n <= |rdr.data|
    ensures r.Ok? ==> r.value == TocAt(rdr.data, old(rdr.pos), n) && rdr.pos == old(rdr.pos) + TocEntrySize * n
    ensures r.Err? ==> r.error == UnexpectedEof
  {
    var toc: seq<Ksc1TocEntry> := [];
    ghost var start := rdr.pos;
    for k := 0 to n
      invariant rdr.pos == start + TocEntrySize * k <= |rdr.data|
      invariant |toc| == k
      invariant forall i :: 0 <= i < k ==> toc[i] == TocEntryAt(rdr.data, start + TocEntrySize * i)
    {
      var entry := ReadKsc1TocEntry(rdr);
      if entry.Err? { return Err(entry.error); }
      toc := toc + [entry.value];
    }
    assert toc == TocAt(rdr.data, start, n);
    r := Ok(toc);
  }

  /** The loop that reads one buffer per entry, each of the entry's size, back to back. */
  method ReadSections(rdr: Reader, toc: seq<Ksc1TocEntry>) returns (r: Result<seq<seq<uint8>>>)
    requires rdr.pos <= |rdr.data|
    modifies rdr
    ensures r.Ok? <==> old(rdr.pos) + SizePrefix(toc, |toc|) <= |rdr.data|
    ensures r.Ok? ==> && old(rdr.pos) + SizePrefix(toc, |toc|) <= |rdr.data|
                      && r.value == SectionsAt(rdr.data, old(rdr.pos), toc)
                      && rdr.pos == old(rdr.pos) + SizePrefix(toc, |toc|)
    ensures r.Err? ==> r.error == UnexpectedEof
  {
    var sections: seq<seq<uint8>> := [];
    ghost var start := rdr.pos;
    ghost var data := rdr.data;
    for k := 0 to |toc|
      invariant rdr.pos == start + SizePrefix(toc, k) <= |data|
      invariant |sections| == k
      invariant forall i :: 0 <= i < k ==> |sections[i]| == toc[i].size
      invariant Concat(sections) == data[start..rdr.pos]
    {
      var sectionSize := toc[k].size;
      var sectionBytes := new uint8[sectionSize](_ => 0);
      ghost var before := rdr.pos;
      var read := rdr.ReadExact(sectionBytes);
      if read.Fail? {
        SizePrefixMonotone(toc, k + 1, |toc|);
        return Err(read.error);
      }
      ghost var bytes := sectionBytes[..];
      assert bytes == data[before..rdr.pos] && |bytes| == toc[k].size;
      assert rdr.pos == start + SizePrefix(toc, k + 1);
      ConcatSnoc(sections, bytes);
      SliceJoin(data, start, before, rdr.pos);
      sections := sections + [sectionBytes[..]];
    }
    TilingUnique(sections, data, start, toc);
    r := Ok(sections);
  }
}
