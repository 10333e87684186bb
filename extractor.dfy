/**
 * The KFC extraction loop: for each directory entry, read its bytes from the
 * data file, classify them by their first four bytes, and write them to
 * ./output/<category>/<hash in upper-case hex>. The output tree is a map from
 * path to file contents.
 */
module Extractor {
  import opened Bytes
  import opened Io
  import opened Kfc

  // ---------------------------------------------------------------------
  // Classification

  datatype Category = ResourcePackages | Raw

  function CategoryName(c: Category): string
  {
    match c
    case ResourcePackages => "resource_packages"
    case Raw => "raw"
  }

  /** "CRPF", the tag at the start of a resource package. */
  const CrpfMagic: seq<uint8> := [0x43, 0x52, 0x50, 0x46]

  lemma CrpfMagicIsTag()
    ensures CrpfMagic == AsciiBytes("CRPF")
  {
  }

  /**
   * The category test `file_data[0] == 0x43 && ... && file_data[3] == 0x46`,
   * evaluated left to right with short-circuiting: a test that indexes past
   * the end of the buffer panics, which is the error result here.
   */
  function SniffCategory(fileData: seq<uint8>): (r: Result<Category>)
    ensures |fileData| >= 4 ==> r.Ok?
    ensures r.Ok? ==> (r.value == ResourcePackages <==> |fileData| >= 4 && fileData[..4] == CrpfMagic)
    ensures r.Err? <==> |fileData| < 4 && fileData == CrpfMagic[..|fileData|]
    ensures r.Err? ==> r.error == IndexOutOfBounds(|fileData|, |fileData|)
  {
    if |fileData| == 0 then Err(IndexOutOfBounds(0, 0))
    else if fileData[0] != 0x43 then Ok(Raw)
    else if |fileData| == 1 then Err(IndexOutOfBounds(1, 1))
    else if fileData[1] != 0x52 then Ok(Raw)
    else if |fileData| == 2 then Err(IndexOutOfBounds(2, 2))
    else if fileData[2] != 0x50 then Ok(Raw)
    else if |fileData| == 3 then Err(IndexOutOfBounds(3, 3))
    else if fileData[3] != 0x46 then Ok(Raw)
    else Ok(ResourcePackages)
  }

  // ---------------------------------------------------------------------
  // Output names

  function HexDigit(d: nat): char
    requires d < 16
  {
    if d < 10 then ('0' as int + d) as char else ('A' as int + d - 10) as char
  }

  /** `{:X}`: upper-case hexadecimal digits, no prefix and no leading zeros. */
  function UpperHex(n: nat): string
    decreases n
  {
    if n < 16 then [HexDigit(n)] else UpperHex(n / 16) + [HexDigit(n % 16)]
  }

  predicate IsUpperHexDigit(c: char)
  {
    '0' <= c <= '9' || 'A' <= c <= 'F'
  }

  function HexDigitValue(c: char): nat
  {
    if '0' <= c <= '9' then c as int - '0' as int
    else if 'A' <= c <= 'F' then c as int - 'A' as int + 10
    else 0
  }

  /** The value of a string of hexadecimal digits, most significant first. */
  function HexValue(s: string): nat
  {
    if s == [] then 0 else 16 * HexValue(s[..|s| - 1]) + HexDigitValue(s[|s| - 1])
  }

  /** Reading the digits back gives the number. */
  lemma {:induction false} UpperHexRoundTrip(n: nat)
    ensures HexValue(UpperHex(n)) == n
    decreases n
  {
    if n >= 16 {
      var s := UpperHex(n);
      UpperHexRoundTrip(n / 16);
      assert s[..|s| - 1] == UpperHex(n / 16);
    }
  }

  /** The digits are upper-case hex, and the first is '0' only for zero: no padding. */
  lemma {:induction false} UpperHexShape(n: nat)
    ensures |UpperHex(n)| >= 1
    ensures forall k :: 0 <= k < |UpperHex(n)| ==> IsUpperHexDigit(UpperHex(n)[k])
    ensures UpperHex(n)[0] == '0' <==> n == 0
    decreases n
  {
    if n >= 16 {
      UpperHexShape(n / 16);
      assert UpperHex(n)[0] == UpperHex(n / 16)[0];
      var s := UpperHex(n);
      forall k | 0 <= k < |s| ensures IsUpperHexDigit(s[k]) {
        if k < |s| - 1 {
          assert s[k] == UpperHex(n / 16)[k];
        }
      }
    }
  }

  lemma UpperHexInjective(a: nat, b: nat)
    ensures UpperHex(a) == UpperHex(b) <==> a == b
  {
    UpperHexRoundTrip(a);
    UpperHexRoundTrip(b);
  }

  /** `format!("./output/{}", category)`. */
  function OutputDir(c: Category): string
  {
    "./output/" + CategoryName(c)
  }

  /** `format!("{}/{:X}", output_dir, file_name_hash)`. */
  function OutputFilePath(c: Category, hash: uint64): string
  {
    OutputDir(c) + "/" + UpperHex(hash)
  }

  /**
   * Output paths name their category and hash uniquely: two entries share a
   * path exactly when they have the same category and the same hash.
   */
  lemma OutputFilePathInjective(c1: Category, h1: uint64, c2: Category, h2: uint64)
    ensures OutputFilePath(c1, h1) == OutputFilePath(c2, h2) <==> c1 == c2 && h1 == h2
  {
    var p1, p2 := OutputFilePath(c1, h1), OutputFilePath(c2, h2);
    UpperHexShape(h1);
    UpperHexShape(h2);
    assert p1[10] == (if c1 == Raw then 'a' else 'e');
    assert p2[10] == (if c2 == Raw then 'a' else 'e');
    if p1 == p2 {
      var k := |OutputDir(c1) + "/"|;
      assert UpperHex(h1) == p1[k..] == p2[k..] == UpperHex(h2);
      UpperHexInjective(h1, h2);
    }
  }

  // ---------------------------------------------------------------------
  // One entry

  /** What entry i of the directory stands for: name, place in the data file, length. */
  datatype EntryRef = EntryRef(hash: uint64, offset: uint64, size: uint32)

  /** Every loop index is a valid index into the three tables. */
  predicate Indexable(dir: KfcDirFile)
  {
    && dir.header.count <= |dir.hashTable|
    && dir.header.count <= |dir.offsetTable|
    && dir.header.count <= |dir.sizeTable|
  }

  function ResolveEntry(dir: KfcDirFile, i: nat): EntryRef
    requires Indexable(dir) && i < dir.header.count
  {
    EntryRef(dir.hashTable[i], dir.offsetTable[i], dir.sizeTable[i].size0)
  }

  /** A parsed directory can be walked, and entry i is read from these bytes of it. */
  lemma ResolveEntryFromDirFile(dirFile: seq<uint8>, i: nat)
    requires KfcDirAt(dirFile, 0).Ok?
    requires i < KfcDirAt(dirFile, 0).value.header.count
    ensures Indexable(KfcDirAt(dirFile, 0).value)
    ensures var d := KfcDirAt(dirFile, 0).value;
      var c := d.header.count;
      ResolveEntry(d, i) == EntryRef(U64At(dirFile, 24 + 8 * i),
                                      U64At(dirFile, 24 + 24 * c + 8 * i),
                                      U32At(dirFile, 24 + 8 * c + 16 * i))
  {
    KfcDirSuccess(dirFile, 0);
    KfcEntryLayout(dirFile, 0, i);
  }

  /** A file to be written: its path and its contents. */
  datatype Written = Written(path: string, bytes: seq<uint8>)

  /**
   * One iteration of the loop: read the entry's bytes, classify them, name
   * the file. An entry of size 0 reads nothing, wherever its offset points,
   * and then fails the classification's first index.
   */
  function ExtractEntry(data: seq<uint8>, e: EntryRef): Result<Written>
  {
    match EntryBytes(data, e.offset, e.size)
    case Err(err) => Err(err)
    case Ok(fileData) =>
      match SniffCategory(fileData)
      case Err(err) => Err(err)
      case Ok(c) => Ok(Written(OutputFilePath(c, e.hash), fileData))
  }

  /** The seek and `read_exact` of an entry: size bytes from offset, nothing for size 0. */
  function EntryBytes(data: seq<uint8>, offset: nat, size: nat): Result<seq<uint8>>
  {
    if size == 0 then Ok([])
    else if |data| < offset + size then Err(UnexpectedEof)
    else Ok(data[offset..offset + size])
  }

  /**
   * An entry fails with end of stream exactly when it has bytes to read and
   * the data file is shorter than offset + size; an empty entry fails the
   * classification instead; an entry of four or more bytes that fits is
   * always written, with exactly size bytes of the data file from its offset
   * on, under the package category exactly when it starts with "CRPF".
   */
  lemma ExtractEntryCorrect(data: seq<uint8>, e: EntryRef)
    ensures ExtractEntry(data, e) == Err(UnexpectedEof) <==> e.size > 0 && |data| < e.offset + e.size
    ensures e.size == 0 ==> ExtractEntry(data, e) == Err(IndexOutOfBounds(0, 0))
    ensures e.offset + e.size <= |data| && e.size >= 4 ==> ExtractEntry(data, e).Ok?
    ensures ExtractEntry(data, e).Ok? ==>
      var w := ExtractEntry(data, e).value;
      && e.offset + e.size <= |data|
      && |w.bytes| == e.size
      && (forall k :: 0 <= k < e.size ==> w.bytes[k] == data[e.offset + k])
      && w.path == OutputFilePath(if e.size >= 4 && w.bytes[..4] == CrpfMagic then ResourcePackages else Raw, e.hash)
  {
  }

  // ---------------------------------------------------------------------
  // The loop

  /** The output tree and whether the run is still going. */
  datatype RunState = RunState(tree: map<string, seq<uint8>>, status: Outcome)

  /** The result of every iteration of the loop, entry by entry. */
  function EntryWrites(dir: KfcDirFile, data: seq<uint8>): seq<Result<Written>>
    requires Indexable(dir)
  {
    seq(dir.header.count, i requires 0 <= i < dir.header.count => ExtractEntry(data, ResolveEntry(dir, i)))
  }

  /**
   * Iteration i, in terms of the directory's tables: it fails with end of
   * stream exactly when size_0 is positive and the data file ends before
   * offset + size_0; when it writes, it writes those bytes of the data file
   * under the path of their category and the entry's hash.
   */
  lemma EntryWritesCorrect(dir: KfcDirFile, data: seq<uint8>, i: nat)
    requires Indexable(dir) && i < dir.header.count
    ensures |EntryWrites(dir, data)| == dir.header.count
    ensures var w, hash, offset, size := EntryWrites(dir, data)[i], dir.hashTable[i], dir.offsetTable[i], dir.sizeTable[i].size0;
      && (w == Err(UnexpectedEof) <==> size > 0 && |data| < offset + size)
      && (offset + size <= |data| && size >= 4 ==> w.Ok?)
      && (w.Ok? ==>
            && offset + size <= |data|
            && w.value.bytes == data[offset..offset + size]
            && w.value.path
               == OutputFilePath(if size >= 4 && data[offset..offset + 4] == CrpfMagic then ResourcePackages else Raw, hash))
  {
    var e := ResolveEntry(dir, i);
    ExtractEntryCorrect(data, e);
    var w := EntryWrites(dir, data)[i];
    if w.Ok? && e.size >= 4 {
      assert w.value.bytes[..4] == data[e.offset..e.offset + 4];
    }
  }

  /**
   * What the first n iterations leave behind, given each iteration's result
   * ws[i]: each writes its file; the first failure stops the run.
   */
  function RunUpTo(ws: seq<Result<Written>>, tree0: map<string, seq<uint8>>, n: nat): RunState
    requires n <= |ws|
  {
    if n == 0 then RunState(tree0, Pass)
    else
      var s := RunUpTo(ws, tree0, n - 1);
      if s.status.Fail? then s
      else
        match ws[n - 1]
        case Err(e) => RunState(s.tree, Fail(e))
        case Ok(w) => RunState(s.tree[w.path := w.bytes], Pass)
  }

  /** No iteration in [lo, n) writes to path p. */
  ghost predicate NoWriteTo(ws: seq<Result<Written>>, p: string, lo: nat, n: nat)
    requires n <= |ws|
  {
    forall j :: lo <= j < n ==> !(ws[j].Ok? && ws[j].value.path == p)
  }

  /** One more iteration of a run that has not stopped: a failure stops it with the tree as it was. */
  lemma RunNextErr(ws: seq<Result<Written>>, tree0: map<string, seq<uint8>>, i: nat, tree: map<string, seq<uint8>>)
    requires i < |ws| && ws[i].Err?
    requires RunUpTo(ws, tree0, i) == RunState(tree, Pass)
    ensures RunUpTo(ws, tree0, i + 1) == RunState(tree, Fail(ws[i].error))
  {
  }

  /** One more iteration of a run that has not stopped: a success writes its file. */
  lemma RunNextOk(ws: seq<Result<Written>>, tree0: map<string, seq<uint8>>, i: nat, tree: map<string, seq<uint8>>)
    requires i < |ws| && ws[i].Ok?
    requires RunUpTo(ws, tree0, i) == RunState(tree, Pass)
    ensures RunUpTo(ws, tree0, i + 1) == RunState(tree[ws[i].value.path := ws[i].value.bytes], Pass)
  {
  }

  /** Once stopped, a run stays stopped with the same tree and error. */
  lemma {:induction false} RunStaysStopped(ws: seq<Result<Written>>, tree0: map<string, seq<uint8>>, k: nat, n: nat)
    requires k <= n <= |ws|
    requires RunUpTo(ws, tree0, k).status.Fail?
    ensures RunUpTo(ws, tree0, n) == RunUpTo(ws, tree0, k)
    decreases n
  {
    if k < n {
      RunStaysStopped(ws, tree0, k, n - 1);
    }
  }

  /** A completed step: the run had not stopped before it, and iteration n - 1 wrote its file. */
  lemma RunStep(ws: seq<Result<Written>>, tree0: map<string, seq<uint8>>, n: nat)
    requires 0 < n <= |ws|
    requires RunUpTo(ws, tree0, n).status.Pass?
    ensures RunUpTo(ws, tree0, n - 1).status.Pass?
    ensures ws[n - 1].Ok?
    ensures RunUpTo(ws, tree0, n).tree == RunUpTo(ws, tree0, n - 1).tree[ws[n - 1].value.path := ws[n - 1].value.bytes]
  {
  }

  /** After a run that did not stop, every iteration wrote its file. */
  lemma {:induction false} RunAllWritten(ws: seq<Result<Written>>, tree0: map<string, seq<uint8>>, n: nat)
    requires n <= |ws|
    requires RunUpTo(ws, tree0, n).status.Pass?
    ensures forall i :: 0 <= i < n ==> ws[i].Ok?
  {
    if n > 0 {
      RunStep(ws, tree0, n);
      RunAllWritten(ws, tree0, n - 1);
    }
  }

  /**
   * Last writer wins: after a run that did not stop, the path of iteration i
   * holds iteration i's bytes unless a later iteration wrote to the same path.
   */
  lemma {:induction false} RunLastWriterWins(ws: seq<Result<Written>>, tree0: map<string, seq<uint8>>, n: nat, i: nat)
    requires i < n <= |ws|
    requires RunUpTo(ws, tree0, n).status.Pass?
    ensures ws[i].Ok?
    ensures var t, w := RunUpTo(ws, tree0, n).tree, ws[i].value;
      NoWriteTo(ws, w.path, i + 1, n) ==> w.path in t && t[w.path] == w.bytes
  {
    RunStep(ws, tree0, n);
    if i < n - 1 {
      RunLastWriterWins(ws, tree0, n - 1, i);
      var wi := ws[i].value;
      if NoWriteTo(ws, wi.path, i + 1, n) {
        assert !(ws[n - 1].Ok? && ws[n - 1].value.path == wi.path);
        assert NoWriteTo(ws, wi.path, i + 1, n - 1);
      }
    }
  }

  /** After a run that did not stop, a path no iteration wrote to is as it was before. */
  lemma {:induction false} RunUntouched(ws: seq<Result<Written>>, tree0: map<string, seq<uint8>>, n: nat, p: string)
    requires n <= |ws|
    requires RunUpTo(ws, tree0, n).status.Pass?
    requires NoWriteTo(ws, p, 0, n)
    ensures var t := RunUpTo(ws, tree0, n).tree;
      (p in t <==> p in tree0) && (p in tree0 ==> t[p] == tree0[p])
  {
    if n > 0 {
      RunStep(ws, tree0, n);
      assert !(ws[n - 1].Ok? && ws[n - 1].value.path == p);
      assert NoWriteTo(ws, p, 0, n - 1);
      RunUntouched(ws, tree0, n - 1, p);
    }
  }

  /** Iterations before k wrote their files and iteration k stopped the run. */
  ghost predicate FirstFailureAt(ws: seq<Result<Written>>, tree0: map<string, seq<uint8>>, k: nat, n: nat)
    requires k < n <= |ws|
  {
    && (forall i :: 0 <= i < k ==> ws[i].Ok?)
    && ws[k].Err?
    && RunUpTo(ws, tree0, n) == RunState(RunUpTo(ws, tree0, k).tree, Fail(ws[k].error))
  }

  /**
   * A stopped run stopped at its first failing iteration: the files of the
   * iterations before it stay written, nothing after it is written, and the
   * run's error is that iteration's error.
   */
  lemma {:induction false} RunStopsAtFirstFailure(ws: seq<Result<Written>>, tree0: map<string, seq<uint8>>, n: nat)
    requires n <= |ws|
    requires RunUpTo(ws, tree0, n).status.Fail?
    ensures exists k :: 0 <= k < n && FirstFailureAt(ws, tree0, k, n)
  {
    var s := RunUpTo(ws, tree0, n - 1);
    if s.status.Fail? {
      RunStopsAtFirstFailure(ws, tree0, n - 1);
      var k :| 0 <= k < n - 1 && FirstFailureAt(ws, tree0, k, n - 1);
      assert FirstFailureAt(ws, tree0, k, n);
    } else {
      RunAllWritten(ws, tree0, n - 1);
      assert FirstFailureAt(ws, tree0, n - 1, n);
    }
  }

  /** A run completes exactly when every iteration succeeds. */
  lemma RunPassIff(ws: seq<Result<Written>>, tree0: map<string, seq<uint8>>, n: nat)
    requires n <= |ws|
    ensures RunUpTo(ws, tree0, n).status.Pass? <==> forall i :: 0 <= i < n ==> ws[i].Ok?
  {
    if RunUpTo(ws, tree0, n).status.Pass? {
      RunAllWritten(ws, tree0, n);
    } else {
      RunStopsAtFirstFailure(ws, tree0, n);
    }
  }

  /**
   * The extraction loop of `main`: for i in 0..count, resolve entry i, seek
   * the data file to its offset, fill a buffer of its size, classify it and
   * write it to its output path. A failed read or a panicking classification
   * ends the run, leaving the files written so far.
   */
  method ExtractKfc(dir: KfcDirFile, data: seq<uint8>, tree0: map<string, seq<uint8>>)
      returns (tree: map<string, seq<uint8>>, status: Outcome)
    requires Indexable(dir)
    ensures RunState(tree, status) == RunUpTo(EntryWrites(dir, data), tree0, dir.header.count)
  {
    var dataFile := new Reader(data);
    ghost var ws := EntryWrites(dir, data);
    tree := tree0;
    for i := 0 to dir.header.count
      invariant RunUpTo(ws, tree0, i) == RunState(tree, Pass)
    {
      var written := ReadEntry(dataFile, dir, i);
      assert written == ws[i];
      if written.Err? {
        RunNextErr(ws, tree0, i, tree);
        RunStaysStopped(ws, tree0, i + 1, dir.header.count);
        return tree, Fail(written.error);
      }
      // File::create truncates, write_all writes the whole buffer
      RunNextOk(ws, tree0, i, tree);
      tree := tree[written.value.path := written.value.bytes];
    }
    status := Pass;
  }

  /**
   * The part of iteration i before the write: look up the entry's hash,
   * offset and size, seek the data file to the offset, fill a buffer of the
   * size, pick the category from the buffer and format the output path.
   */
  method ReadEntry(dataFile: Reader, dir: KfcDirFile, i: nat) returns (r: Result<Written>)
    requires Indexable(dir) && i < dir.header.count
    modifies dataFile
    ensures r == ExtractEntry(dataFile.data, ResolveEntry(dir, i))
    ensures EntryBytes(dataFile.data, dir.offsetTable[i], dir.sizeTable[i].size0).Ok? ==>
              dataFile.pos == dir.offsetTable[i] + dir.sizeTable[i].size0
  {
    var fileNameHash := dir.hashTable[i];
    var fileOffset := dir.offsetTable[i];
    var fileSize := dir.sizeTable[i].size0;
    var fileData := ReadEntryBytes(dataFile, fileOffset, fileSize);
    if fileData.Err? {
      return Err(fileData.error);
    }
    var category := SniffCategory(fileData.value);
    if category.Err? {
      return Err(category.error);
    }
    var outputFilePath := OutputFilePath(category.value, fileNameHash);
    r := Ok(Written(outputFilePath, fileData.value));
  }

  /** Seek the data file to offset and fill a fresh zeroed buffer of size bytes from it. */
  method ReadEntryBytes(dataFile: Reader, offset: nat, size: nat) returns (r: Result<seq<uint8>>)
    modifies dataFile
    ensures r == EntryBytes(dataFile.data, offset, size)
    ensures r.Ok? ==> dataFile.pos == offset + size
  {
    dataFile.Seek(offset);
    var fileData := new uint8[size](_ => 0);
    var read := dataFile.ReadExact(fileData);
    if read.Fail? {
      return Err(read.error);
    }
    r := Ok(fileData[..]);
  }

  /**
   * The whole KFC run: parse the directory file from its start, then run the
   * extraction loop over the data file. A directory that does not parse
   * leaves the output tree untouched.
   */
  method RunKfcExtractor(dirFile: seq<uint8>, dataFile: seq<uint8>, tree0: map<string, seq<uint8>>)
      returns (tree: map<string, seq<uint8>>, status: Outcome)
    ensures KfcDirAt(dirFile, 0).Err? ==> tree == tree0 && status == Fail(KfcDirAt(dirFile, 0).error)
    ensures KfcDirAt(dirFile, 0).Ok? ==>
              var d := KfcDirAt(dirFile, 0).value;
              Indexable(d) && RunState(tree, status) == RunUpTo(EntryWrites(d, dataFile), tree0, d.header.count)
  {
    var rdr := new Reader(dirFile);
    var kfcDir := ReadKfcDirFile(rdr);
    if kfcDir.Err? {
      return tree0, Fail(kfcDir.error);
    }
    KfcDirSuccess(dirFile, 0);
    tree, status := ExtractKfc(kfcDir.value, dataFile, tree0);
  }

  /** The directory of a single entry: hash, offset 0 and size 4. */
  function SingleEntryDir(hash: uint64): (d: KfcDirFile)
    ensures Indexable(d) && d.header.count == 1
    ensures ResolveEntry(d, 0) == EntryRef(hash, 0, 4)
  {
    KfcDirFile(0, KfcDirFileHeader(0, 1, 1, 0, 4), 24, [hash], [KfcSizeEntry(32, 4, 0, 0, 0)], [0])
  }

  /**
   * The 56 bytes of a directory file with that single entry: the header
   * (magic 0, count 1, count2 1, field 0, data size 4), the hash, the size
   * record (4, 0, 0, 0) and the offset 0.
   */
  function SingleEntryDirFile(hash: uint64): seq<uint8>
  {
    [0, 0, 0, 0, 1, 0, 0, 0, 1, 0, 0, 0, 0, 0, 0, 0, 4, 0, 0, 0, 0, 0, 0, 0]
    + U64Bytes(hash)
    + [4, 0, 0, 0, 0, 0, 0, 0, 0, 0, 0, 0, 0, 0, 0, 0]
    + [0, 0, 0, 0, 0, 0, 0, 0]
  }

  lemma SingleEntryHeader(hash: uint64)
    ensures |SingleEntryDirFile(hash)| == 56
    ensures HeaderAt(SingleEntryDirFile(hash), 0) == KfcDirFileHeader(0, 1, 1, 0, 4)
  {
    var f := SingleEntryDirFile(hash);
    assert f[..24] == [0, 0, 0, 0, 1, 0, 0, 0, 1, 0, 0, 0, 0, 0, 0, 0, 4, 0, 0, 0, 0, 0, 0, 0];
  }

  lemma SingleEntryHashTable(hash: uint64)
    ensures |SingleEntryDirFile(hash)| == 56
    ensures U64Table(SingleEntryDirFile(hash), 24, 1) == [hash]
  {
    var f := SingleEntryDirFile(hash);
    U64DecodeEncode(hash);
    U64AtSlice(f, 24);
    assert f[24..32] == U64Bytes(hash);
    assert U64Table(f, 24, 1)[0] == U64At(f, 24);
  }

  lemma SingleEntryOtherTables(hash: uint64)
    ensures |SingleEntryDirFile(hash)| == 56
    ensures SizeTable(SingleEntryDirFile(hash), 32, 1) == [KfcSizeEntry(32, 4, 0, 0, 0)]
    ensures U64Table(SingleEntryDirFile(hash), 48, 1) == [0]
  {
    var f := SingleEntryDirFile(hash);
    assert f[32..] == [4, 0, 0, 0, 0, 0, 0, 0, 0, 0, 0, 0, 0, 0, 0, 0, 0, 0, 0, 0, 0, 0, 0, 0];
  }

  /** Those bytes parse, from position 0, to exactly that directory. */
  lemma SingleEntryDirParses(hash: uint64)
    ensures |SingleEntryDirFile(hash)| == 56
    ensures KfcDirAt(SingleEntryDirFile(hash), 0) == Ok(SingleEntryDir(hash))
  {
    SingleEntryHeader(hash);
    SingleEntryHashTable(hash);
    SingleEntryOtherTables(hash);
  }

  /**
   * The one-entry directory over a data file holding "CRPF" writes those
   * four bytes as a resource package. With `SingleEntryDirParses` and
   * `RunKfcExtractor`'s contract, this is what the whole run over the two
   * files leaves.
   */
  lemma SingleEntryPackage(hash: uint64)
    ensures RunUpTo(EntryWrites(SingleEntryDir(hash), CrpfMagic), map[], 1)
         == RunState(map["./output/resource_packages/" + UpperHex(hash) := CrpfMagic], Pass)
  {
    var dir := SingleEntryDir(hash);
    assert CrpfMagic[0..4] == CrpfMagic;
    assert OutputFilePath(ResourcePackages, hash) == "./output/resource_packages/" + UpperHex(hash);
    var ws := EntryWrites(dir, CrpfMagic);
    assert ws[0] == Ok(Written(OutputFilePath(ResourcePackages, hash), CrpfMagic));
    RunNextOk(ws, map[], 0, map[]);
  }

  /** The same directory over four zero bytes writes them as raw. */
  lemma SingleEntryRaw(hash: uint64)
    ensures RunUpTo(EntryWrites(SingleEntryDir(hash), [0, 0, 0, 0]), map[], 1)
         == RunState(map["./output/raw/" + UpperHex(hash) := [0, 0, 0, 0]], Pass)
  {
    var dir := SingleEntryDir(hash);
    var zeros: seq<uint8> := [0, 0, 0, 0];
    assert zeros[0..4] == zeros;
    assert OutputFilePath(Raw, hash) == "./output/raw/" + UpperHex(hash);
    var ws := EntryWrites(dir, zeros);
    assert ws[0] == Ok(Written(OutputFilePath(Raw, hash), zeros));
    RunNextOk(ws, map[], 0, map[]);
  }
}
