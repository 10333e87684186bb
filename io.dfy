/**
 * The error kinds of the extractor and a seekable byte reader with a cursor,
 * standing for the `Read + Seek` stream (`BufReader<File>`) that the parsers
 * and the extraction loop read from.
 */
module Io {
  import opened Bytes

  datatype Error =
    | UnexpectedEof                              // a read ran past the end of the stream
    | CountMismatch(count: uint32, count2: uint32) // the KFC header's two counts differ
    | BadMagic(magic: uint32)                    // the KSC1 header does not start with "KSC1"
    | IndexOutOfBounds(index: nat, len: nat)     // a byte index past the end of a buffer

  datatype Result<T> = Ok(value: T) | Err(error: Error)

  datatype Outcome = Pass | Fail(error: Error)

  /** A byte stream over `data` whose read position is `pos`. */
  class Reader {
    const data: seq<uint8>
    var pos: nat

    constructor (data: seq<uint8>)
      ensures this.data == data && pos == 0
    {
      this.data := data;
      pos := 0;
    }

    /** `stream_position()`. */
    method StreamPosition() returns (p: nat)
      ensures p == pos
    {
      p := pos;
    }

    /** `seek(SeekFrom::Start(p))`: any position, even past the end, is accepted. */
    method Seek(p: nat)
      modifies this
      ensures pos == p
    {
      pos := p;
    }

    /** `read_u32::<LittleEndian>()`: four bytes or an end-of-stream error. */
    method ReadU32() returns (r: Result<uint32>)
      modifies this
      ensures old(pos) + 4 <= |data| ==> r == Ok(U32At(data, old(pos))) && pos == old(pos) + 4
      ensures |data| < old(pos) + 4 ==> r == Err(UnexpectedEof) && pos == old(pos)
    {
      if pos + 4 <= |data| {
        r := Ok(U32At(data, pos));
        pos := pos + 4;
      } else {
        r := Err(UnexpectedEof);
      }
    }

    /** `read_u64::<LittleEndian>()`: eight bytes or an end-of-stream error. */
    method ReadU64() returns (r: Result<uint64>)
      modifies this
      ensures old(pos) + 8 <= |data| ==> r == Ok(U64At(data, old(pos))) && pos == old(pos) + 8
      ensures |data| < old(pos) + 8 ==> r == Err(UnexpectedEof) && pos == old(pos)
    {
      if pos + 8 <= |data| {
        r := Ok(U64At(data, pos));
        pos := pos + 8;
      } else {
        r := Err(UnexpectedEof);
      }
    }

    /**
     * `read_exact(buf)`: fills the whole of `buf` from the stream, or fails
     * with an end-of-stream error when fewer than `buf.Length` bytes remain.
     * An empty buffer is filled at once, wherever the cursor is.
     */
    method ReadExact(buf: array<uint8>) returns (r: Outcome)
      modifies this, buf
      ensures r.Pass? <==> buf.Length == 0 || old(pos) + buf.Length <= |data|
      ensures r.Pass? ==> pos == old(pos) + buf.Length
      ensures r.Pass? && buf.Length > 0 ==> buf[..] == data[old(pos)..old(pos) + buf.Length]
      ensures r.Fail? ==> r.error == UnexpectedEof && buf[..] == old(buf[..]) && pos == old(pos)
    {
      if buf.Length == 0 {
        return Pass;
      }
      if pos + buf.Length > |data| {
        return Fail(UnexpectedEof);
      }
      var start := pos;
      for k := 0 to buf.Length
        invariant forall j :: 0 <= j < k ==> buf[j] == data[start + j]
      {
        buf[k] := data[start + k];
      }
      pos := start + buf.Length;
      r := Pass;
    }
  }
}
