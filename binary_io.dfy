/**
 * BinaryReader over the bytes of a file and BinaryWriter into a file, as
 * classes whose position / written content the methods update in place.
 * Every read is specified by the decoder of ValueCodec that it implements.
 */
module BinaryIO {
  import opened Wrappers
  import opened Bytes
  import opened ValueCodec

  /** A read's result `r` and the reader's new position agree with the decoder's outcome `spec`. */
  predicate Follows<T(==)>(r: Result<T>, pos: nat, spec: Result<(T, nat)>) {
    match spec
    case Ok((v, q)) => r == Ok(v) && pos == q
    case Err(e) => r == Err(e)
  }

  class ByteReader {
    const data: array<byte>
    var pos: nat

    ghost predicate Valid()
      reads this
    {
      pos <= data.Length
    }

    constructor (data: array<byte>)
      ensures this.data == data && pos == 0 && Valid()
    {
      this.data := data;
      pos := 0;
    }

    /** BinaryReader.ReadByte. */
    method ReadByte() returns (r: Result<byte>)
      requires Valid()
      modifies this
      ensures Valid() && Follows(r, pos, ByteAt(data[..], old(pos)))
    {
      if pos < data.Length {
        r := Ok(data[pos]);
        pos := pos + 1;
      } else {
        r := Err(EndOfStream);
      }
    }

    /** BinaryReader.ReadInt32. */
    method ReadInt32() returns (r: Result<int>)
      requires Valid()
      modifies this
      ensures Valid() && Follows(r, pos, Int32At(data[..], old(pos)))
    {
      if pos + 4 <= data.Length {
        r := Ok(Int32Of(data[pos], data[pos + 1], data[pos + 2], data[pos + 3]));
        pos := pos + 4;
      } else {
        r := Err(EndOfStream);
      }
    }

    /** A fixed-width read whose value the caller discards: ReadBoolean (1), ReadInt16 (2),
        ReadSingle (4), ReadInt64 and ReadDouble (8). */
    method Skip(width: nat) returns (r: Result<()>)
      requires Valid()
      modifies this
      ensures Valid()
      ensures r.Ok? <==> SkipAt(data[..], old(pos), width).Ok?
      ensures r.Ok? ==> pos == SkipAt(data[..], old(pos), width).value
      ensures r.Err? ==> r.error == EndOfStream
    {
      if pos + width <= data.Length {
        r := Ok(());
        pos := pos + width;
      } else {
        r := Err(EndOfStream);
      }
    }

    /** ReadDouble or ReadSingle, the value kept as its raw bytes. */
    method ReadFixed(width: nat) returns (r: Result<seq<byte>>)
      requires Valid()
      modifies this
      ensures Valid() && Follows(r, pos, FixedAt(data[..], old(pos), width))
    {
      if pos + width <= data.Length {
        r := Ok(data[pos..pos + width]);
        pos := pos + width;
      } else {
        r := Err(EndOfStream);
      }
    }

    /** BinaryReader.ReadBytes. */
    method ReadBytes(count: int) returns (r: Result<seq<byte>>)
      requires Valid()
      modifies this
      ensures Valid() && Follows(r, pos, BytesAt(data[..], old(pos), count))
    {
      if count < 0 {
        r := Err(ArgumentOutOfRange);
      } else {
        var end := if pos + count <= data.Length then pos + count else data.Length;
        r := Ok(data[pos..end]);
        pos := end;
      }
    }
  }

  class ByteWriter {
    var bytes: seq<byte>

    constructor ()
      ensures bytes == []
    {
      bytes := [];
    }

    /** BinaryWriter.Write(byte). */
    method WriteByte(b: byte)
      modifies this
      ensures bytes == old(bytes) + [b]
    {
      bytes := bytes + [b];
    }

    /** BinaryWriter.Write(int). */
    method WriteInt32(n: int)
      requires IsInt32(n)
      modifies this
      ensures bytes == old(bytes) + Int32Bytes(n)
    {
      bytes := bytes + Int32Bytes(n);
    }

    /** BinaryWriter.Write(byte[]). */
    method WriteBytes(data: seq<byte>)
      modifies this
      ensures bytes == old(bytes) + data
    {
      bytes := bytes + data;
    }
  }
}
