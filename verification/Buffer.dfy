/** The byte buffer of project/7_myMuduo/Buffer.h and Buffer.cc: a vector with a reader and
    a writer index, which is a queue of bytes whatever it does to make room. */
module Buffer {

  type byte = b: int | 0 <= b < 256

  const CHEAP_PREPEND := 8
  const INITIAL_SIZE := 1024
  const EXTRABUF_SIZE := 65536

  /** What readv comes back with. */
  datatype Readv = Delivered(data: seq<byte>) | Failed(errno: int)

  function Zeros(n: nat): (z: seq<byte>)
    ensures |z| == n
  {
    seq(n, _ => 0)
  }

  class Buffer {
    var buffer: seq<byte>
    var readerIndex: nat
    var writerIndex: nat

    predicate Valid()
      reads this
    {
      CHEAP_PREPEND <= readerIndex <= writerIndex <= |buffer|
    }

    /** What the buffer means: the bytes written and not yet retrieved. */
    function Contents(): (s: seq<byte>)
      reads this
      requires Valid()
      ensures |s| == ReadableBytes()
    {
      buffer[readerIndex..writerIndex]
    }

    constructor (initialSize: nat)
      ensures Valid() && Contents() == [] && WritableBytes() == initialSize
    {
      buffer := Zeros(CHEAP_PREPEND + initialSize);
      readerIndex, writerIndex := CHEAP_PREPEND, CHEAP_PREPEND;
    }

    function ReadableBytes(): nat
      reads this
      requires Valid()
    {
      writerIndex - readerIndex
    }

    function WritableBytes(): nat
      reads this
      requires Valid()
    {
      |buffer| - writerIndex
    }

    function PrependableBytes(): nat
      reads this
    {
      readerIndex
    }

    method RetrieveAll()
      requires Valid()
      modifies this
      ensures Valid() && Contents() == [] && |buffer| == old(|buffer|)
    {
      readerIndex, writerIndex := CHEAP_PREPEND, CHEAP_PREPEND;
    }

    /** Retrieving more than there is empties the buffer. */
    method Retrieve(len: nat)
      requires Valid()
      modifies this
      ensures Valid() && |buffer| == old(|buffer|)
      ensures Contents() == if len < |old(Contents())| then old(Contents())[len..] else []
    {
      if len < ReadableBytes() {
        readerIndex := readerIndex + len;
      } else {
        RetrieveAll();
      }
    }

    method RetrieveAsString(len: nat) returns (result: seq<byte>)
      requires Valid() && len <= ReadableBytes()
      modifies this
      ensures Valid() && result + Contents() == old(Contents()) && |result| == len
    {
      result := buffer[readerIndex..readerIndex + len];
      Retrieve(len);
    }

    method RetrieveAllAsString() returns (result: seq<byte>)
      requires Valid()
      modifies this
      ensures Valid() && Contents() == [] && result == old(Contents())
    {
      result := RetrieveAsString(ReadableBytes());
    }

    /** Grows the vector, or moves the readable bytes to the front: never both. */
    method MakeSpace(len: nat)
      requires Valid() && WritableBytes() < len
      modifies this
      ensures Valid() && WritableBytes() >= len && Contents() == old(Contents())
      ensures |buffer| > old(|buffer|) <==> old(|buffer|) < CHEAP_PREPEND + |old(Contents())| + len
      ensures |buffer| > old(|buffer|) ==> readerIndex == old(readerIndex) && WritableBytes() == len
      ensures |buffer| <= old(|buffer|) ==> readerIndex == CHEAP_PREPEND && |buffer| == old(|buffer|)
    {
      if WritableBytes() + PrependableBytes() < len + CHEAP_PREPEND {
        buffer := buffer + Zeros(writerIndex + len - |buffer|);
      } else {
        var readable := ReadableBytes();
        buffer := buffer[..CHEAP_PREPEND] + buffer[readerIndex..writerIndex] + buffer[CHEAP_PREPEND + readable..];
        readerIndex := CHEAP_PREPEND;
        writerIndex := readerIndex + readable;
      }
    }

    method EnsureWriteableBytes(len: nat)
      requires Valid()
      modifies this
      ensures Valid() && WritableBytes() >= len && Contents() == old(Contents())
      ensures |buffer| == if old(|buffer|) < CHEAP_PREPEND + |old(Contents())| + len && old(WritableBytes()) < len
                          then old(writerIndex) + len else old(|buffer|)
    {
      if WritableBytes() < len {
        MakeSpace(len);
      }
    }

    method Append(data: seq<byte>)
      requires Valid()
      modifies this
      ensures Valid() && Contents() == old(Contents()) + data
    {
      EnsureWriteableBytes(|data|);
      ghost var before := Contents();
      buffer := buffer[..writerIndex] + data + buffer[writerIndex + |data|..];
      writerIndex := writerIndex + |data|;
      assert Contents() == before + data;
    }

    /** How much one readv can take: the writable part and, when that is small, the extra
        area on the stack. */
    function ReadCapacity(): nat
      reads this
      requires Valid()
    {
      if WritableBytes() < EXTRABUF_SIZE then WritableBytes() + EXTRABUF_SIZE else WritableBytes()
    }

    /** What readv delivers scatters over the writable part and the area on the stack; when
        it fails the buffer stays as it is and the error is saved. */
    method ReadFd(readv: Readv) returns (n: int, savedErrno: int)
      requires Valid() && (readv.Delivered? ==> |readv.data| <= ReadCapacity())
      modifies this
      ensures Valid()
      ensures readv.Delivered? ==> n == |readv.data| && Contents() == old(Contents()) + readv.data
      ensures readv.Failed? ==>
                n == -1 && savedErrno == readv.errno && buffer == old(buffer) && Contents() == old(Contents())
    {
      savedErrno := 0;
      match readv {
        case Failed(errno) =>
          n := -1;
          savedErrno := errno;
        case Delivered(data) =>
          n := |data|;
          Scatter(data);
      }
    }

    method Scatter(data: seq<byte>)
      requires Valid() && |data| <= ReadCapacity()
      modifies this
      ensures Valid() && Contents() == old(Contents()) + data
    {
      var writable, n := WritableBytes(), |data|;
      var first := if n <= writable then n else writable;
      var extrabuf := data[first..];
      ghost var before := Contents();
      buffer := buffer[..writerIndex] + data[..first] + buffer[writerIndex + first..];
      if n <= writable {
        writerIndex := writerIndex + n;
        assert Contents() == before + data;
      } else {
        writerIndex := |buffer|;
        assert Contents() == before + data[..first];
        Append(extrabuf);
        assert data[..first] + data[first..] == data;
      }
    }

    /** write() of the readable bytes to the socket takes some of them, or fails; either way
        the buffer stays as it is until the caller retrieves them. */
    method WriteFd(taken: int, errno: int) returns (n: int, sent: seq<byte>, savedErrno: int)
      requires Valid() && taken <= ReadableBytes()
      ensures n == taken && sent == Contents()[..if taken < 0 then 0 else taken]
      ensures savedErrno == if taken < 0 then errno else 0
    {
      n, savedErrno := taken, 0;
      sent := [];
      if n < 0 {
        savedErrno := errno;
      } else {
        sent := buffer[readerIndex..readerIndex + n];
      }
    }
  }
}
