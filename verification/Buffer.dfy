/** Buffer: bytes in a growing array between a reader and a writer index, with room in front
    for prepending. Contents is the byte queue it stands for. */
module BufferModule {
  import opened Bytes

  const CHEAP_PREPEND := 8
  const INITIAL_SIZE := 1024

  class Buffer {
    var buffer: array<char>
    var readerIndex: nat
    var writerIndex: nat

    ghost predicate Valid()
      reads this
    {
      readerIndex <= writerIndex <= buffer.Length && CHEAP_PREPEND + INITIAL_SIZE <= buffer.Length
    }

    ghost function Contents(): string
      requires Valid()
      reads this, buffer
    {
      buffer[readerIndex..writerIndex]
    }

    constructor ()
      ensures Valid() && fresh(buffer) && Contents() == "" && PrependableBytes() == CHEAP_PREPEND
    {
      buffer := new char[CHEAP_PREPEND + INITIAL_SIZE](_ => '\0');
      readerIndex, writerIndex := CHEAP_PREPEND, CHEAP_PREPEND;
    }

    function ReadableBytes(): nat
      requires Valid()
      reads this
    {
      writerIndex - readerIndex
    }

    function WritableBytes(): nat
      requires Valid()
      reads this
    {
      buffer.Length - writerIndex
    }

    function PrependableBytes(): nat
      reads this
    {
      readerIndex
    }

    /** findCRLF, as an offset from the first readable byte; the number of readable bytes
        stands for the null pointer. */
    method FindCRLF() returns (k: nat)
      requires Valid()
      ensures k == FindCrlf(Contents())
    {
      k := 0;
      while readerIndex + k < writerIndex
        invariant k <= ReadableBytes()
        invariant forall i: nat | i < k :: !CrlfAt(Contents(), i)
      {
        if readerIndex + k + 1 < writerIndex && buffer[readerIndex + k] == '\r' && buffer[readerIndex + k + 1] == '\n' {
          break;
        }
        k := k + 1;
      }
      FindCrlfUnique(Contents(), k);
    }

    // The first len readable bytes
    method Peek(len: nat) returns (s: string)
      requires Valid() && len <= ReadableBytes()
      ensures s == Contents()[..len]
    {
      s := buffer[readerIndex..readerIndex + len];
    }

    method Retrieve(len: nat)
      requires Valid() && len <= ReadableBytes()
      modifies this`readerIndex, this`writerIndex
      ensures Valid() && Contents() == old(Contents())[len..]
    {
      if len < ReadableBytes() {
        readerIndex := readerIndex + len;
      } else {
        RetrieveAll();
      }
    }

    method RetrieveAll()
      requires Valid()
      modifies this`readerIndex, this`writerIndex
      ensures Valid() && Contents() == "" && PrependableBytes() == CHEAP_PREPEND
    {
      readerIndex, writerIndex := CHEAP_PREPEND, CHEAP_PREPEND;
    }

    method RetrieveAsString(len: nat) returns (s: string)
      requires Valid() && len <= ReadableBytes()
      modifies this`readerIndex, this`writerIndex
      ensures Valid() && s == old(Contents())[..len] && Contents() == old(Contents())[len..]
    {
      s := buffer[readerIndex..readerIndex + len];
      Retrieve(len);
    }

    // std::copy of s to the given index
    method CopyIn(s: string, at: nat)
      requires at + |s| <= buffer.Length
      modifies buffer
      ensures forall i | 0 <= i < buffer.Length :: buffer[i] == if at <= i < at + |s| then s[i - at] else old(buffer[i])
    {
      for k := 0 to |s|
        invariant forall i | 0 <= i < buffer.Length :: buffer[i] == if at <= i < at + k then s[i - at]
            else old(buffer[i])
      {
        buffer[at + k] := s[k];
      }
    }

    method Append(s: string)
      requires Valid()
      modifies this, buffer
      ensures Valid() && (buffer == old(buffer) || fresh(buffer))
      ensures Contents() == old(Contents()) + s
    {
      EnsureWritableBytes(|s|);
      ghost var was := Contents();
      CopyIn(s, writerIndex);
      writerIndex := writerIndex + |s|;
      assert Contents() == was + s;
    }

    method EnsureWritableBytes(len: nat)
      requires Valid()
      modifies this, buffer
      ensures Valid() && (buffer == old(buffer) || fresh(buffer))
      ensures Contents() == old(Contents()) && WritableBytes() >= len
    {
      if WritableBytes() < len {
        MakeSpace(len);
      }
    }

    /** makeSpace: grow the array, or move the readable bytes to the front. In the second
        case the reader index has moved past the prepend area, as the code asserts. */
    method MakeSpace(len: nat)
      requires Valid() && WritableBytes() < len
      modifies this, buffer
      ensures Valid() && (buffer == old(buffer) || fresh(buffer))
      ensures Contents() == old(Contents()) && WritableBytes() >= len
      ensures buffer == old(buffer) ==> readerIndex == CHEAP_PREPEND < old(readerIndex)
    {
      if WritableBytes() + PrependableBytes() < len + CHEAP_PREPEND {
        Resize(writerIndex + len);
      } else {
        assert CHEAP_PREPEND < readerIndex;
        var readable := ReadableBytes();
        MoveDown(readable);
        readerIndex := CHEAP_PREPEND;
        writerIndex := readerIndex + readable;
      }
    }

    // buffer_.resize, to a larger size
    method Resize(size: nat)
      requires Valid() && buffer.Length <= size
      modifies this`buffer
      ensures Valid() && fresh(buffer) && buffer.Length == size
      ensures Contents() == old(Contents())
    {
      var bigger := new char[size](_ => '\0');
      for i := 0 to buffer.Length
        modifies bigger
        invariant forall k | 0 <= k < i :: bigger[k] == buffer[k]
      {
        bigger[i] := buffer[i];
      }
      buffer := bigger;
    }

    // std::copy of the readable bytes to the front, over themselves
    method MoveDown(readable: nat)
      requires Valid() && readable == ReadableBytes() && CHEAP_PREPEND < readerIndex
      modifies buffer
      ensures buffer[CHEAP_PREPEND..CHEAP_PREPEND + readable] == old(Contents())
    {
      ghost var was := Contents();
      for k := 0 to readable
        invariant forall i | 0 <= i < k :: buffer[CHEAP_PREPEND + i] == was[i]
        invariant forall i | k <= i < readable :: buffer[readerIndex + i] == was[i]
      {
        buffer[CHEAP_PREPEND + k] := buffer[readerIndex + k];
      }
    }

    method Prepend(s: string)
      requires Valid() && |s| <= PrependableBytes()
      modifies this`readerIndex, buffer
      ensures Valid() && Contents() == s + old(Contents())
    {
      ghost var was := Contents();
      readerIndex := readerIndex - |s|;
      CopyIn(s, readerIndex);
      assert buffer[readerIndex..readerIndex + |s|] == s;
      assert buffer[readerIndex + |s|..writerIndex] == was;
      assert Contents() == buffer[readerIndex..readerIndex + |s|] + buffer[readerIndex + |s|..writerIndex];
    }

    // appendInt32, appendInt16 and appendInt8, for w = 4, 2 and 1
    method AppendInt(w: nat, x: int)
      requires Valid() && Fits(w, x)
      modifies this, buffer
      ensures Valid() && (buffer == old(buffer) || fresh(buffer))
      ensures Contents() == old(Contents()) + EncodeInt(w, x)
    {
      Append(EncodeInt(w, x));
    }

    /** readInt32 and its siblings: a value that was written in front of the rest is read
        back and removed. */
    method ReadInt(w: nat) returns (x: int)
      requires Valid() && w <= ReadableBytes()
      modifies this`readerIndex, this`writerIndex
      ensures Valid() && x == DecodeInt(old(Contents())[..w]) && Contents() == old(Contents())[w..]
      ensures forall v | Fits(w, v) && EncodeInt(w, v) <= old(Contents()) :: x == v
    {
      ghost var was := Contents();
      var s := RetrieveAsString(w);
      x := DecodeInt(s);
      forall v | Fits(w, v) && EncodeInt(w, v) <= was ensures x == v {
        IntRoundTrip(w, v);
        assert was[..w] == EncodeInt(w, v);
      }
    }
  }
}
