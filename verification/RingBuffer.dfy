/**
 The circular receive buffer: a 16384-byte array, a read and a write position
 and a byte count, against its view as a bounded byte queue.
 */
module Ring {
  import opened Bytes
  import opened Framing

  class RingBuffer {
    const m_buffer: array<byte>
    var m_readPos: nat
    var m_writePos: nat
    var m_dataSize: nat

    ghost predicate Valid()
      reads this
    {
      && m_buffer.Length == BUFFER_SIZE
      && m_readPos < BUFFER_SIZE
      && m_dataSize <= BUFFER_SIZE
      && m_writePos == (m_readPos + m_dataSize) % BUFFER_SIZE
    }

    /** The buffered bytes, oldest first. */
    ghost function Contents(): (s: Buffer)
      requires Valid()
      reads this, m_buffer
      ensures |s| == m_dataSize
    {
      Unwrap(m_buffer[..], m_readPos, m_dataSize)
    }

    constructor ()
      ensures Valid() && fresh(m_buffer) && Contents() == []
    {
      m_buffer := new byte[BUFFER_SIZE](_ => 0);
      m_readPos, m_writePos, m_dataSize := 0, 0, 0;
    }

    /** Appends data[..len], in two parts if it runs past the end of the array; all or nothing. */
    method Write(data: array<byte>, len: nat) returns (ok: bool)
      requires Valid() && data != m_buffer && len <= data.Length
      modifies this`m_writePos, this`m_dataSize, m_buffer
      ensures Valid()
      ensures ok <==> |old(Contents())| + len <= 16384
      ensures Contents() == if ok then old(Contents()) + data[..len] else old(Contents())
    {
      if len > GetWritableSize() {
        return false;
      }
      CopyIn(data, len);
      WriteMoved(old(m_buffer[..]), m_buffer[..], m_readPos, m_dataSize, data[..len]);
      m_writePos := (m_writePos + len) % BUFFER_SIZE;
      m_dataSize := m_dataSize + len;
      return true;
    }

    /** The one or two memcpy calls of Write. */
    method CopyIn(data: array<byte>, len: nat)
      requires Valid() && data != m_buffer && len <= data.Length && m_dataSize + len <= BUFFER_SIZE
      modifies m_buffer
      ensures Written(old(m_buffer[..]), m_buffer[..], m_writePos, data[..len])
    {
      var tailSpace := BUFFER_SIZE - m_writePos;
      if len <= tailSpace {
        CopyBytes(data, 0, m_buffer, m_writePos, len);
      } else {
        CopyBytes(data, 0, m_buffer, m_writePos, tailSpace);
        CopyBytes(data, tailSpace, m_buffer, 0, len - tailSpace);
      }
    }

    /** Copies the oldest len bytes out and removes nothing. */
    method Peek(dest: array<byte>, len: nat) returns (ok: bool)
      requires Valid() && dest != m_buffer && len <= dest.Length
      modifies dest
      ensures ok <==> len <= |Contents()|
      ensures ok ==> dest[..] == Contents()[..len] + old(dest[len..])
      ensures !ok ==> dest[..] == old(dest[..])
    {
      if len > m_dataSize {
        return false;
      }
      var tailSpace := BUFFER_SIZE - m_readPos;
      if len <= tailSpace {
        CopyBytes(m_buffer, m_readPos, dest, 0, len);
      } else {
        CopyBytes(m_buffer, m_readPos, dest, 0, tailSpace);
        CopyBytes(m_buffer, 0, dest, tailSpace, len - tailSpace);
      }
      return true;
    }

    /** Peek, then advance past the bytes that were copied. */
    method Read(dest: array<byte>, len: nat) returns (ok: bool)
      requires Valid() && dest != m_buffer && len <= dest.Length
      modifies this`m_readPos, this`m_dataSize, dest
      ensures Valid()
      ensures ok <==> len <= |old(Contents())|
      ensures ok ==> dest[..] == old(Contents())[..len] + old(dest[len..])
      ensures ok ==> Contents() == old(Contents())[len..]
      ensures !ok ==> dest[..] == old(dest[..]) && Contents() == old(Contents())
    {
      ok := Peek(dest, len);
      if !ok {
        return;
      }
      Advance(len);
    }

    /** Moves the read position past the oldest len bytes. */
    method Advance(len: nat)
      requires Valid() && len <= |Contents()|
      modifies this`m_readPos, this`m_dataSize
      ensures Valid() && Contents() == old(Contents())[len..]
    {
      var next := (m_readPos + len) % BUFFER_SIZE;
      ReadMoved(m_buffer[..], m_readPos, m_dataSize, len, next);
      m_readPos := next;
      m_dataSize := m_dataSize - len;
    }

    /** Drops the oldest len bytes, or all of them if there are fewer. */
    method Ignore(len: nat)
      requires Valid()
      modifies this`m_readPos, this`m_dataSize
      ensures Valid()
      ensures Contents() == if len <= |old(Contents())| then old(Contents())[len..] else []
    {
      Advance(if len < m_dataSize then len else m_dataSize);
    }

    function GetReadableSize(): (n: nat)
      requires Valid()
      reads this, m_buffer
      ensures n == |Contents()|
    {
      m_dataSize
    }

    function GetWritableSize(): (n: nat)
      requires Valid()
      reads this, m_buffer
      ensures n == BUFFER_SIZE - |Contents()|
    {
      BUFFER_SIZE - m_dataSize
    }

    /**
     Takes one complete frame off the front. A bad header costs the caller its four
     bytes and answers None, just as an incomplete frame does.
     */
    method TryAssemblePacket() returns (packet: Option<Buffer>)
      requires Valid()
      modifies this`m_readPos, this`m_dataSize
      ensures Valid()
      ensures var s := old(Contents());
              if |s| < 4 then packet == None && Contents() == s
              else
                var n := s[0] as int + 256 * s[1] as int;
                if n < 4 || n > 512 then packet == None && Contents() == s[4..]
                else if n > |s| then packet == None && Contents() == s
                else packet == Some(s[..n]) && Contents() == s[n..]
    {
      if m_dataSize < HEADER_SIZE {
        return None;
      }
      var header := new byte[HEADER_SIZE](_ => 0);
      var ok := Peek(header, HEADER_SIZE);
      assert header[..] == Contents()[..HEADER_SIZE];
      assert header[0..2] == Contents()[0..2];
      FewBytes(header[0..2]);
      var totalSize := FromLE(header[0..2]);
      if totalSize < HEADER_SIZE || totalSize > MAX_PACKET_SIZE {
        Ignore(HEADER_SIZE);
        return None;
      }
      if m_dataSize < totalSize {
        return None;
      }
      var bytes := new byte[totalSize](_ => 0);
      ok := Read(bytes, totalSize);
      assert bytes[..] == old(Contents())[..totalSize];
      return Some(bytes[..]);
    }
  }

  /** memcpy between two arrays. */
  method CopyBytes(src: array<byte>, from: nat, dst: array<byte>, at: nat, n: nat)
    requires src != dst && from + n <= src.Length && at + n <= dst.Length
    modifies dst
    ensures forall j :: 0 <= j < dst.Length ==>
      dst[j] == if at <= j < at + n then src[from + (j - at)] else old(dst[j])
  {
    forall i | 0 <= i < n {
      dst[at + i] := src[from + i];
    }
  }

  /** x modulo the buffer size, for the positions that occur. */
  function Wrap(x: nat): (w: nat)
    requires x < 2 * BUFFER_SIZE
    ensures w == x % BUFFER_SIZE
  {
    if x < BUFFER_SIZE then x else x - BUFFER_SIZE
  }

  /** The n bytes of the circular array b that start at position r. */
  ghost function Unwrap(b: Buffer, r: nat, n: nat): (s: Buffer)
    requires |b| == BUFFER_SIZE && r < BUFFER_SIZE && n <= BUFFER_SIZE
    ensures |s| == n
    ensures forall i :: 0 <= i < n ==> s[i] == b[Wrap(r + i)]
  {
    if r + n <= BUFFER_SIZE then b[r..r + n] else b[r..] + b[..r + n - BUFFER_SIZE]
  }

  /** Dropping from the front of the queue is moving the read position. */
  lemma UnwrapDropped(b: Buffer, r: nat, n: nat, k: nat)
    requires |b| == BUFFER_SIZE && r < BUFFER_SIZE && k <= n <= BUFFER_SIZE
    ensures Unwrap(b, Wrap(r + k), n - k) == Unwrap(b, r, n)[k..]
    ensures Wrap(Wrap(r + k) + (n - k)) == Wrap(r + n)
  {
    var all := Unwrap(b, r, n);
    forall i | 0 <= i < n - k
      ensures Unwrap(b, Wrap(r + k), n - k)[i] == all[k..][i]
    {
      assert all[k..][i] == all[k + i] == b[Wrap(r + (k + i))];
      assert Wrap(Wrap(r + k) + i) == Wrap(r + (k + i));
    }
  }

  /** The same for the modulo of the source. */
  lemma ReadMoved(b: Buffer, r: nat, n: nat, k: nat, next: nat)
    requires |b| == BUFFER_SIZE && r < BUFFER_SIZE && k <= n <= BUFFER_SIZE && next == (r + k) % BUFFER_SIZE
    ensures next < BUFFER_SIZE && Unwrap(b, next, n - k) == Unwrap(b, r, n)[k..]
    ensures (next + (n - k)) % BUFFER_SIZE == (r + n) % BUFFER_SIZE
  {
    assert next == Wrap(r + k);
    UnwrapDropped(b, r, n, k);
  }

  /** The array after data has been written from position w on, in one part or two. */
  ghost predicate Written(before: Buffer, after: Buffer, w: nat, data: Buffer)
    requires |before| == |after| == BUFFER_SIZE && w < BUFFER_SIZE
  {
    forall j :: 0 <= j < BUFFER_SIZE ==>
      after[j] == if w <= j < w + |data| then data[j - w]
                  else if j + BUFFER_SIZE < w + |data| then data[j + BUFFER_SIZE - w]
                  else before[j]
  }

  /** Writing behind the queue is appending to it. */
  lemma UnwrapWritten(before: Buffer, after: Buffer, r: nat, n: nat, data: Buffer)
    requires |before| == |after| == BUFFER_SIZE && r < BUFFER_SIZE && n + |data| <= BUFFER_SIZE
    requires Written(before, after, Wrap(r + n), data)
    ensures Unwrap(after, r, n + |data|) == Unwrap(before, r, n) + data
    ensures Wrap(Wrap(r + n) + |data|) == Wrap(r + (n + |data|))
  {
    var w := Wrap(r + n);
    forall i | 0 <= i < n + |data|
      ensures Unwrap(after, r, n + |data|)[i] == (Unwrap(before, r, n) + data)[i]
    {
      var j := Wrap(r + i);
      if i < n {
        assert after[j] == before[j];
      } else {
        assert after[j] == data[i - n];
      }
    }
  }

  /** The same for the modulo of the source. */
  lemma WriteMoved(before: Buffer, after: Buffer, r: nat, n: nat, data: Buffer)
    requires |before| == |after| == BUFFER_SIZE && r < BUFFER_SIZE && n + |data| <= BUFFER_SIZE
    requires Written(before, after, (r + n) % BUFFER_SIZE, data)
    ensures Unwrap(after, r, n + |data|) == Unwrap(before, r, n) + data
    ensures ((r + n) % BUFFER_SIZE + |data|) % BUFFER_SIZE == (r + (n + |data|)) % BUFFER_SIZE
  {
    UnwrapWritten(before, after, r, n, data);
  }
}
