/** `struct nb_buffer` over the memory backend: a fixed window in front of a growing memory, which together
    behave as one sequence of bytes. */
module Buffer {
  import opened Prelude

  const EOF_CHAR := -1
  const WINDOW_SIZE := 4 * 4096

  datatype Mode = Idle | Reading | Writing

  /** The abstract state: all bytes written so far; the bytes that reading will return (after a flush, if there is
      something to flush); the bytes in memory; the bytes in the window. */
  datatype Contents = Contents(written: seq<byte>, rem: seq<byte>, stored: seq<byte>, win: seq<byte>)

  /** `w` was written between the two states. */
  ghost predicate Grew(a: Contents, b: Contents, w: seq<byte>) {
    b.written == a.written + w && b.rem == a.rem + w
  }

  lemma GrewTwice(a: Contents, b: Contents, c: Contents, w1: seq<byte>, w2: seq<byte>)
    requires Grew(a, b, w1) && Grew(b, c, w2)
    ensures Grew(a, c, w1 + w2)
  {
    assert a.written + (w1 + w2) == a.written + w1 + w2;
    assert a.rem + (w1 + w2) == a.rem + w1 + w2;
  }

  /** What has been written, given the stored bytes and the window. */
  function WrittenBytes(stored: seq<byte>, win: seq<byte>, mode: Mode): seq<byte> {
    stored + if mode == Writing then win else []
  }

  /** What is left to be read: a window being written comes after the stored bytes, a window being read
      before the ones not yet fetched. */
  function Unread(stored: seq<byte>, fetched: nat, win: seq<byte>, pos: nat, mode: Mode): (r: seq<byte>)
    requires fetched <= |stored| && pos <= |win|
    ensures mode != Writing ==> |r| >= |win| - pos
  {
    if mode == Writing then stored[fetched..] + win else win[pos..] + stored[fetched..]
  }

  lemma UnreadAdvance(stored: seq<byte>, fetched: nat, win: seq<byte>, pos: nat, n: nat, mode: Mode)
    requires fetched <= |stored| && pos + n <= |win| && mode != Writing
    ensures Unread(stored, fetched, win, pos, mode) == win[pos..pos + n] + Unread(stored, fetched, win, pos + n, mode)
  {}

  lemma UnreadFill(stored: seq<byte>, fetched: nat, win: seq<byte>, n: nat, mode: Mode)
    requires fetched + n <= |stored| && mode != Writing
    ensures Unread(stored, fetched + n, stored[fetched..fetched + n], 0, mode)
      == Unread(stored, fetched, win, |win|, mode)
    ensures Unread(stored, fetched, win, |win|, mode) == stored[fetched..]
    ensures WrittenBytes(stored, stored[fetched..fetched + n], mode) == WrittenBytes(stored, win, mode)
  {
    assert stored[fetched..] == stored[fetched..fetched + n] + stored[fetched + n..];
  }

  lemma UnreadAppend(stored: seq<byte>, fetched: nat, win: seq<byte>, pos: nat, mode: Mode, bytes: seq<byte>)
    requires fetched <= |stored| && pos <= |win| && (mode == Writing || win == [])
    ensures WrittenBytes(stored, win + bytes, Writing) == WrittenBytes(stored, win, mode) + bytes
    ensures Unread(stored, fetched, win + bytes, |win + bytes|, Writing)
      == Unread(stored, fetched, win, pos, mode) + bytes
  {
    if mode == Writing {
      assert stored + (win + bytes) == stored + win + bytes;
      assert stored[fetched..] + (win + bytes) == stored[fetched..] + win + bytes;
    } else {
      assert WrittenBytes(stored, win, mode) == stored;
      assert Unread(stored, fetched, win, pos, mode) == stored[fetched..];
      assert win + bytes == bytes;
    }
  }

  lemma UnreadFlush(stored: seq<byte>, fetched: nat, win: seq<byte>, pos: nat, mode: Mode)
    requires fetched <= |stored| && pos <= |win|
    ensures var stored' := if mode == Writing then stored + win else stored;
            var r := Unread(stored', fetched, [], 0, Idle);
            WrittenBytes(stored', [], Idle) == WrittenBytes(stored, win, mode) &&
            r == if mode == Writing then Unread(stored, fetched, win, pos, mode)
                 else Unread(stored, fetched, win, pos, mode)[|win| - pos..]
  {
    if mode == Writing {
      assert (stored + win)[fetched..] == stored[fetched..] + win;
    }
  }

  lemma UnreadPutBack(stored: seq<byte>, fetched: nat, win: seq<byte>, pos: nat, c: byte, mode: Mode)
    requires fetched <= |stored| && 0 < pos <= |win| && mode != Writing
    ensures Unread(stored, fetched, win[pos - 1 := c], pos - 1, mode) == [c] + Unread(stored, fetched, win, pos, mode)
    ensures WrittenBytes(stored, win[pos - 1 := c], mode) == WrittenBytes(stored, win, mode)
  {
    var win' := win[pos - 1 := c];
    assert win'[pos - 1..] == [c] + win[pos..];
    assert win'[pos - 1..] + stored[fetched..] == [c] + (win[pos..] + stored[fetched..]);
  }

  lemma ShortOrFull(whole: seq<byte>, out: seq<byte>, rest: seq<byte>, count: nat)
    requires whole == out + rest && |out| <= count && (|out| == count || rest == [])
    ensures out == whole[..Min(count, |whole|)] && rest == whole[|out|..]
  {}

  /** `memcpy` into an array. */
  method Memcpy(dst: array<byte>, at: nat, src: seq<byte>)
    requires at + |src| <= dst.Length
    modifies dst
    ensures dst[..at + |src|] == old(dst[..at]) + src
  {
    forall i | 0 <= i < |src| {
      dst[at + i] := src[i];
    }
  }

  class NbBuffer {
    ghost var Abs: Contents
    ghost var Repr: set<object>

    var mode: Mode
    var window: array<byte>
    var pos: nat
    var len: nat
    var writtenTotal: nat

    var memory: array<byte>
    var memoryLen: nat
    var memoryPos: nat

    ghost predicate Valid()
      reads this, Repr
      ensures Valid() ==> this in Repr && pos <= len && (mode != Writing ==> len - pos <= |Abs.rem|)
    {
      && this in Repr && window in Repr && memory in Repr
      && window != memory && window.Length > 0
      && pos <= len <= window.Length && Abs.win == window[..len]
      && memoryPos <= memoryLen <= memory.Length && Abs.stored == memory[..memoryLen]
      && (memory.Length == 0 || memory.Length >= window.Length)
      && memory.Length <= Max(window.Length, 2 * memoryLen)
      && (mode == Writing ==> pos == len)
      && Abs.written == WrittenBytes(Abs.stored, Abs.win, mode)
      && Abs.rem == Unread(Abs.stored, memoryPos, Abs.win, pos, mode)
      && writtenTotal == |Abs.written|
    }

    /** Writing is possible unless a part of the window is waiting to be read. */
    ghost predicate Writable()
      reads this
    {
      mode == Writing || (mode == Idle && len == 0)
    }

    constructor ()
      ensures Valid() && fresh(Repr)
      ensures Abs.written == [] && Abs.rem == [] && mode == Idle && len == 0
    {
      mode, pos, len, writtenTotal := Idle, 0, 0, 0;
      window := new byte[WINDOW_SIZE];
      memory := new byte[0];
      memoryLen, memoryPos := 0, 0;
      Abs := Contents([], [], [], []);
      new;
      Repr := {this, window, memory};
    }

    /** `nb_realloc` of the memory: a new block with the old contents in front. */
    method GrowMemory(size: nat)
      requires size >= memory.Length && memoryLen <= memory.Length
      modifies this`memory
      ensures fresh(memory) && memory.Length == size
      ensures memory[..memoryLen] == old(memory[..memoryLen])
    {
      var bigger := new byte[size];
      Memcpy(bigger, 0, memory[..memoryLen]);
      memory := bigger;
    }

    /** `mem_flush`. The single growth step always makes enough room. */
    method MemFlush()
      requires Valid() && mode == Writing
      modifies this`memory, this`memoryLen, memory
      ensures memory == old(memory) || fresh(memory)
      ensures memoryLen == old(memoryLen) + len <= memory.Length
      ensures memory[..memoryLen] == Abs.stored + Abs.win
      ensures memory.Length == 0 || memory.Length >= window.Length
      ensures memory.Length <= Max(window.Length, 2 * memoryLen)
    {
      if memoryLen + len > memory.Length {
        GrowMemory(Max(2 * memory.Length, window.Length));
      }
      Memcpy(memory, memoryLen, window[..len]);
      memoryLen := memoryLen + len;
    }

    /** `nb_buffer_flush`. Outside of a write phase it drops what is left of the window. */
    method Flush()
      requires Valid()
      modifies Repr
      ensures Valid() && fresh(Repr - old(Repr))
      ensures mode == Idle && len == 0
      ensures Abs.written == old(Abs.written)
      ensures Abs.rem == if old(mode) == Writing then old(Abs.rem) else old(Abs.rem)[old(len - pos)..]
      ensures window == old(window) && writtenTotal == old(writtenTotal)
    {
      hide Unread, WrittenBytes, Valid;
      if mode == Writing {
        StoreWindow();
      } else {
        DropWindow();
      }
    }

    method StoreWindow()
      requires Valid() && mode == Writing
      modifies Repr
      ensures Valid() && fresh(Repr - old(Repr))
      ensures mode == Idle && len == 0
      ensures Abs.written == old(Abs.written) && Abs.rem == old(Abs.rem)
      ensures window == old(window) && writtenTotal == old(writtenTotal)
    {
      hide Unread, WrittenBytes;
      UnreadFlush(Abs.stored, memoryPos, Abs.win, pos, mode);
      MemFlush();
      Abs := Abs.(stored := Abs.stored + Abs.win, win := []);
      pos, len, mode := 0, 0, Idle;
      Repr := Repr + {memory};
      assert Abs.win == window[..len] && Abs.stored == memory[..memoryLen];
    }

    method DropWindow()
      requires Valid() && mode != Writing
      modifies this`pos, this`len, this`mode, this`Abs
      ensures Valid()
      ensures mode == Idle && len == 0
      ensures Abs.written == old(Abs.written) && Abs.rem == old(Abs.rem)[old(len - pos)..]
    {
      hide Unread, WrittenBytes;
      UnreadFlush(Abs.stored, memoryPos, Abs.win, pos, mode);
      assert |Abs.win| == len;
      Abs := Abs.(rem := Abs.rem[len - pos..], win := []);
      pos, len, mode := 0, 0, Idle;
      assert window[..0] == [];
    }

    /** `nb_buffer_fill` with `mem_fill`, which its callers use only on a used-up window. */
    method Fill() returns (more: bool)
      requires Valid() && mode != Writing && pos == len
      modifies this`len, this`pos, this`memoryPos, this`Abs, window
      ensures Valid()
      ensures Abs.written == old(Abs.written) && Abs.rem == old(Abs.rem)
      ensures more == (Abs.rem != []) == (len > 0) && pos == 0
    {
      hide Unread, WrittenBytes;
      var n := Min(memoryLen - memoryPos, window.Length);
      UnreadFill(Abs.stored, memoryPos, Abs.win, n, mode);
      assert |Abs.win| == len && |Abs.stored| == memoryLen;
      assert Abs.rem == Abs.stored[memoryPos..];
      ghost var kept := Abs.stored;
      var chunk := memory[memoryPos..memoryPos + n];
      assert chunk == kept[memoryPos..memoryPos + n];
      Memcpy(window, 0, chunk);
      assert kept == memory[..memoryLen] && window[..n] == chunk;
      len := n;
      Abs := Abs.(win := chunk);
      memoryPos := memoryPos + n;
      pos := 0;
      more := len > 0;
    }

    /** One turn of the loop of `read_internal`. */
    method NextChunk(limit: nat) returns (chunk: seq<byte>)
      requires Valid() && mode != Writing && limit > 0
      modifies Repr
      ensures Valid() && Repr == old(Repr) && mode == old(mode)
      ensures Abs.written == old(Abs.written) && old(Abs.rem) == chunk + Abs.rem
      ensures |chunk| <= limit && (chunk == [] ==> Abs.rem == [])
    {
      hide Unread, WrittenBytes;
      var avail := len - pos;
      if avail == 0 {
        var more := Fill();
        avail := len;
        if avail == 0 {
          return [];
        }
      }
      chunk := Advance(Min(avail, limit));
    }

    /** `read_internal`. */
    method ReadSlow(count: nat) returns (out: seq<byte>)
      requires Valid() && mode != Writing
      modifies Repr
      ensures Valid() && Repr == old(Repr) && mode == Reading
      ensures out == old(Abs.rem)[..Min(count, |old(Abs.rem)|)] && Abs.rem == old(Abs.rem)[|out|..]
      ensures Abs.written == old(Abs.written)
    {
      hide Unread, WrittenBytes, Valid;
      StartReading();
      out := [];
      while |out| < count
        invariant Valid() && Repr == old(Repr) && mode == Reading && Abs.written == old(Abs.written)
        invariant |out| <= count && old(Abs.rem) == out + Abs.rem
      {
        var chunk := NextChunk(count - |out|);
        if chunk == [] {
          break;
        }
        out := out + chunk;
      }
      ShortOrFull(old(Abs.rem), out, Abs.rem, count);
    }

    method StartReading()
      requires Valid() && mode != Writing
      modifies this`mode
      ensures Valid() && mode == Reading
    {
      mode := Reading;
    }

    /** Taking bytes off the window. */
    method Advance(n: nat) returns (chunk: seq<byte>)
      requires Valid() && mode != Writing && n <= len - pos
      modifies this`pos, this`Abs
      ensures Valid() && |chunk| == n && pos == old(pos) + n
      ensures Abs.written == old(Abs.written) && old(Abs.rem) == chunk + Abs.rem
    {
      hide Unread, WrittenBytes;
      UnreadAdvance(Abs.stored, memoryPos, Abs.win, pos, n, mode);
      chunk := window[pos..pos + n];
      assert chunk == Abs.win[pos..pos + n];
      pos := pos + n;
      Abs := Abs.(rem := Unread(Abs.stored, memoryPos, Abs.win, pos, mode));
    }

    /** `nb_buffer_read`: the inline path, or the loop when the window does not hold enough. */
    method Read(count: nat) returns (out: seq<byte>)
      requires Valid() && mode != Writing
      modifies Repr
      ensures Valid() && Repr == old(Repr) && mode == Reading
      ensures out == old(Abs.rem)[..Min(count, |old(Abs.rem)|)] && Abs.rem == old(Abs.rem)[|out|..]
      ensures Abs.written == old(Abs.written)
    {
      hide Unread, WrittenBytes;
      if count <= len - pos {
        out := Advance(count);
        StartReading();
      } else {
        out := ReadSlow(count);
      }
    }

    /** Copying bytes behind the window's contents. */
    method Append(bytes: seq<byte>)
      requires Valid() && Writable() && |bytes| <= window.Length - len
      modifies this`pos, this`len, this`writtenTotal, this`mode, this`Abs, window
      ensures Valid() && mode == Writing
      ensures Grew(old(Abs), Abs, bytes)
      ensures len == old(len) + |bytes|
    {
      hide Unread, WrittenBytes;
      UnreadAppend(Abs.stored, memoryPos, Abs.win, pos, mode, bytes);
      ghost var kept := Abs.stored;
      Memcpy(window, len, bytes);
      assert kept == memory[..memoryLen];
      pos := len + |bytes|;
      len := pos;
      writtenTotal := writtenTotal + |bytes|;
      mode := Writing;
      Abs := Contents(Abs.written + bytes, Abs.rem + bytes, Abs.stored, Abs.win + bytes);
      assert Abs.win == window[..len] && Abs.stored == memory[..memoryLen];
    }

    method StartWriting()
      requires Valid() && Writable()
      modifies this`mode
      ensures Valid() && mode == Writing
    {
      hide Unread, WrittenBytes;
      UnreadAppend(Abs.stored, memoryPos, Abs.win, pos, mode, []);
      assert Abs.win + [] == Abs.win && Abs.written + [] == Abs.written && Abs.rem + [] == Abs.rem;
      mode := Writing;
    }

    /** `write_internal`. */
    method WriteSlow(bytes: seq<byte>)
      requires Valid() && Writable()
      modifies Repr
      ensures Valid() && fresh(Repr - old(Repr)) && mode == Writing
      ensures Grew(old(Abs), Abs, bytes)
    {
      hide Unread, WrittenBytes, Valid;
      StartWriting();
      var done := 0;
      while done < |bytes|
        invariant 0 <= done <= |bytes|
        invariant Valid() && fresh(Repr - old(Repr)) && mode == Writing
        invariant Grew(old(Abs), Abs, bytes[..done])
      {
        var n := WriteChunk(bytes[done..]);
        assert bytes[..done + n] == bytes[..done] + bytes[done..][..n];
        done := done + n;
      }
      assert bytes[..done] == bytes;
    }

    /** One turn of the loop of `write_internal`. */
    method WriteChunk(bytes: seq<byte>) returns (n: nat)
      requires Valid() && mode == Writing && bytes != []
      modifies Repr
      ensures Valid() && fresh(Repr - old(Repr)) && mode == Writing
      ensures 0 < n <= |bytes|
      ensures Grew(old(Abs), Abs, bytes[..n])
    {
      hide Unread, WrittenBytes;
      if window.Length - len == 0 {
        Flush();
      }
      n := Min(window.Length - len, |bytes|);
      Append(bytes[..n]);
    }

    /** `nb_buffer_write`. */
    method Write(bytes: seq<byte>)
      requires Valid() && Writable()
      modifies Repr
      ensures Valid() && fresh(Repr - old(Repr)) && mode == Writing
      ensures Grew(old(Abs), Abs, bytes)
    {
      hide Unread, WrittenBytes;
      if |bytes| <= window.Length - len {
        Append(bytes);
      } else {
        WriteSlow(bytes);
      }
    }

    /** `nb_buffer_getc`. */
    method Getc() returns (c: int)
      requires Valid() && mode != Writing
      modifies Repr
      ensures Valid() && Repr == old(Repr) && mode == old(mode) && Abs.written == old(Abs.written)
      ensures old(Abs.rem) == [] ==> c == EOF_CHAR && Abs.rem == [] && pos == 0
      ensures old(Abs.rem) != [] ==> c == old(Abs.rem)[0] && Abs.rem == old(Abs.rem)[1..] && pos > 0
    {
      hide Unread, WrittenBytes;
      if pos >= len {
        var more := Fill();
        if !more {
          return EOF_CHAR;
        }
      }
      var chunk := Advance(1);
      c := chunk[0];
    }

    /** `nb_buffer_ungetc`: the byte goes back in front of what is left, overwriting the window. */
    method Ungetc(c: byte)
      requires Valid() && mode != Writing && pos > 0
      modifies this`pos, this`Abs, window
      ensures Valid()
      ensures Abs.written == old(Abs.written) && Abs.rem == [c] + old(Abs.rem)
    {
      hide Unread, WrittenBytes;
      UnreadPutBack(Abs.stored, memoryPos, Abs.win, pos, c, mode);
      ghost var kept := Abs.stored;
      pos := pos - 1;
      window[pos] := c;
      assert kept == memory[..memoryLen];
      Abs := Abs.(rem := [c] + Abs.rem, win := Abs.win[pos := c]);
      assert Abs.win == window[..len];
    }

    /** `nb_buffer_peek`. */
    method Peek() returns (c: int)
      requires Valid() && mode != Writing
      modifies Repr
      ensures Valid() && Repr == old(Repr) && mode == old(mode) && Abs.written == old(Abs.written)
      ensures Abs.rem == old(Abs.rem)
      ensures c == if Abs.rem == [] then EOF_CHAR else Abs.rem[0]
    {
      hide Unread, WrittenBytes;
      c := Getc();
      if c != EOF_CHAR {
        Ungetc(c);
      }
    }

    /** `nb_buffer_is_eof`. */
    method IsEof() returns (eof: bool)
      requires Valid() && mode != Writing
      modifies Repr
      ensures Valid() && Repr == old(Repr) && mode == old(mode) && Abs.written == old(Abs.written)
      ensures Abs.rem == old(Abs.rem)
      ensures eof <==> Abs.rem == []
    {
      hide Unread, WrittenBytes;
      if len - pos == 0 {
        var more := Fill();
        return len == 0;
      }
      assert len - pos <= |Abs.rem|;
      eof := false;
    }
  }
}
