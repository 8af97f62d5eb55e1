/**
 * A write-only stdio stream with its default internal buffer: fputc, fwrite, fflush and
 * ftell. The kernel may refuse any write and may take only part of what it is offered,
 * but takes at least one byte when it takes any.
 */
module WriteStream {

  import opened Octets
  import opened StdioBuffer
  import opened Arithmetic

  const NEWLINE: byte := 10

  datatype Mode = FullyBuffered | LineBuffered | Unbuffered

  /** What the kernel does with one write: refuse it, or take about `chunk` bytes. */
  datatype Kernel = Kernel(works: bool, chunk: nat)

  /** The result of write(fd, buf, n) when it succeeds. */
  function WriteCount(k: Kernel, n: nat): (w: nat)
    ensures w <= n && (n > 0 ==> w > 0)
  {
    if k.chunk == 0 then Min(1, n) else Min(k.chunk, n)
  }

  /** The i-th write takes a whole buffer. */
  predicate Whole(kernel: nat -> Kernel, i: nat) { kernel(i).works && WriteCount(kernel(i), BUFSIZ) == BUFSIZ }

  /**
   * fwrite of len bytes into a buffer with `room` bytes free comes to its flush number m:
   * more data is left than m whole flushes made room for.
   */
  ghost predicate Reaches(kernel: nat -> Kernel, room: nat, len: nat, m: nat) {
    room + m * BUFSIZ < len && forall i: nat :: i < m ==> Whole(kernel, i)
  }

  /** There it fails. */
  ghost predicate FailsAt(kernel: nat -> Kernel, room: nat, len: nat, m: nat) {
    Reaches(kernel, room, len, m) && !kernel(m).works
  }

  /** There the kernel takes less than the next piece of data needs. */
  ghost predicate OverrunsAt(kernel: nat -> Kernel, room: nat, len: nat, m: nat) {
    && Reaches(kernel, room, len, m) && kernel(m).works
    && WriteCount(kernel(m), BUFSIZ) < Min(len - room - m * BUFSIZ, BUFSIZ)
  }

  ghost predicate Stops(kernel: nat -> Kernel, room: nat, len: nat, m: nat) {
    FailsAt(kernel, room, len, m) || OverrunsAt(kernel, room, len, m)
  }

  ghost predicate Fails(kernel: nat -> Kernel, room: nat, len: nat) { exists m: nat :: FailsAt(kernel, room, len, m) }

  ghost predicate Overruns(kernel: nat -> Kernel, room: nat, len: nat) {
    exists m: nat :: OverrunsAt(kernel, room, len, m)
  }

  /**
   * How fwrite's loop ends: it overruns exactly when some flush does, falls short exactly
   * when some flush fails, and stops where that flush is.
   */
  ghost predicate Ends(kernel: nat -> Kernel, room: nat, len: nat, written: nat, overran: bool) {
    && (overran <==> Overruns(kernel, room, len))
    && (written < len && !overran <==> Fails(kernel, room, len))
    && forall m: nat :: Stops(kernel, room, len, m) ==> written == room + m * BUFSIZ
  }

  /** Flush m is the last one whose room the data needs. */
  predicate LastFlush(room: nat, len: nat, m: nat) { room + m * BUFSIZ < len <= room + (m + 1) * BUFSIZ }

  /** The room left when everything is taken: what was there, or what the last flush made, less the data behind it. */
  ghost predicate TakenAll(kernel: nat -> Kernel, room: nat, len: nat, free: int) {
    && (len <= room ==> free == room - len)
    && forall m: nat :: LastFlush(room, len, m) ==> free == WriteCount(kernel(m), BUFSIZ) - (len - room - m * BUFSIZ)
  }

  /** The room fwrite's loop leaves in the buffer: none where a flush fails, and what it freed where one overruns. */
  ghost predicate Leaves(kernel: nat -> Kernel, room: nat, len: nat, written: nat, free: int) {
    && (written == len ==> TakenAll(kernel, room, len, free))
    && (forall m: nat :: FailsAt(kernel, room, len, m) ==> free == 0)
    && (forall m: nat :: OverrunsAt(kernel, room, len, m) ==> free == WriteCount(kernel(m), BUFSIZ))
  }

  /** Flush i freed what the data behind it needed. */
  ghost predicate Served(kernel: nat -> Kernel, room: nat, len: nat, i: nat) {
    kernel(i).works && (room + i * BUFSIZ < len ==> WriteCount(kernel(i), BUFSIZ) >= Min(len - room - i * BUFSIZ, BUFSIZ))
  }

  /** fwrite's loop with `written` bytes gone and `free` places left, after `flushes` flushes that served their data. */
  ghost predicate Looping(kernel: nat -> Kernel, room: nat, len: nat, written: nat, flushes: nat, free: nat) {
    && written <= len
    && (forall i: nat :: i < flushes ==> Served(kernel, room, len, i))
    && (written < len ==>
          (written == 0 == flushes && free == room) || (free == 0 && written == room + flushes * BUFSIZ))
    && (written == len ==> len <= room + flushes * BUFSIZ && TakenAll(kernel, room, len, free))
  }

  /** A turn that neither fails nor overruns. */
  lemma LoopsOn(kernel: nat -> Kernel, room: nat, len: nat, written: nat, flushes: nat, free: nat)
    requires Looping(kernel, room, len, written, flushes, free) && written < len
    requires free == 0 ==> kernel(flushes).works && WriteCount(kernel(flushes), BUFSIZ) >= Min(len - written, BUFSIZ)
    ensures var n := Min(len - written, if free == 0 then BUFSIZ else free);
            if free == 0
            then Looping(kernel, room, len, written + n, flushes + 1, WriteCount(kernel(flushes), BUFSIZ) - n)
            else Looping(kernel, room, len, written + n, flushes, free - n)
  {
    if free == 0 {
      assert Served(kernel, room, len, flushes);
    }
  }

  lemma AllServed(kernel: nat -> Kernel, room: nat, len: nat, f: nat)
    requires forall i: nat :: i < f ==> Served(kernel, room, len, i)
    requires len <= room + f * BUFSIZ
    ensures !Fails(kernel, room, len) && !Overruns(kernel, room, len)
    ensures forall m: nat :: !Stops(kernel, room, len, m) && !FailsAt(kernel, room, len, m) && !OverrunsAt(kernel, room, len, m)
  {
    forall m: nat
      ensures !FailsAt(kernel, room, len, m) && !OverrunsAt(kernel, room, len, m)
    {
      assert m < f ==> Served(kernel, room, len, m);
    }
  }

  lemma StopsReached(kernel: nat -> Kernel, room: nat, len: nat, f: nat)
    requires forall i: nat :: i < f ==> Served(kernel, room, len, i)
    requires room + f * BUFSIZ < len && !Served(kernel, room, len, f)
    ensures Reaches(kernel, room, len, f)
    ensures if kernel(f).works then OverrunsAt(kernel, room, len, f) else FailsAt(kernel, room, len, f)
  {
    forall i: nat | i < f
      ensures Whole(kernel, i)
    {
      assert Served(kernel, room, len, i);
    }
  }

  /** The first flush that does not serve its data is where fwrite stops. */
  lemma StopsAt(kernel: nat -> Kernel, room: nat, len: nat, f: nat)
    requires forall i: nat :: i < f ==> Served(kernel, room, len, i)
    requires room + f * BUFSIZ < len && !Served(kernel, room, len, f)
    ensures forall m: nat :: Stops(kernel, room, len, m) ==> m == f
    ensures Fails(kernel, room, len) <==> !kernel(f).works
    ensures Overruns(kernel, room, len) <==> kernel(f).works
    ensures Leaves(kernel, room, len, room + f * BUFSIZ, if kernel(f).works then WriteCount(kernel(f), BUFSIZ) else 0)
  {
    StopsReached(kernel, room, len, f);
    forall m: nat | Stops(kernel, room, len, m)
      ensures m == f
    {
      assert m < f ==> Whole(kernel, m);
      assert f < m ==> Whole(kernel, f);
    }
    assert forall m: nat :: FailsAt(kernel, room, len, m) ==> Stops(kernel, room, len, m);
    assert forall m: nat :: OverrunsAt(kernel, room, len, m) ==> Stops(kernel, room, len, m);
  }

  /** Whole items in n bytes. */
  function Items(n: nat, size: nat): nat { if size == 0 then 0 else n / size }

  /** What ends with these bytes, and fills the buffer up to the cursor, is written out in line mode. */
  predicate LineOut(s: seq<byte>, cursor: nat) { cursor == OVRBUF || EndsLine(s) }

  predicate EndsLine(s: seq<byte>) { s != [] && s[|s| - 1] == NEWLINE }

  class OutStream {
    var disk: seq<byte>          // what the kernel has taken, in order
    const buf: array<byte>       // _base: pushback zone, then data
    var ptr: nat                 // _ptr - _base
    const mode: Mode             // _bufmode
    var err: bool
    var lastOp: nat              // 0 none, 2 write
    ghost var accepted: seq<byte>

    ghost predicate Valid()
      reads this, buf
    {
      && buf.Length == OVRBUF
      && OVRSIZ <= ptr <= OVRBUF
      && (mode.Unbuffered? ==> ptr == OVRSIZ)
      && accepted == disk + buf[OVRSIZ..ptr]
    }

    constructor (mode: Mode)
      ensures Valid() && this.mode == mode && accepted == [] && disk == [] && ptr == OVRSIZ && !err && fresh(buf)
    {
      this.mode := mode;
      disk, ptr, err, lastOp := [], OVRSIZ, false, 0;
      buf := new byte[OVRBUF];
      accepted := [];
    }

    /** memmove of the unwritten tail to the front of the data area. */
    method FlushPartial(written: nat, toWrite: nat)
      requires buf.Length == OVRBUF && ptr == OVRSIZ + toWrite <= OVRBUF && written <= toWrite
      modifies this`ptr, buf
      ensures ptr == OVRSIZ + toWrite - written
      ensures buf[OVRSIZ..ptr] == old(buf[OVRSIZ + written..OVRSIZ + toWrite])
    {
      if written < toWrite {
        forall i | 0 <= i < toWrite - written {
          buf[OVRSIZ + i] := buf[OVRSIZ + written + i];
        }
      }
      ptr := OVRSIZ + (toWrite - written);
    }

    /** __jacl_flush_fd: one write of the pending bytes; what is not taken stays pending. */
    method Flush(k: Kernel) returns (r: int)
      requires Valid()
      modifies this, buf
      ensures Valid() && accepted == old(accepted)
      ensures r == EOF <==> old(ptr) > OVRSIZ && !k.works
      ensures r == EOF ==> disk == old(disk) && ptr == old(ptr) && err
      ensures r != EOF ==> r == 0 && err == old(err) && ptr == old(ptr) - WriteCount(k, old(ptr) - OVRSIZ)
      ensures old(disk) <= disk && |disk| - |old(disk)| == old(ptr) - ptr
    {
      var toWrite := ptr - OVRSIZ;
      if toWrite == 0 {
        return 0;
      }
      if !k.works {
        err := true;
        return EOF;
      }
      var written := WriteCount(k, toWrite);
      disk := disk + buf[OVRSIZ..OVRSIZ + written];
      assert buf[OVRSIZ..ptr] == buf[OVRSIZ..OVRSIZ + written] + buf[OVRSIZ + written..ptr];
      FlushPartial(written, toWrite);
      lastOp := 2;
      r := 0;
    }

    /** Unbuffered, full, or at the end of a line. */
    ghost predicate Due()
      requires Valid()
      reads this, buf
    {
      mode.Unbuffered? || ptr == OVRBUF || (mode.LineBuffered? && ptr > OVRSIZ && buf[ptr - 1] == NEWLINE)
    }

    /** __jacl_buffer_output: flush when that is due. */
    method BufferOutput(k: Kernel) returns (r: int)
      requires Valid()
      modifies this, buf
      ensures Valid() && accepted == old(accepted)
      ensures r == EOF <==> old(Due()) && old(ptr) > OVRSIZ && !k.works
      ensures r == EOF || !old(Due()) ==> disk == old(disk) && ptr == old(ptr)
      ensures r == EOF ==> err
      ensures r != EOF ==> r == 0 && err == old(err)
      ensures r != EOF && old(Due()) ==> ptr == old(ptr) - WriteCount(k, old(ptr) - OVRSIZ)
    {
      if mode.Unbuffered? || ptr >= OVRBUF || (mode.LineBuffered? && ptr > OVRSIZ && buf[ptr - 1] == NEWLINE) {
        r := Flush(k);
      } else {
        r := 0;
      }
    }

    /** The cursor behind a flush of a full buffer, or where it was. */
    function Freed(k: Kernel): nat
      reads this
      requires ptr <= OVRBUF
    {
      if ptr == OVRBUF then OVRBUF - WriteCount(k, BUFSIZ) else ptr
    }

    /** fputc has to write before it can take the byte, and the write fails. */
    ghost predicate NoPlace(k: Kernel)
      reads this
    {
      (mode.Unbuffered? || ptr == OVRBUF) && !k.works
    }

    /**
     * fputc on a write-only stream; `k` serves the write of the byte or of a full buffer,
     * `k'` the flush of a line. A newline whose flush fails is reported as EOF and yet accepted.
     */
    method Fputc(c: int, k: Kernel, k': Kernel) returns (r: int)
      requires Valid()
      modifies this, buf
      ensures Valid()
      ensures r == EOF <==> old(NoPlace(k)) || (mode.LineBuffered? && c == NEWLINE && !k'.works)
      ensures r != EOF ==> r == c % 256
      ensures accepted == if old(NoPlace(k)) then old(accepted) else old(accepted) + [(c % 256) as byte]
      ensures err == (old(err) || r == EOF)
      ensures !mode.Unbuffered? && !old(NoPlace(k)) ==>
        ptr == if mode.LineBuffered? && c == NEWLINE && k'.works
               then old(Freed(k)) + 1 - WriteCount(k', old(Freed(k)) + 1 - OVRSIZ)
               else old(Freed(k)) + 1
      ensures !mode.Unbuffered? && old(ptr) < OVRBUF && !(mode.LineBuffered? && c == NEWLINE) ==> disk == old(disk)
      ensures mode.LineBuffered? && c == NEWLINE && r != EOF && k'.chunk >= BUFSIZ ==> disk == accepted
    {
      if mode.Unbuffered? {
        if !k.works {
          err := true;
          return EOF;
        }
        disk := disk + [(c % 256) as byte];
        accepted := accepted + [(c % 256) as byte];
        lastOp := 2;
        return c % 256;
      }
      if ptr >= OVRBUF {
        var f := BufferOutput(k);
        if f == EOF {
          return EOF;
        }
      }
      PutByte((c % 256) as byte);
      if mode.LineBuffered? && c == NEWLINE {
        var f := BufferOutput(k');
        if f == EOF {
          return EOF;
        }
      }
      r := c % 256;
    }

    method PutByte(b: byte)
      requires Valid() && ptr < OVRBUF && !mode.Unbuffered?
      modifies this, buf
      ensures Valid() && accepted == old(accepted) + [b] && err == old(err)
      ensures disk == old(disk) && ptr == old(ptr) + 1 && buf[ptr - 1] == b
    {
      buf[ptr] := b;
      ptr := ptr + 1;
      lastOp := 2;
      accepted := accepted + [b];
      assert buf[OVRSIZ..ptr] == old(buf[OVRSIZ..ptr]) + [b];
    }

    /** The position is the number of accepted bytes; `seekWorks` is false when lseek fails. */
    method Ftell(seekWorks: bool) returns (r: int)
      requires Valid()
      ensures r == if seekWorks then |accepted| else -1
    {
      r := if seekWorks then |disk| + (ptr - OVRSIZ) else -1;
    }

    /** memcpy of a piece of the caller's data behind the cursor. */
    method Append(data: seq<byte>)
      requires Valid() && !mode.Unbuffered? && ptr + |data| <= OVRBUF
      modifies this, buf
      ensures Valid() && accepted == old(accepted) + data && err == old(err) && ptr == old(ptr) + |data|
      ensures disk == old(disk)
    {
      forall i | 0 <= i < |data| {
        buf[ptr + i] := data[i];
      }
      assert buf[OVRSIZ..ptr + |data|] == old(buf[OVRSIZ..ptr]) + data;
      ptr := ptr + |data|;
      accepted := accepted + data;
    }

    /**
     * One turn of fwrite's loop on the bytes left. After a flush the code takes the whole
     * buffer to be free, so a flush the kernel took only in part makes the next memcpy run
     * past the end; `overran` reports that, and nothing is copied then.
     */
    method FwriteTurn(data: seq<byte>, k: Kernel) returns (n: nat, overran: bool)
      requires Valid() && !mode.Unbuffered? && data != []
      modifies this, buf
      ensures Valid() && n <= |data| && accepted == old(accepted) + data[..n]
      ensures overran <==> old(ptr) == OVRBUF && k.works && WriteCount(k, BUFSIZ) < Min(|data|, BUFSIZ)
      ensures n == if overran || old(NoPlace(k)) then 0
                   else Min(|data|, if old(ptr) == OVRBUF then BUFSIZ else OVRBUF - old(ptr))
      ensures ptr == if old(NoPlace(k)) then old(ptr) else old(Freed(k)) + n
      ensures err == (old(err) || old(NoPlace(k)))
      ensures old(ptr) < OVRBUF ==> disk == old(disk)
    {
      n, overran := 0, false;
      var space := OVRBUF - ptr;
      if space == 0 {
        var f := BufferOutput(k);
        if f == EOF {
          return;
        }
        space := BUFSIZ;
      }
      var toCopy := Min(|data|, space);
      if ptr + toCopy > OVRBUF {
        overran := true;
        return;
      }
      Append(data[..toCopy]);
      n := toCopy;
    }

    /** The turn within the loop: it goes on, or it is where fwrite stops. */
    method FwriteNext(data: seq<byte>, at: nat, flushes: nat, kernel: nat -> Kernel, ghost base: seq<byte>, ghost room: nat)
      returns (written: nat, overran: bool)
      requires Valid() && !mode.Unbuffered? && at < |data| && accepted == base + data[..at]
      requires Looping(kernel, room, |data|, at, flushes, OVRBUF - ptr)
      modifies this, buf
      ensures Valid() && at <= written <= |data| && accepted == base + data[..written]
      ensures overran ==> written == at
      ensures old(ptr) > OVRSIZ || written > at ==> ptr > OVRSIZ
      ensures written == at ==>
        && Ends(kernel, room, |data|, written, overran) && Leaves(kernel, room, |data|, written, OVRBUF - ptr)
        && err == (old(err) || Fails(kernel, room, |data|))
      ensures written > at ==>
        && err == old(err)
        && Looping(kernel, room, |data|, written, if old(ptr) == OVRBUF then flushes + 1 else flushes, OVRBUF - ptr)
      ensures old(ptr) < OVRBUF ==> disk == old(disk)
    {
      var k := kernel(flushes);
      if ptr == OVRBUF && (!k.works || WriteCount(k, BUFSIZ) < Min(|data| - at, BUFSIZ)) {
        StopsAt(kernel, room, |data|, flushes);
      } else {
        LoopsOn(kernel, room, |data|, at, flushes, OVRBUF - ptr);
      }
      var n;
      n, overran := FwriteTurn(data[at..], k);
      written := at + n;
      PrefixInTwo(data, at, n);
      Regroup(base + (data[..at] + data[at..][..n]), base, data[..at], data[at..][..n]);
    }

    /** fwrite's loop; `kernel(i)` serves its i-th flush. */
    method FwriteBytes(data: seq<byte>, kernel: nat -> Kernel) returns (written: nat, overran: bool)
      requires Valid() && !mode.Unbuffered?
      modifies this, buf
      ensures Valid() && written <= |data| && accepted == old(accepted) + data[..written]
      ensures Ends(kernel, OVRBUF - old(ptr), |data|, written, overran)
      ensures Leaves(kernel, OVRBUF - old(ptr), |data|, written, OVRBUF - ptr)
      ensures written > 0 ==> ptr > OVRSIZ
      ensures err == (old(err) || Fails(kernel, OVRBUF - old(ptr), |data|))
      ensures |data| <= OVRBUF - old(ptr) ==> disk == old(disk)
    {
      written, overran := 0, false;
      var flushes := 0;
      ghost var base, room := accepted, OVRBUF - ptr;
      while written < |data|
        invariant Valid() && !overran && err == old(err)
        invariant written <= |data| && accepted == base + data[..written]
        invariant Looping(kernel, room, |data|, written, flushes, OVRBUF - ptr)
        invariant flushes == 0 ==> disk == old(disk)
        invariant written > 0 ==> ptr > OVRSIZ
        invariant flushes > 0 ==> room < |data|
        decreases |data| - written
      {
        var full, at := ptr == OVRBUF, written;
        written, overran := FwriteNext(data, at, flushes, kernel, base, room);
        if written == at {
          return;
        }
        flushes := if full then flushes + 1 else flushes;
      }
      AllServed(kernel, room, |data|, flushes);
    }

    /** The flush behind fwrite's data, when the buffer is full or ends in a newline. */
    method EndLine(k: Kernel)
      requires Valid() && mode.LineBuffered? && ptr > OVRSIZ
      modifies this, buf
      ensures Valid() && accepted == old(accepted)
      ensures ptr == if LineOut(accepted, old(ptr)) && k.works then old(ptr) - WriteCount(k, old(ptr) - OVRSIZ) else old(ptr)
      ensures err == (old(err) || (LineOut(accepted, old(ptr)) && !k.works))
    {
      assert accepted[|accepted| - 1] == buf[OVRSIZ..ptr][ptr - OVRSIZ - 1];
      var _ := BufferOutput(k);
    }

    /** The flush behind fwrite's data is due: the line is complete, or the buffer is full. */
    predicate LineDue(taken: seq<byte>, all: seq<byte>, cursor: nat, overran: bool) {
      mode.LineBuffered? && !overran && NEWLINE in taken && LineOut(all, cursor)
    }

    /**
     * The buffered part of fwrite; `kernel` serves the flushes of the loop, `last` the final
     * line flush, and `cursor` is where the data ended.
     */
    method FwriteBuffered(data: seq<byte>, kernel: nat -> Kernel, last: Kernel)
      returns (written: nat, overran: bool, ghost cursor: nat)
      requires Valid() && !mode.Unbuffered?
      modifies this, buf
      ensures Valid() && written <= |data| && accepted == old(accepted) + data[..written]
      ensures Ends(kernel, OVRBUF - old(ptr), |data|, written, overran)
      ensures OVRSIZ <= cursor <= OVRBUF && Leaves(kernel, OVRBUF - old(ptr), |data|, written, OVRBUF - cursor)
      ensures var due := LineDue(data[..written], accepted, cursor, overran);
              && ptr == (if due && last.works then cursor - WriteCount(last, cursor - OVRSIZ) else cursor)
              && err == (old(err) || Fails(kernel, OVRBUF - old(ptr), |data|) || (due && !last.works))
    {
      written, overran := FwriteBytes(data, kernel);
      cursor := ptr;
      if !overran && mode.LineBuffered? && NEWLINE in data[..written] {
        EndLine(last);
      }
    }

    /** The same for data that fits the buffer, which reaches the kernel only with a line. */
    method FwriteKept(data: seq<byte>, kernel: nat -> Kernel, last: Kernel)
      returns (written: nat, overran: bool, ghost cursor: nat)
      requires Valid() && !mode.Unbuffered?
      modifies this, buf
      ensures Valid() && written <= |data| && accepted == old(accepted) + data[..written]
      ensures Ends(kernel, OVRBUF - old(ptr), |data|, written, overran)
      ensures OVRSIZ <= cursor <= OVRBUF && Leaves(kernel, OVRBUF - old(ptr), |data|, written, OVRBUF - cursor)
      ensures var due := LineDue(data[..written], accepted, cursor, overran);
              && ptr == (if due && last.works then cursor - WriteCount(last, cursor - OVRSIZ) else cursor)
              && err == (old(err) || Fails(kernel, OVRBUF - old(ptr), |data|) || (due && !last.works))
      ensures |data| <= OVRBUF - old(ptr) ==> written == |data| && !overran
      ensures |data| <= OVRBUF - old(ptr) && (mode.FullyBuffered? || NEWLINE !in data) ==> disk == old(disk)
      ensures mode.LineBuffered? && |data| < OVRBUF - old(ptr) && !EndsLine(data) ==> disk == old(disk)
    {
      Fits(kernel, OVRBUF - ptr, |data|);
      ghost var was, room := disk, OVRBUF - ptr;
      written, overran, cursor := FwriteBuffered(data, kernel, last);
      if |data| <= room {
        assert data[..written] == data;
        NoLine(old(accepted), data);
        StaysPending(was, old(accepted), data);
      }
    }

    /** write for an unbuffered stream. */
    method FwriteUnbuffered(data: seq<byte>, k: Kernel) returns (written: nat)
      requires Valid() && mode.Unbuffered? && data != []
      modifies this
      ensures Valid() && written <= |data| && accepted == old(accepted) + data[..written]
      ensures written == if k.works then WriteCount(k, |data|) else 0
      ensures err == (old(err) || !k.works)
    {
      if !k.works {
        err := true;
        return 0;
      }
      written := WriteCount(k, |data|);
      disk := disk + data[..written];
      accepted := accepted + data[..written];
    }

    /**
     * fwrite of nmemb items: a prefix of the data is accepted. A buffered stream accepts all
     * of it, or stops at a flush that fails, or overruns; each exactly under its condition.
     */
    method Fwrite(data: seq<byte>, size: nat, nmemb: nat, kernel: nat -> Kernel, last: Kernel)
      returns (items: nat, overran: bool, ghost written: nat, ghost cursor: nat)
      requires Valid() && |data| == Total(size, nmemb)
      modifies this, buf
      ensures Valid() && written <= |data| && accepted == old(accepted) + data[..written]
      ensures items == Items(written, size)
      ensures mode.Unbuffered? ==> !overran && written == if kernel(0).works then WriteCount(kernel(0), |data|) else 0
      ensures mode.Unbuffered? ==> err == (old(err) || (data != [] && !kernel(0).works))
      ensures !mode.Unbuffered? ==>
        && Ends(kernel, OVRBUF - old(ptr), |data|, written, overran)
        && OVRSIZ <= cursor <= OVRBUF && Leaves(kernel, OVRBUF - old(ptr), |data|, written, OVRBUF - cursor)
      ensures var due := LineDue(data[..written], accepted, cursor, overran);
              !mode.Unbuffered? ==>
                && ptr == (if due && last.works then cursor - WriteCount(last, cursor - OVRSIZ) else cursor)
                && err == (old(err) || Fails(kernel, OVRBUF - old(ptr), |data|) || (due && !last.works))
      ensures !mode.Unbuffered? && |data| <= OVRBUF - old(ptr) ==> written == |data| && !overran
      ensures !mode.Unbuffered? && |data| <= OVRBUF - old(ptr) && (mode.FullyBuffered? || NEWLINE !in data) ==> disk == old(disk)
      ensures mode.LineBuffered? && |data| < OVRBUF - old(ptr) && !EndsLine(data) ==> disk == old(disk)
      ensures mode.LineBuffered? && !overran && last.works && last.chunk >= BUFSIZ && EndsLine(data[..written])
        ==> disk == accepted
    {
      if data == [] {
        Fits(kernel, OVRBUF - ptr, 0);
        return 0, false, 0, ptr;
      }
      var w;
      if mode.Unbuffered? {
        w := FwriteUnbuffered(data, kernel(0));
        overran, cursor := false, ptr;
      } else {
        w, overran, cursor := FwriteKept(data, kernel, last);
        LineEnds(old(accepted), data[..w]);
      }
      items, written := Items(w, size), w;
    }

    lemma LineEnds(before: seq<byte>, taken: seq<byte>)
      ensures EndsLine(taken) ==> NEWLINE in taken && EndsLine(before + taken)
    {
    }

    /** What does not end a line does not end one behind what was there. */
    lemma NoLine(before: seq<byte>, data: seq<byte>)
      ensures data != [] && !EndsLine(data) ==> !EndsLine(before + data)
    {
    }

    /** With as much pending as there was and the new data, the kernel has got nothing. */
    lemma StaysPending(was: seq<byte>, before: seq<byte>, data: seq<byte>)
      requires Valid() && accepted == before + data && was <= before
      ensures ptr - OVRSIZ == |before| - |was| + |data| ==> disk == was
    {
      assert disk == accepted[..|accepted| - (ptr - OVRSIZ)];
    }
  }

  /** Data that fits reaches no flush. */
  lemma Fits(kernel: nat -> Kernel, room: nat, len: nat)
    ensures len <= room ==> !Fails(kernel, room, len) && !Overruns(kernel, room, len)
  {
    if len <= room {
      AllServed(kernel, room, len, 0);
    }
  }

  /** Complete writes never overrun, and if they all work fwrite accepts everything. */
  lemma CompleteWrites(kernel: nat -> Kernel, room: nat, len: nat)
    requires forall i: nat :: kernel(i).chunk >= BUFSIZ
    ensures !Overruns(kernel, room, len)
    ensures (forall i: nat :: kernel(i).works) ==> !Fails(kernel, room, len)
  {
    forall m: nat
      ensures !OverrunsAt(kernel, room, len, m)
    {
      assert kernel(m).chunk >= BUFSIZ;
    }
  }

  /** fwrite with complete writes that work: all items, all bytes, no error. */
  method FwriteSucceeds(f: OutStream, data: seq<byte>, size: nat, nmemb: nat, kernel: nat -> Kernel, last: Kernel)
    returns (items: nat)
    requires f.Valid() && |data| == Total(size, nmemb) && last.works
    requires forall i: nat :: kernel(i).works && kernel(i).chunk >= BUFSIZ && kernel(i).chunk >= |data|
    modifies f, f.buf
    ensures f.Valid() && f.accepted == old(f.accepted) + data && f.err == old(f.err)
    ensures items == if size == 0 then 0 else nmemb
  {
    assert kernel(0).chunk >= |data|;
    CompleteWrites(kernel, OVRBUF - f.ptr, |data|);
    var overran: bool;
    ghost var written: nat;
    ghost var cursor: nat;
    items, overran, written, cursor := f.Fwrite(data, size, nmemb, kernel, last);
    assert data[..|data|] == data;
    AllItems(size, nmemb);
  }

  lemma AllItems(size: nat, nmemb: nat)
    ensures Items(Total(size, nmemb), size) == if size == 0 then 0 else nmemb
  {
    if size > 0 {
      DivUnique(Total(size, nmemb), nmemb, 0, size);
    }
  }

  /** One fwrite of two buffers' worth of data, and a kernel that takes one byte a write, overrun the buffer. */
  method OverrunWitness() returns (overran: bool)
    ensures overran
  {
    var f := new OutStream(FullyBuffered);
    var data := seq(2 * BUFSIZ, _ => 0 as byte);
    var kernel := (i: nat) => Kernel(true, 1);
    assert OverrunsAt(kernel, BUFSIZ, |data|, 0);
    var items: nat;
    ghost var written: nat;
    ghost var cursor: nat;
    items, overran, written, cursor := f.Fwrite(data, 1, |data|, kernel, Kernel(true, 1));
  }
}
