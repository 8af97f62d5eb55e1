/**
 * A read-only stdio stream with its default internal buffer: fgetc, fread, ungetc, fseek
 * and ftell, proved to behave like a plain file with a stack of pushed-back bytes. The
 * kernel may deliver any short read and may fail any call.
 */
module ReadStream {

  import opened Octets
  import opened StdioBuffer

  datatype Whence = SeekSet | SeekCur | SeekEnd | BadWhence

  /**
   * What the kernel does during one refill: whether the descriptor is a FIFO, whether
   * lseek and read succeed, and how many bytes read would like to deliver.
   */
  datatype Kernel = Kernel(fifo: bool, seekWorks: bool, readWorks: bool, chunk: nat)

  /** The result of read(fd, buf, BUFSIZ): at least one byte unless the file is at its end. */
  function ReadCount(k: Kernel, available: nat): (n: nat)
    ensures n <= available && n <= BUFSIZ && (n == 0 <==> available == 0)
  {
    if available == 0 then 0
    else if k.chunk == 0 then 1
    else if k.chunk <= available && k.chunk <= BUFSIZ then k.chunk
    else if available <= BUFSIZ then available
    else BUFSIZ
  }

  /** A refill fails: read fails, or lseek on something that is not a FIFO. */
  predicate Fails(k: Kernel) { !k.readWorks || (!k.fifo && !k.seekWorks) }

  /** No refill fails. */
  ghost predicate Dependable(kernel: nat -> Kernel) { forall i: nat :: !Fails(kernel(i)) }

  // ---------------------------------------------------------------- the plain stream

  /** A file position and the pushed-back bytes in front of it, next one first. */
  datatype Plain = Plain(pushed: seq<byte>, pos: nat)

  function FromPos(file: seq<byte>, pos: nat): seq<byte> {
    if pos <= |file| then file[pos..] else []
  }

  /** The bytes still to be delivered. */
  function Bytes(file: seq<byte>, p: Plain): seq<byte> { p.pushed + FromPos(file, p.pos) }

  /** The logical position: pushed-back bytes count backwards. */
  function Tell(p: Plain): int { p.pos - |p.pushed| }

  function Take(p: Plain, k: nat): Plain {
    if k <= |p.pushed| then p.(pushed := p.pushed[k..]) else Plain([], p.pos + k - |p.pushed|)
  }

  function Unget(p: Plain, b: byte): Plain { p.(pushed := [b] + p.pushed) }

  lemma TakeDelivers(file: seq<byte>, p: Plain, k: nat)
    requires k <= |Bytes(file, p)|
    ensures Bytes(file, Take(p, k)) == Bytes(file, p)[k..]
    ensures Tell(Take(p, k)) == Tell(p) + k
  {
  }

  lemma TakeTake(p: Plain, j: nat, k: nat)
    ensures Take(Take(p, j), k) == Take(p, j + k)
  {
  }

  lemma UngetGet(file: seq<byte>, p: Plain, b: byte)
    ensures Bytes(file, Unget(p, b)) == [b] + Bytes(file, p)
    ensures Take(Unget(p, b), 1) == p
    ensures Tell(Unget(p, b)) == Tell(p) - 1
  {
    assert Unget(p, b).pushed[1..] == p.pushed;
  }

  /** Seeking to where ftell says changes nothing exactly when the pushed-back bytes, if any, are the file's own. */
  lemma TellSeekRoundTrip(file: seq<byte>, p: Plain)
    requires Tell(p) >= 0
    ensures Bytes(file, Plain([], Tell(p))) == Bytes(file, p)
      <==> p.pushed == [] || (p.pos <= |file| && p.pushed == file[Tell(p)..p.pos])
  {
    if p.pos <= |file| {
      TellWithinFile(file, p);
    }
  }

  lemma TellWithinFile(file: seq<byte>, p: Plain)
    requires 0 <= Tell(p) <= p.pos <= |file|
    ensures Bytes(file, Plain([], Tell(p))) == Bytes(file, p) <==> p.pushed == file[Tell(p)..p.pos]
  {
    var back := file[Tell(p)..p.pos];
    assert file[Tell(p)..] == back + file[p.pos..];
    if Bytes(file, Plain([], Tell(p))) == Bytes(file, p) {
      assert p.pushed == Bytes(file, p)[..|p.pushed|];
      assert back == (back + file[p.pos..])[..|p.pushed|];
    }
  }

  function Sum(ks: seq<nat>): nat { if ks == [] then 0 else ks[0] + Sum(ks[1..]) }

  /** What successive reads of the given sizes deliver. */
  function ReadAll(file: seq<byte>, p: Plain, ks: seq<nat>): seq<byte>
    decreases |ks|
  {
    if ks == [] then []
    else
      var n := Min(ks[0], |Bytes(file, p)|);
      Bytes(file, p)[..n] + ReadAll(file, Take(p, n), ks[1..])
  }

  /** Only the total matters: however the reads are cut up, the caller sees the same bytes in order. */
  lemma {:induction false} ChunkingIsInvisible(file: seq<byte>, p: Plain, ks: seq<nat>)
    ensures ReadAll(file, p, ks) == Bytes(file, p)[..Min(Sum(ks), |Bytes(file, p)|)]
    decreases |ks|
  {
    if ks != [] {
      var all := Bytes(file, p);
      var n := Min(ks[0], |all|);
      TakeDelivers(file, p, n);
      ChunkingIsInvisible(file, Take(p, n), ks[1..]);
      var rest := Min(Sum(ks[1..]), |all| - n);
      PrefixInTwo(all, n, rest);
      assert n + rest == Min(Sum(ks), |all|);
    }
  }

  lemma SliceInTwo(s: seq<byte>, a: nat, n: nat, k: nat)
    requires a + n <= |s| && k <= n
    ensures s[a..a + n][..k] == s[a..a + k] && s[a..a + n][k..] == s[a + k..a + n]
  {
  }

  /** d holds the first a bytes of `all` in front of what was there. */
  predicate Copied(all: seq<byte>, rest: seq<byte>, d: seq<byte>, a: nat) {
    a <= |all| && a <= |d| == |rest| && d[..a] == all[..a] && d[a..] == rest[a..]
  }

  /** Extended by the bytes that follow them. */
  lemma CopiedOn(all: seq<byte>, rest: seq<byte>, d: seq<byte>, d': seq<byte>, a: nat, b: nat)
    requires Copied(all, rest, d, a) && a <= b <= |all| && b <= |d'| == |d|
    requires d'[..a] == d[..a] && d'[a..b] == all[a..][..b - a] && d'[b..] == d[b..]
    ensures Copied(all, rest, d', b)
  {
    assert d'[..b] == d'[..a] + d'[a..b];
    PrefixInTwo(all, a, b - a);
    assert d[b..] == d[a..][b - a..] && rest[b..] == rest[a..][b - a..];
  }

  // ---------------------------------------------------------------- the buffered stream

  /** The kernel's offset can be ahead of the plain position, within the file. */
  predicate Ahead(file: seq<byte>, p: Plain, offset: nat) {
    p.pos <= offset && (offset <= |file| || p.pos == offset)
  }

  /** What the buffer must hold: the pushed-back bytes and the bytes the kernel delivered ahead. */
  function Window(file: seq<byte>, p: Plain, offset: nat): (w: seq<byte>)
    requires Ahead(file, p, offset)
    ensures |w| == |p.pushed| + offset - p.pos
  {
    p.pushed + if p.pos == offset then [] else file[p.pos..offset]
  }

  lemma TakeWindow(file: seq<byte>, p: Plain, offset: nat, k: nat)
    requires Ahead(file, p, offset) && k <= |Window(file, p, offset)|
    ensures Ahead(file, Take(p, k), offset)
    ensures Window(file, Take(p, k), offset) == Window(file, p, offset)[k..]
    ensures k <= |Bytes(file, p)| && Window(file, p, offset)[..k] == Bytes(file, p)[..k]
  {
    assert Window(file, p, offset) <= Bytes(file, p);
  }

  lemma UngetWindow(file: seq<byte>, p: Plain, offset: nat, b: byte)
    requires Ahead(file, p, offset)
    ensures Ahead(file, Unget(p, b), offset)
    ensures Window(file, Unget(p, b), offset) == [b] + Window(file, p, offset)
  {
  }

  /** After a refill the first of n bytes is delivered and the others wait in the buffer. */
  lemma Refilled(file: seq<byte>, offset: nat, n: nat)
    requires 0 < n && offset + n <= |file|
    ensures var p := Plain([], offset);
            && Bytes(file, p) != [] && Bytes(file, p)[0] == file[offset]
            && Take(p, 1) == Plain([], offset + 1)
            && Ahead(file, Take(p, 1), offset + n)
            && Window(file, Take(p, 1), offset + n) == file[offset + 1..offset + n]
  {
  }

  method Memcpy(dst: array<byte>, at: nat, src: array<byte>, from: nat, n: nat)
    requires dst != src && at + n <= dst.Length && from + n <= src.Length
    modifies dst
    ensures dst[at..at + n] == src[from..from + n]
    ensures dst[..at] == old(dst[..at]) && dst[at + n..] == old(dst[at + n..])
  {
    forall i | 0 <= i < n {
      dst[at + i] := src[from + i];
    }
  }

  class InStream {
    const file: seq<byte>
    var offset: nat              // the kernel's file offset
    const buf: array<byte>       // _base: pushback zone, then data
    var ptr: nat                 // _ptr - _base
    var cnt: nat                 // _cnt
    var eof: bool
    var err: bool
    var lastOp: nat              // 0 none, 1 read
    var readPos: int             // _read_pos
    ghost var plain: Plain

    ghost predicate Valid()
      reads this, buf
    {
      && buf.Length == OVRBUF
      && ptr + cnt <= OVRBUF
      && OVRSIZ <= ptr + |plain.pushed|
      && Ahead(file, plain, offset)
      && cnt == |Window(file, plain, offset)|
      && buf[ptr..ptr + cnt] == Window(file, plain, offset)
    }

    constructor (file: seq<byte>)
      ensures Valid() && this.file == file && plain == Plain([], 0) && !eof && !err && fresh(buf)
    {
      this.file := file;
      offset, ptr, cnt, eof, err, lastOp, readPos := 0, OVRSIZ, 0, false, false, 0, 0;
      buf := new byte[OVRBUF];
      plain := Plain([], 0);
    }

    /** The kernel's part of read: n bytes of the file, from its offset on, behind the pushback zone. */
    method Deliver(n: nat)
      requires buf.Length == OVRBUF && 0 < n <= BUFSIZ && offset + n <= |file|
      modifies this`offset, buf
      ensures offset == old(offset) + n
      ensures buf[OVRSIZ] == file[old(offset)]
      ensures buf[OVRSIZ + 1..OVRSIZ + n] == file[old(offset) + 1..offset]
    {
      forall i | 0 <= i < n {
        buf[OVRSIZ + i] := file[offset + i];
      }
      offset := offset + n;
    }

    /** A read that delivered something: the first byte goes to the caller, the others stay buffered. */
    method Refill(n: nat, curPos: int) returns (c: int)
      requires Valid() && plain == Plain([], offset) && 0 < n <= BUFSIZ && offset + n <= |file|
      modifies this, buf
      ensures Valid() && Delivered(old(plain), plain, c) && c != EOF
      ensures eof == old(eof) && err == old(err)
    {
      ghost var all := file[offset + 1..offset + n];
      Refilled(file, offset, n);
      Deliver(n);
      readPos, cnt, lastOp := curPos, n - 1, 1;
      c := buf[OVRSIZ];
      ptr := OVRSIZ + 1;
      plain := Take(plain, 1);
      assert buf[ptr..ptr + cnt] == all;
    }

    /** __jacl_buffer_reload, called with an empty buffer. */
    method Reload(k: Kernel) returns (c: int)
      requires Valid() && cnt == 0
      modifies this, buf
      ensures Valid()
      ensures Delivered(old(plain), plain, c)
      ensures c == EOF <==> Fails(k) || old(Bytes(file, plain)) == []
      ensures err == (old(err) || Fails(k))
      ensures eof == (old(eof) || (!Fails(k) && old(Bytes(file, plain)) == []))
    {
      assert plain == Plain([], offset);
      var curPos := 0;
      if !k.fifo {
        if !k.seekWorks {
          err := true;
          return EOF;
        }
        curPos := offset;
      }
      cnt, ptr := 0, OVRSIZ;
      if !k.readWorks {
        err := true;
        return EOF;
      }
      var n := ReadCount(k, if offset <= |file| then |file| - offset else 0);
      if n == 0 {
        eof := true;
        return EOF;
      }
      c := Refill(n, curPos);
    }

    /** Move the cursor over k buffered bytes. */
    method Advance(k: nat)
      requires Valid() && k <= cnt
      modifies this`ptr, this`cnt, this`plain
      ensures Valid() && plain == Take(old(plain), k) && cnt == old(cnt) - k
    {
      TakeWindow(file, plain, offset, k);
      SliceInTwo(buf[..], ptr, cnt, k);
      ptr, cnt := ptr + k, cnt - k;
      plain := Take(plain, k);
    }

    /** What the next k buffered bytes are. */
    lemma Buffered(k: nat)
      requires Valid() && k <= cnt
      ensures k <= |Bytes(file, plain)| && buf[ptr..ptr + k] == Bytes(file, plain)[..k]
    {
      TakeWindow(file, plain, offset, k);
      SliceInTwo(buf[..], ptr, cnt, k);
    }

    /** memcpy out of the buffer and advance the cursor. */
    method CopyOut(dest: array<byte>, at: nat, k: nat) returns (next: nat)
      requires Valid() && dest != buf && at + k <= dest.Length && k <= cnt
      modifies this`ptr, this`cnt, this`plain, dest
      ensures Valid() && next == at + k
      ensures k <= |old(Bytes(file, plain))| && plain == Take(old(plain), k)
      ensures dest[at..next] == old(Bytes(file, plain))[..k]
      ensures dest[..at] == old(dest[..at]) && dest[next..] == old(dest[next..])
    {
      Buffered(k);
      Memcpy(dest, at, buf, ptr, k);
      next := at + k;
      Advance(k);
    }

    /** One turn of fread's loop: a memcpy out of the buffer, or one byte through a refill. */
    method FreadTurn(dest: array<byte>, at: nat, total: nat, k: Kernel) returns (next: nat)
      requires Valid() && dest != buf && at < total <= dest.Length
      modifies this, buf, dest
      ensures Valid() && at <= next <= total
      ensures next - at <= |old(Bytes(file, plain))| && plain == Take(old(plain), next - at)
      ensures dest[at..next] == old(Bytes(file, plain))[..next - at]
      ensures dest[..at] == old(dest[..at]) && dest[next..] == old(dest[..])[next..]
      ensures next == at <==> old(cnt) == 0 && (Fails(k) || old(Bytes(file, plain)) == [])
      ensures err == (old(err) || (old(cnt) == 0 && Fails(k)))
      ensures eof == (old(eof) || (old(cnt) == 0 && !Fails(k) && old(Bytes(file, plain)) == []))
    {
      if cnt > 0 {
        next := CopyOut(dest, at, if cnt < total - at then cnt else total - at);
      } else {
        var c := Fgetc(k);
        if c == EOF {
          next := at;
        } else {
          dest[at] := c as byte;
          next := at + 1;
        }
      }
    }

    /** The turn with what it adds to the copy of the stream p, of which `at` bytes are there. */
    method FreadNext(dest: array<byte>, at: nat, total: nat, k: Kernel, ghost p: Plain, ghost rest: seq<byte>)
      returns (next: nat)
      requires Valid() && dest != buf && at < total <= dest.Length
      requires plain == Take(p, at) && Copied(Bytes(file, p), rest, dest[..], at)
      modifies this, buf, dest
      ensures Valid() && at <= next <= total
      ensures plain == Take(p, next) && Copied(Bytes(file, p), rest, dest[..], next)
      ensures next == at ==> Fails(k) || at == |Bytes(file, p)|
      ensures Fails(k) && next == at ==> err
      ensures !Fails(k) ==> err == old(err)
      ensures !Fails(k) ==> eof == (old(eof) || next == at)
    {
      TakeDelivers(file, p, at);
      ghost var d := dest[..];
      next := FreadTurn(dest, at, total, k);
      TakeTake(p, at, next - at);
      CopiedOn(Bytes(file, p), rest, d, dest[..], at, next);
    }

    method FreadBytes(dest: array<byte>, total: nat, kernel: nat -> Kernel) returns (copied: nat)
      requires Valid() && dest != buf && dest.Length >= total
      modifies this, buf, dest
      ensures Valid()
      ensures copied <= total && copied <= |old(Bytes(file, plain))|
      ensures dest[..copied] == old(Bytes(file, plain))[..copied]
      ensures dest[copied..] == old(dest[..])[copied..]
      ensures plain == Take(old(plain), copied)
      ensures copied < Min(total, |old(Bytes(file, plain))|) ==> err
      ensures Dependable(kernel) ==> copied == Min(total, |old(Bytes(file, plain))|) && err == old(err)
      ensures Dependable(kernel) ==> eof == (old(eof) || |old(Bytes(file, plain))| < total)
    {
      copied := 0;
      var calls := 0;
      ghost var p, rest := plain, dest[..];
      while copied < total
        invariant Valid() && copied <= total && plain == Take(p, copied)
        invariant Copied(Bytes(file, p), rest, dest[..], copied)
        invariant Dependable(kernel) ==> err == old(err) && eof == old(eof)
        decreases total - copied
      {
        var next := FreadNext(dest, copied, total, kernel(calls), p, rest);
        if next == copied {
          return;
        }
        copied, calls := next, calls + 1;
      }
    }

    /** fread returns the number of whole items; the bytes of a last partial item are consumed too. */
    method Fread(dest: array<byte>, size: nat, nmemb: nat, kernel: nat -> Kernel)
      returns (items: nat, ghost copied: nat)
      requires Valid() && dest != buf && dest.Length >= Total(size, nmemb)
      modifies this, buf, dest
      ensures Valid()
      ensures copied <= Total(size, nmemb) && copied <= |old(Bytes(file, plain))|
      ensures dest[..copied] == old(Bytes(file, plain))[..copied]
      ensures dest[copied..] == old(dest[..])[copied..]
      ensures plain == Take(old(plain), copied)
      ensures items == if size == 0 then 0 else copied / size
      ensures copied < Min(Total(size, nmemb), |old(Bytes(file, plain))|) ==> err
      ensures Dependable(kernel) ==>
        copied == Min(Total(size, nmemb), |old(Bytes(file, plain))|) && err == old(err)
      ensures Dependable(kernel) ==> eof == (old(eof) || |old(Bytes(file, plain))| < Total(size, nmemb))
    {
      var n := FreadBytes(dest, Total(size, nmemb), kernel);   // nothing happens when the total is 0
      items, copied := if size == 0 then 0 else n / size, n;
    }

    /** The outcome of reading one byte: EOF and no change, or the next byte of the plain stream. */
    ghost predicate Delivered(p: Plain, p': Plain, c: int) {
      if c == EOF then p' == p
      else Bytes(file, p) != [] && c == Bytes(file, p)[0] && p' == Take(p, 1)
    }

    /** A byte out of a buffer that holds one. */
    method TakeByte() returns (c: int)
      requires Valid() && cnt > 0
      modifies this
      ensures Valid() && Delivered(old(plain), plain, c) && c != EOF
      ensures err == old(err) && eof == old(eof) && offset == old(offset)
    {
      Buffered(1);
      c := buf[ptr];
      assert c == buf[ptr..ptr + 1][0];
      Advance(1);
    }

    /** fgetc on a read-only stream, which is __jacl_buffer_input. */
    method Fgetc(k: Kernel) returns (c: int)
      requires Valid()
      modifies this, buf
      ensures Valid()
      ensures Delivered(old(plain), plain, c)
      ensures c == EOF <==> old(cnt) == 0 && (Fails(k) || old(Bytes(file, plain)) == [])
      ensures err == (old(err) || (old(cnt) == 0 && Fails(k)))
      ensures eof == (old(eof) || (old(cnt) == 0 && !Fails(k) && old(Bytes(file, plain)) == []))
      ensures old(cnt) > 0 ==> offset == old(offset)
    {
      if cnt > 0 {
        c := TakeByte();
      } else {
        c := Reload(k);
      }
    }

    method Ungetc(c: int) returns (r: int)
      requires Valid()
      modifies this, buf
      ensures Valid()
      ensures r == EOF <==> c == EOF || old(ptr) == 0
      ensures r == EOF ==> plain == old(plain) && eof == old(eof)
      ensures r != EOF ==> r == c % 256 && plain == Unget(old(plain), r) && !eof
      ensures c != EOF && |old(plain).pushed| < OVRSIZ ==> r != EOF
      ensures err == old(err)
    {
      if c == EOF || ptr == 0 {
        return EOF;
      }
      ptr := ptr - 1;
      buf[ptr] := c % 256;
      cnt := cnt + 1;
      eof := false;
      r := c % 256;
      UngetWindow(file, plain, offset, r);
      plain := Unget(plain, r);
      assert buf[ptr..ptr + cnt] == [buf[ptr]] + buf[ptr + 1..ptr + cnt];
    }

    /** Where the plain stream would be after a seek. */
    ghost function Target(p: Plain, off: int, whence: Whence): int {
      match whence
      case SeekSet => off
      case SeekCur => Tell(p) + off
      case _ => |file| + off
    }

    /** fseek on a read-only stream; `seekWorks` is false when the descriptor cannot seek. */
    method Fseek(off: int, whence: Whence, seekWorks: bool) returns (r: int)
      requires Valid()
      modifies this
      ensures Valid()
      ensures r == 0 || r == -1
      ensures r == 0 <==> !whence.BadWhence? && seekWorks && Target(old(plain), off, whence) >= 0
      ensures r == 0 ==> plain == Plain([], Target(old(plain), off, whence)) && !eof
      ensures r == -1 ==> plain == old(plain) && eof == old(eof)
      ensures err == old(err)
    {
      if whence.BadWhence? {
        return -1;
      }
      var delta := if whence.SeekCur? && cnt > 0 then off - cnt else off;
      var target := match whence
        case SeekSet => delta
        case SeekCur => offset + delta
        case _ => |file| + delta;
      if !seekWorks || target < 0 {
        return -1;
      }
      offset, cnt, ptr, eof, readPos, lastOp := target, 0, OVRSIZ, false, target, 0;
      plain := Plain([], target);
      r := 0;
    }

    method Ftell(seekWorks: bool) returns (r: int)
      requires Valid()
      ensures r == if seekWorks then Tell(plain) else -1
    {
      r := if seekWorks then offset - cnt else -1;
    }
  }

  /** One fread of k bytes into a fresh array. */
  method FreadChunk(f: InStream, k: nat, kernel: nat -> Kernel) returns (piece: seq<byte>)
    requires f.Valid() && Dependable(kernel)
    modifies f, f.buf
    ensures f.Valid()
    ensures piece == old(Bytes(f.file, f.plain))[..Min(k, |old(Bytes(f.file, f.plain))|)]
    ensures f.plain == Take(old(f.plain), |piece|)
  {
    var dest := new byte[k];
    var items, n := f.Fread(dest, 1, k, kernel);
    assert items == n;
    piece := dest[..items];
  }

  /**
   * Successive freads of the given sizes, `kernel(i)` serving the i-th: what they deliver
   * together is ReadAll, hence one prefix of the stream however it is cut up.
   */
  method FreadInChunks(f: InStream, ks: seq<nat>, kernel: nat -> nat -> Kernel) returns (got: seq<byte>)
    requires f.Valid() && forall i: nat :: Dependable(kernel(i))
    modifies f, f.buf
    ensures f.Valid()
    ensures got == ReadAll(f.file, old(f.plain), ks)
    ensures got == old(Bytes(f.file, f.plain))[..Min(Sum(ks), |old(Bytes(f.file, f.plain))|)]
  {
    ghost var p := f.plain;
    got := [];
    for i := 0 to |ks|
      invariant f.Valid()
      invariant ReadAll(f.file, p, ks) == got + ReadAll(f.file, f.plain, ks[i..])
    {
      ghost var q := f.plain;
      var piece := FreadChunk(f, ks[i], kernel(i));
      AfterChunk(f.file, q, ks, i, ReadAll(f.file, p, ks), got, piece);
      got := got + piece;
    }
    ChunkingIsInvisible(f.file, p, ks);
  }

  lemma AfterChunk(file: seq<byte>, q: Plain, ks: seq<nat>, i: nat, all: seq<byte>, got: seq<byte>, piece: seq<byte>)
    requires i < |ks| && all == got + ReadAll(file, q, ks[i..])
    requires piece == Bytes(file, q)[..Min(ks[i], |Bytes(file, q)|)]
    ensures all == got + piece + ReadAll(file, Take(q, |piece|), ks[i + 1..])
  {
    NextChunk(file, q, ks[i..]);
    assert ks[i..][1..] == ks[i + 1..];
    Regroup(all, got, piece, ReadAll(file, Take(q, |piece|), ks[i + 1..]));
  }

  lemma NextChunk(file: seq<byte>, p: Plain, ks: seq<nat>)
    requires ks != []
    ensures var n := Min(ks[0], |Bytes(file, p)|);
            ReadAll(file, p, ks) == Bytes(file, p)[..n] + ReadAll(file, Take(p, n), ks[1..])
  {
  }
}
