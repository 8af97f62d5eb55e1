/**
 * mbrtowc, wcrtomb, mbrlen, mbsrtowcs and wcsrtombs: UTF-8 as in section 3 of RFC 3629.
 * Bytes and wide characters are bit vectors; wchar_t is a signed 32-bit integer, so a
 * wide character with its top bit set is negative.
 */
module Utf8 {

  type Bytes = seq<bv8>

  const MB_CUR_MAX: nat := 4

  /** s[i], with the terminating zero and whatever follows read as 0. */
  function At(s: Bytes, i: nat): bv8 { if i < |s| then s[i] else 0 }

  predicate Surrogate(wc: bv32) { 0xD800 <= wc <= 0xDFFF }

  /** A Unicode scalar value. */
  predicate Scalar(wc: bv32) { wc <= 0x10FFFF && !Surrogate(wc) }

  // ---------------------------------------------------------------- one character

  /** The results (size_t)-2, (size_t)-1 and a byte count with the character. */
  datatype Decoded = Incomplete | Illegal | Done(len: nat, wc: bv32)

  datatype Encoded = Rejected | Coded(bytes: Bytes)

  predicate Tail(b: bv8) { b & 0xC0 == 0x80 }

  function Low6(b: bv8): bv32 { (b & 0x3F) as bv32 }

  function Join2(c: bv8, d: bv8): bv32 { ((c & 0x1F) as bv32 << 6) | Low6(d) }

  function Join3(c: bv8, d: bv8, e: bv8): bv32 { ((c & 0x0F) as bv32 << 12) | (Low6(d) << 6) | Low6(e) }

  function Join4(c: bv8, d: bv8, e: bv8, f: bv8): bv32 {
    ((c & 0x07) as bv32 << 18) | (Low6(d) << 12) | (Low6(e) << 6) | Low6(f)
  }

  /** mbrtowc with a non-null destination on s, of which n bytes may be read. */
  function Mbrtowc(s: Bytes, n: nat): Decoded {
    var c := At(s, 0);
    if n == 0 then Incomplete
    else if c < 0x80 then Done(if c != 0 then 1 else 0, c as bv32)
    else if c & 0xE0 == 0xC0 then
      if n < 2 then Incomplete
      else if !Tail(At(s, 1)) then Illegal
      else
        var wc := Join2(c, At(s, 1));
        if wc < 0x80 then Illegal else Done(2, wc)
    else if c & 0xF0 == 0xE0 then
      if n < 3 then Incomplete
      else if !Tail(At(s, 1)) || !Tail(At(s, 2)) then Illegal
      else
        var wc := Join3(c, At(s, 1), At(s, 2));
        if wc < 0x800 || (wc >= 0xD800 && wc <= 0xDFFF) then Illegal else Done(3, wc)
    else if c & 0xF8 == 0xF0 then
      if n < 4 then Incomplete
      else if !Tail(At(s, 1)) || !Tail(At(s, 2)) || !Tail(At(s, 3)) then Illegal
      else
        var wc := Join4(c, At(s, 1), At(s, 2), At(s, 3));
        if wc < 0x10000 || wc > 0x10FFFF then Illegal else Done(4, wc)
    else Illegal
  }

  function Byte(x: bv32): bv8 { (x & 0xFF) as bv8 }

  /** A continuation byte with the low six bits of x. */
  function Part(x: bv32): bv8 { Byte(0x80 | (x & 0x3F)) }

  /** wcrtomb with a non-null destination. */
  function Wcrtomb(wc: bv32): Encoded {
    if (wc > 0x10FFFF && wc < 0x8000_0000) || (wc >= 0xD800 && wc <= 0xDFFF) then Rejected
    else if wc < 0x80 || wc >= 0x8000_0000 then Coded([Byte(wc)])
    else if wc < 0x800 then Coded([Byte(0xC0 | (wc >> 6)), Part(wc)])
    else if wc < 0x10000 then Coded([Byte(0xE0 | (wc >> 12)), Part(wc >> 6), Part(wc)])
    else Coded([Byte(0xF0 | (wc >> 18)), Part(wc >> 12), Part(wc >> 6), Part(wc)])
  }

  /** mbrlen. */
  function Mbrlen(s: Bytes, n: nat): Decoded {
    var c := At(s, 0);
    if n == 0 then Incomplete
    else if c < 0x80 then Done(if c != 0 then 1 else 0, 0)
    else if c & 0xE0 == 0xC0 then
      if n < 2 then Incomplete
      else if !Tail(At(s, 1)) then Illegal
      else if c & 0x1E == 0 then Illegal
      else Done(2, 0)
    else if c & 0xF0 == 0xE0 then
      if n < 3 then Incomplete
      else if !Tail(At(s, 1)) || !Tail(At(s, 2)) then Illegal
      else if c == 0xE0 && At(s, 1) & 0x20 == 0 then Illegal
      else if c == 0xED && At(s, 1) & 0x20 != 0 then Illegal
      else Done(3, 0)
    else if c & 0xF8 == 0xF0 then
      if n < 4 then Incomplete
      else if !Tail(At(s, 1)) || !Tail(At(s, 2)) || !Tail(At(s, 3)) then Illegal
      else if c == 0xF0 && At(s, 1) & 0x30 == 0 then Illegal
      else if c > 0xF4 || (c == 0xF4 && At(s, 1) & 0x30 != 0) then Illegal
      else Done(4, 0)
    else Illegal
  }

  function LengthOnly(d: Decoded): Decoded { if d.Done? then d.(wc := 0) else d }

  /** mbrlen and mbrtowc agree on every input, although they test different bits. */
  lemma MbrlenAgrees(s: Bytes, n: nat)
    ensures Mbrlen(s, n) == LengthOnly(Mbrtowc(s, n))
  {
  }

  /** The scalars, and the negative wide characters, of which the lowest byte is written. */
  predicate Accepted(wc: bv32) { Scalar(wc) || wc >= 0x8000_0000 }

  /** wcrtomb accepts the scalars, and the negative wide characters it mistakes for ASCII. */
  lemma WcrtombAccepts(wc: bv32)
    ensures Wcrtomb(wc).Coded? <==> Accepted(wc)
    ensures wc >= 0x8000_0000 ==> Wcrtomb(wc) == Coded([Byte(wc)])
  {
  }

  // ---------------------------------------------------------------- bits

  lemma Split2(wc: bv32)
    requires 0x80 <= wc < 0x800
    ensures var c := Byte(0xC0 | (wc >> 6)); c >= 0x80 && c & 0xE0 == 0xC0 && Join2(c, Part(wc)) == wc
    ensures Tail(Part(wc))
  {
  }

  lemma Split3(wc: bv32)
    requires 0x800 <= wc < 0x10000
    ensures var c := Byte(0xE0 | (wc >> 12));
            c >= 0x80 && c & 0xE0 != 0xC0 && c & 0xF0 == 0xE0 && Join3(c, Part(wc >> 6), Part(wc)) == wc
    ensures Tail(Part(wc)) && Tail(Part(wc >> 6))
  {
  }

  lemma Split4(wc: bv32)
    requires 0x10000 <= wc <= 0x10FFFF
    ensures var c := Byte(0xF0 | (wc >> 18));
            && c >= 0x80 && c & 0xE0 != 0xC0 && c & 0xF0 != 0xE0 && c & 0xF8 == 0xF0
            && Join4(c, Part(wc >> 12), Part(wc >> 6), Part(wc)) == wc
    ensures Tail(Part(wc)) && Tail(Part(wc >> 6)) && Tail(Part(wc >> 12))
  {
  }

  lemma Unsplit2(wc: bv32, c: bv8, d: bv8)
    requires c & 0xE0 == 0xC0 && Tail(d) && wc == Join2(c, d)
    ensures wc < 0x800 && Byte(0xC0 | (wc >> 6)) == c && Part(wc) == d
  {
  }

  lemma Unsplit3(wc: bv32, c: bv8, d: bv8, e: bv8)
    requires c & 0xF0 == 0xE0 && Tail(d) && Tail(e) && wc == Join3(c, d, e)
    ensures wc < 0x10000 && Byte(0xE0 | (wc >> 12)) == c && Part(wc >> 6) == d && Part(wc) == e
  {
  }

  lemma Unsplit4(wc: bv32, c: bv8, d: bv8, e: bv8, f: bv8)
    requires c & 0xF8 == 0xF0 && Tail(d) && Tail(e) && Tail(f) && wc == Join4(c, d, e, f)
    ensures Byte(0xF0 | (wc >> 18)) == c && Part(wc >> 12) == d && Part(wc >> 6) == e && Part(wc) == f
  {
  }

  lemma AsciiByte(c: bv8)
    requires c < 0x80
    ensures Byte(c as bv32) == c && c as bv32 < 0x80 && (c as bv32 == 0 <==> c == 0)
  {
  }

  lemma AsciiBack(wc: bv32)
    requires wc < 0x80
    ensures Byte(wc) < 0x80 && Byte(wc) as bv32 == wc && (Byte(wc) == 0 <==> wc == 0)
  {
  }

  // ---------------------------------------------------------------- decoding and encoding invert each other

  /** Encoding then decoding, whatever follows. */
  lemma DecodeEncoded(wc: bv32, s: Bytes, n: nat)
    requires Scalar(wc)
    requires |Wcrtomb(wc).bytes| <= n && Wcrtomb(wc).bytes <= s
    ensures Mbrtowc(s, n) == Done(if wc == 0 then 0 else |Wcrtomb(wc).bytes|, wc)
  {
    var b := Wcrtomb(wc).bytes;
    assert forall i: nat :: i < |b| ==> At(s, i) == b[i];
    if wc < 0x80 {
      AsciiBack(wc);
    } else if wc < 0x800 {
      Split2(wc);
    } else if wc < 0x10000 {
      Split3(wc);
    } else {
      Split4(wc);
    }
  }

  // ---------------------------------------------------------------- the bytes themselves

  /** c is a first byte of 2, 3 or 4, or d one that continues, as in the table of section 3 of RFC 3629. */
  predicate Lead2(c: bv8) { 0xC0 <= c <= 0xDF }

  predicate Lead3(c: bv8) { 0xE0 <= c <= 0xEF }

  predicate Lead4(c: bv8) { 0xF0 <= c <= 0xF7 }

  predicate Continues(d: bv8) { 0x80 <= d <= 0xBF }

  lemma ByteClass(c: bv8)
    ensures Lead2(c) <==> c & 0xE0 == 0xC0
    ensures Lead3(c) <==> c & 0xF0 == 0xE0
    ensures Lead4(c) <==> c & 0xF8 == 0xF0
    ensures Continues(c) <==> Tail(c)
  {
  }

  predicate InTable(b: Bytes) {
    match |b|
    case 1 => b[0] < 0x80
    case 2 => Lead2(b[0]) && Continues(b[1])
    case 3 => Lead3(b[0]) && Continues(b[1]) && Continues(b[2])
    case 4 => Lead4(b[0]) && Continues(b[1]) && Continues(b[2]) && Continues(b[3])
    case _ => false
  }

  /** The bits of each of the table's rows, put together. */
  function Bits2(c: bv8, d: bv8): bv32 { ((c & 0x1F) as bv32 << 6) | (d & 0x3F) as bv32 }

  function Bits3(c: bv8, d: bv8, e: bv8): bv32 {
    ((c & 0x0F) as bv32 << 12) | ((d & 0x3F) as bv32 << 6) | (e & 0x3F) as bv32
  }

  function Bits4(c: bv8, d: bv8, e: bv8, f: bv8): bv32 {
    ((c & 0x07) as bv32 << 18) | ((d & 0x3F) as bv32 << 12) | ((e & 0x3F) as bv32 << 6) | (f & 0x3F) as bv32
  }

  function Bits(b: Bytes): bv32 {
    match |b|
    case 1 => b[0] as bv32
    case 2 => Bits2(b[0], b[1])
    case 3 => Bits3(b[0], b[1], b[2])
    case 4 => Bits4(b[0], b[1], b[2], b[3])
    case _ => 0xFFFF_FFFF
  }

  lemma BitsAreJoined(c: bv8, d: bv8, e: bv8, f: bv8)
    ensures Bits2(c, d) == Join2(c, d) && Bits3(c, d, e) == Join3(c, d, e) && Bits4(c, d, e, f) == Join4(c, d, e, f)
  {
  }

  lemma Row2(c: bv8, d: bv8, wc: bv32)
    requires c & 0xE0 == 0xC0 && Tail(d) && Bits2(c, d) == wc
    ensures InTable([c, d]) && Bits([c, d]) == wc
  {
    ByteClass(c);
    ByteClass(d);
  }

  lemma Row3(c: bv8, d: bv8, e: bv8, wc: bv32)
    requires c & 0xF0 == 0xE0 && Tail(d) && Tail(e) && Bits3(c, d, e) == wc
    ensures InTable([c, d, e]) && Bits([c, d, e]) == wc
  {
    ByteClass(c);
    ByteClass(d);
    ByteClass(e);
  }

  lemma Row4(c: bv8, d: bv8, e: bv8, f: bv8, wc: bv32)
    requires c & 0xF8 == 0xF0 && Tail(d) && Tail(e) && Tail(f) && Bits4(c, d, e, f) == wc
    ensures InTable([c, d, e, f]) && Bits([c, d, e, f]) == wc
  {
    ByteClass(c);
    ByteClass(d);
    ByteClass(e);
    ByteClass(f);
  }

  /** wcrtomb writes the shortest bytes of the table that have the scalar's bits. */
  lemma EncodesAsInTable(wc: bv32)
    requires Scalar(wc)
    ensures var b := Wcrtomb(wc).bytes;
            && InTable(b) && Bits(b) == wc
            && |b| == if wc < 0x80 then 1 else if wc < 0x800 then 2 else if wc < 0x10000 then 3 else 4
  {
    if wc < 0x80 {
      AsciiBack(wc);
    } else if wc < 0x800 {
      Split2(wc);
      BitsAreJoined(Byte(0xC0 | (wc >> 6)), Part(wc), 0, 0);
      Row2(Byte(0xC0 | (wc >> 6)), Part(wc), wc);
    } else if wc < 0x10000 {
      Split3(wc);
      BitsAreJoined(Byte(0xE0 | (wc >> 12)), Part(wc >> 6), Part(wc), 0);
      Row3(Byte(0xE0 | (wc >> 12)), Part(wc >> 6), Part(wc), wc);
    } else {
      Split4(wc);
      BitsAreJoined(Byte(0xF0 | (wc >> 18)), Part(wc >> 12), Part(wc >> 6), Part(wc));
      Row4(Byte(0xF0 | (wc >> 18)), Part(wc >> 12), Part(wc >> 6), Part(wc), wc);
    }
  }

  /** The number of bytes that a first byte announces. */
  function Announced(c: bv8): nat { if Lead2(c) then 2 else if Lead3(c) then 3 else if Lead4(c) then 4 else 1 }

  /** mbrtowc asks for more exactly while fewer bytes may be read than the first one announces. */
  lemma IncompleteExactly(s: Bytes, n: nat)
    ensures Mbrtowc(s, n).Incomplete? <==> n < Announced(At(s, 0))
  {
  }

  lemma Coded2(wc: bv32, c: bv8, d: bv8)
    requires 0x80 <= wc < 0x800 && Byte(0xC0 | (wc >> 6)) == c && Part(wc) == d
    ensures Scalar(wc) && Wcrtomb(wc) == Coded([c, d])
  {
  }

  lemma Coded3(wc: bv32, c: bv8, d: bv8, e: bv8)
    requires 0x800 <= wc < 0x10000 && !Surrogate(wc)
    requires Byte(0xE0 | (wc >> 12)) == c && Part(wc >> 6) == d && Part(wc) == e
    ensures Scalar(wc) && Wcrtomb(wc) == Coded([c, d, e])
  {
  }

  lemma Coded4(wc: bv32, c: bv8, d: bv8, e: bv8, f: bv8)
    requires 0x10000 <= wc <= 0x10FFFF
    requires Byte(0xF0 | (wc >> 18)) == c && Part(wc >> 12) == d && Part(wc >> 6) == e && Part(wc) == f
    ensures Scalar(wc) && Wcrtomb(wc) == Coded([c, d, e, f])
  {
  }

  /** What a successful decoding of each length has checked. */
  ghost predicate Form(s: Bytes, n: nat, d: Decoded) {
    d.Done? &&
    match d.len
    case 0 => d.wc == 0
    case 1 => n >= 1 && 0 < At(s, 0) < 0x80 && d.wc == At(s, 0) as bv32
    case 2 =>
      && n >= 2 && At(s, 0) & 0xE0 == 0xC0 && Tail(At(s, 1))
      && d.wc == Join2(At(s, 0), At(s, 1)) >= 0x80
    case 3 =>
      && n >= 3 && At(s, 0) & 0xF0 == 0xE0 && Tail(At(s, 1)) && Tail(At(s, 2))
      && d.wc == Join3(At(s, 0), At(s, 1), At(s, 2)) >= 0x800 && !Surrogate(d.wc)
    case 4 =>
      && n >= 4 && At(s, 0) & 0xF8 == 0xF0 && Tail(At(s, 1)) && Tail(At(s, 2)) && Tail(At(s, 3))
      && d.wc == Join4(At(s, 0), At(s, 1), At(s, 2), At(s, 3)) && 0x10000 <= d.wc <= 0x10FFFF
    case _ => false
  }

  lemma DecodedForm(s: Bytes, n: nat)
    requires Mbrtowc(s, n).Done?
    ensures Form(s, n, Mbrtowc(s, n))
  {
  }

  ghost predicate Canonical(s: Bytes, n: nat, d: Decoded) {
    && d.Done? && Scalar(d.wc)
    && (d.len == 0 <==> d.wc == 0)
    && (d.wc != 0 ==> d.len <= n && d.len <= |s| && Wcrtomb(d.wc) == Coded(s[..d.len]))
  }

  lemma Canonical2(s: Bytes, n: nat, d: Decoded)
    requires Form(s, n, d) && d.len == 2
    ensures Canonical(s, n, d)
  {
    Unsplit2(d.wc, s[0], s[1]);
    Coded2(d.wc, s[0], s[1]);
    assert s[..2] == [s[0], s[1]];
  }

  lemma Canonical3(s: Bytes, n: nat, d: Decoded)
    requires Form(s, n, d) && d.len == 3
    ensures Canonical(s, n, d)
  {
    Unsplit3(d.wc, s[0], s[1], s[2]);
    Coded3(d.wc, s[0], s[1], s[2]);
    assert s[..3] == [s[0], s[1], s[2]];
  }

  lemma Recode4(wc: bv32, c: bv8, d: bv8, e: bv8, f: bv8)
    requires c & 0xF8 == 0xF0 && Tail(d) && Tail(e) && Tail(f)
    requires wc == Join4(c, d, e, f) && 0x10000 <= wc <= 0x10FFFF
    ensures Wcrtomb(wc) == Coded([c, d, e, f])
  {
    Unsplit4(wc, c, d, e, f);
    Coded4(wc, c, d, e, f);
  }

  lemma Canonical4(s: Bytes, n: nat, d: Decoded)
    requires Form(s, n, d) && d.len == 4
    ensures Canonical(s, n, d)
  {
    Recode4(d.wc, s[0], s[1], s[2], s[3]);
    assert s[..4] == [s[0], s[1], s[2], s[3]];
  }

  lemma Canonical1(s: Bytes, n: nat, d: Decoded)
    requires Form(s, n, d) && d.len <= 1
    ensures Canonical(s, n, d)
  {
    if d.len == 1 {
      AsciiByte(s[0]);
      assert s[..1] == [s[0]];
    }
  }

  /** Decoding then encoding: only the shortest form of a scalar is accepted. */
  lemma EncodeDecoded(s: Bytes, n: nat)
    requires Mbrtowc(s, n).Done?
    ensures Canonical(s, n, Mbrtowc(s, n))
  {
    DecodedForm(s, n);
    var d := Mbrtowc(s, n);
    match d.len {
      case 2 => Canonical2(s, n, d);
      case 3 => Canonical3(s, n, d);
      case 4 => Canonical4(s, n, d);
      case _ => Canonical1(s, n, d);
    }
  }

  /**
   * mbrtowc accepts k > 0 bytes as wc exactly when wcrtomb of wc writes those k bytes: no
   * overlong form, surrogate or value above 0x10FFFF, and every scalar.
   */
  lemma {:induction false} DecodingIsExact(s: Bytes, n: nat, k: nat, wc: bv32)
    requires 0 < k
    ensures Mbrtowc(s, n) == Done(k, wc)
      <==> wc != 0 && Scalar(wc) && k <= n && k <= |s| && Wcrtomb(wc) == Coded(s[..k])
  {
    if Mbrtowc(s, n) == Done(k, wc) {
      EncodeDecoded(s, n);
    }
    if wc != 0 && Scalar(wc) && k <= n && k <= |s| && Wcrtomb(wc) == Coded(s[..k]) {
      DecodeEncoded(wc, s, n);
    }
  }

  // ---------------------------------------------------------------- strings

  type Wide = seq<bv32>

  predicate AllScalar(ws: Wide) { forall i :: 0 <= i < |ws| ==> Scalar(ws[i]) && ws[i] != 0 }

  /** What wcrtomb writes for a wide character it accepts: the encoding of a scalar. */
  function Encode(wc: bv32): (b: Bytes)
    requires Accepted(wc)
    ensures 1 <= |b| <= MB_CUR_MAX
  {
    Wcrtomb(wc).bytes
  }

  predicate AllAccepted(ws: Wide) { forall i :: 0 <= i < |ws| ==> Accepted(ws[i]) }

  function EncodeAll(ws: Wide): Bytes
    requires AllAccepted(ws)
  {
    if ws == [] then [] else Encode(ws[0]) + EncodeAll(ws[1..])
  }

  lemma Chain(x: Bytes, y: Bytes, z: Bytes, head: Bytes, mid: Bytes, last: Bytes)
    requires x == head + y && y == mid + last && z == head + mid
    ensures x == z + last
  {
  }

  lemma EncodeAllFirst(ws: Wide)
    requires AllAccepted(ws) && ws != []
    ensures EncodeAll(ws) == Encode(ws[0]) + EncodeAll(ws[1..])
  {
  }

  lemma EncodeOne(wc: bv32)
    requires Accepted(wc)
    ensures EncodeAll([wc]) == Encode(wc)
  {
    assert [wc][1..] == [];
  }

  lemma {:induction false} EncodeAllAppend(ws: Wide, wc: bv32)
    requires AllAccepted(ws) && Accepted(wc)
    ensures AllAccepted(ws + [wc])
    ensures EncodeAll(ws + [wc]) == EncodeAll(ws) + Encode(wc)
  {
    var t := ws + [wc];
    if ws == [] {
      EncodeOne(wc);
      assert t == [wc];
    } else {
      EncodeAllFirst(t);
      EncodeAllFirst(ws);
      assert t[1..] == ws[1..] + [wc];
      EncodeAllAppend(ws[1..], wc);
      Chain(EncodeAll(t), EncodeAll(t[1..]), EncodeAll(ws), Encode(ws[0]), EncodeAll(ws[1..]), Encode(wc));
    }
  }

  /** Two encoded strings that agree this far start with the same character. */
  lemma {:induction false} SameFirst(us: Wide, ws: Wide)
    requires AllScalar(us) && AllScalar(ws) && us != [] && EncodeAll(us) <= EncodeAll(ws)
    ensures ws != [] && us[0] == ws[0]
  {
    var b := EncodeAll(ws);
    var n := |b| + MB_CUR_MAX;
    assert Encode(us[0]) <= b;
    DecodeEncoded(us[0], b, n);
    assert ws != [];
    DecodeEncoded(ws[0], b, n);
  }

  lemma Behind(head: Bytes, a: Bytes, b: Bytes)
    requires head + a <= head + b
    ensures a <= b && (head + b)[|head + a|..] == b[|a|..]
  {
    assert (head + a)[|head|..] == a && (head + b)[|head|..] == b;
  }

  /** UTF-8 is a prefix code: one encoded string begins another exactly when the string itself does. */
  lemma {:induction false} PrefixCode(us: Wide, ws: Wide)
    requires AllScalar(us) && AllScalar(ws)
    ensures EncodeAll(us) <= EncodeAll(ws) <==> us <= ws
    ensures us <= ws ==> EncodeAll(ws) == EncodeAll(us) + EncodeAll(ws[|us|..])
  {
    if EncodeAll(us) <= EncodeAll(ws) {
      BytesPrefix(us, ws);
    }
    if us <= ws {
      assert us + ws[|us|..] == ws;
      EncodeAllConcat(us, ws[|us|..]);
    }
  }

  lemma {:induction false} EncodeAllConcat(us: Wide, ws: Wide)
    requires AllScalar(us) && AllScalar(ws)
    ensures AllScalar(us + ws) && EncodeAll(us + ws) == EncodeAll(us) + EncodeAll(ws)
  {
    if us == [] {
      assert us + ws == ws;
    } else {
      EncodeAllConcat(us[1..], ws);
      EncodeAllFirst(us);
      EncodeAllFirst(us + ws);
      assert (us + ws)[1..] == us[1..] + ws;
      Chain(EncodeAll(us + ws), EncodeAll(us[1..] + ws), EncodeAll(us), Encode(us[0]), EncodeAll(us[1..]), EncodeAll(ws));
    }
  }

  lemma {:induction false} BytesPrefix(us: Wide, ws: Wide)
    requires AllScalar(us) && AllScalar(ws)
    requires EncodeAll(us) <= EncodeAll(ws)
    ensures us <= ws
  {
    if us != [] {
      SameFirst(us, ws);
      EncodeAllFirst(us);
      EncodeAllFirst(ws);
      Behind(Encode(us[0]), EncodeAll(us[1..]), EncodeAll(ws[1..]));
      BytesPrefix(us[1..], ws[1..]);
    }
  }

  /** What a conversion of a whole string returns. */
  datatype Outcome = Failure | Count(n: nat)

  lemma {:induction false} EncodesOneMore(ws: Wide, read: nat)
    requires read < |ws| && AllAccepted(ws[..read]) && Accepted(ws[read])
    ensures AllAccepted(ws[..read + 1])
    ensures EncodeAll(ws[..read + 1]) == EncodeAll(ws[..read]) + Encode(ws[read])
  {
    EncodeAllAppend(ws[..read], ws[read]);
    assert ws[..read + 1] == ws[..read] + [ws[read]];
  }

  /** A destination of len places, or a null one, which only counts. */
  datatype Dst = NullDst | Dst(len: nat)

  predicate Fits(dst: Dst, n: nat) { dst.NullDst? || n <= dst.len }

  /**
   * wcsrtombs: `read` is how far the source pointer moved, `ended` whether it was set to
   * NULL. A terminating zero follows the bytes where there is room for it.
   */
  method Wcsrtombs(ws: Wide, dst: Dst) returns (r: Outcome, out: Bytes, read: nat, ended: bool)
    requires 0 !in ws
    ensures read <= |ws| && AllAccepted(ws[..read]) && Fits(dst, |EncodeAll(ws[..read])|)
    ensures r.Failure? <==> read < |ws| && !Accepted(ws[read])
    ensures r.Count? ==> r.n == |EncodeAll(ws[..read])| && (ended <==> read == |ws|)
    ensures r.Count? && read < |ws| ==> !Fits(dst, |EncodeAll(ws[..read])| + |Encode(ws[read])|)
    ensures out == if dst.NullDst? then []
                   else if r.Count? && r.n < dst.len then EncodeAll(ws[..read]) + [0]
                   else EncodeAll(ws[..read])
  {
    var n: nat := 0;
    out, read, ended := [], 0, false;
    while read < |ws|
      invariant read <= |ws| && AllAccepted(ws[..read]) && Fits(dst, n)
      invariant n == |EncodeAll(ws[..read])| && out == if dst.NullDst? then [] else EncodeAll(ws[..read])
    {
      var mb := Wcrtomb(ws[read]);
      WcrtombAccepts(ws[read]);
      if mb.Rejected? {
        return Failure, out, read, false;
      }
      if !dst.NullDst? && n + |mb.bytes| > dst.len {
        break;
      }
      EncodesOneMore(ws, read);
      out := if dst.NullDst? then out else out + mb.bytes;
      read, n := read + 1, n + |mb.bytes|;
    }
    if !dst.NullDst? && n < dst.len {
      out := out + [0];
    }
    r, ended := Count(n), read == |ws|;
  }

  /**
   * mbsrtowcs: fails exactly where, with a place left, the bytes do not decode; otherwise it
   * ends with the string, writing a terminating zero, or for lack of room.
   */
  method Mbsrtowcs(s: Bytes, dst: Dst) returns (r: Outcome, out: Wide, read: nat, ended: bool, ghost ws: Wide)
    requires 0 !in s
    ensures read <= |s| && AllScalar(ws) && s[..read] == EncodeAll(ws) && Fits(dst, |ws|)
    ensures r.Failure? <==> Fits(dst, |ws| + 1) && read < |s| && !Mbrtowc(s[read..], MB_CUR_MAX).Done?
    ensures r.Count? ==> r.n == |ws| && (ended <==> Fits(dst, |ws| + 1)) && (ended ==> read == |s|)
    ensures out == if dst.NullDst? then [] else if ended then ws + [0] else ws
  {
    var n: nat := 0;
    out, read, ended, ws := [], 0, false, [];
    while dst.NullDst? || n < dst.len
      invariant read <= |s| && AllScalar(ws) && s[..read] == EncodeAll(ws) && n == |ws| && Fits(dst, n)
      invariant out == if dst.NullDst? then [] else ws
      decreases |s| - read
    {
      if read == |s| {
        out := if dst.NullDst? then out else out + [0];
        return Count(n), out, read, true, ws;
      }
      var d := Mbrtowc(s[read..], MB_CUR_MAX);
      if !d.Done? {
        return Failure, out, read, false, ws;
      }
      DecodesOneMore(s, read, ws);
      ws := ws + [d.wc];
      out := if dst.NullDst? then out else out + [d.wc];
      read, n := read + d.len, n + 1;
    }
    r := Count(n);
  }

  lemma {:induction false} DecodesOneMore(s: Bytes, read: nat, ws: Wide)
    requires 0 !in s && read < |s| && AllScalar(ws) && s[..read] == EncodeAll(ws)
    requires Mbrtowc(s[read..], MB_CUR_MAX).Done?
    ensures var d := Mbrtowc(s[read..], MB_CUR_MAX);
            && 0 < d.len && read + d.len <= |s|
            && AllScalar(ws + [d.wc]) && s[..read + d.len] == EncodeAll(ws + [d.wc])
  {
    var d := Mbrtowc(s[read..], MB_CUR_MAX);
    EncodeDecoded(s[read..], MB_CUR_MAX);
    NonZeroDecodes(s[read..], MB_CUR_MAX);
    EncodeAllAppend(ws, d.wc);
    assert s[..read + d.len] == s[..read] + s[read..][..d.len];
  }

  lemma NonZeroDecodes(s: Bytes, n: nat)
    requires Mbrtowc(s, n).Done? && At(s, 0) != 0
    ensures Mbrtowc(s, n).wc != 0
  {
    EncodeDecoded(s, n);
    DecodedForm(s, n);
  }

  lemma {:induction false} EncodePrefixShorter(ws: Wide, k: nat)
    requires AllScalar(ws) && k < |ws|
    ensures |EncodeAll(ws[..k])| + |Encode(ws[k])| <= |EncodeAll(ws)|
  {
    if k > 0 {
      assert ws[..k][1..] == ws[1..][..k - 1];
      EncodePrefixShorter(ws[1..], k - 1);
    }
  }

  lemma EncodeNonZero(wc: bv32)
    requires Scalar(wc) && wc != 0
    ensures 0 !in Encode(wc)
  {
    if wc < 0x80 {
      AsciiBack(wc);
    } else if wc < 0x800 {
      Split2(wc);
    } else if wc < 0x10000 {
      Split3(wc);
    } else {
      Split4(wc);
    }
  }

  lemma {:induction false} EncodedHasNoZero(ws: Wide)
    requires AllScalar(ws)
    ensures 0 !in EncodeAll(ws)
  {
    if ws != [] {
      EncodeNonZero(ws[0]);
      EncodedHasNoZero(ws[1..]);
    }
  }

  /** With room for the whole string, an encoder that stops has encoded all of it. */
  lemma {:induction false} WholeStringEncoded(ws: Wide, len: nat, read: nat)
    requires AllScalar(ws) && |EncodeAll(ws)| <= len && read <= |ws|
    requires read < |ws| ==> len < |EncodeAll(ws[..read])| + |Encode(ws[read])|
    ensures read == |ws| && ws[..read] == ws
  {
    if read < |ws| {
      EncodePrefixShorter(ws, read);
    }
  }

  /** A decoder that has read a prefix of an encoded string and stopped early stopped for lack of room. */
  lemma {:induction false} WholeStringDecoded(ws: Wide, back: Wide, read: nat)
    requires AllScalar(ws) && AllScalar(back) && read <= |EncodeAll(ws)|
    requires EncodeAll(ws)[..read] == EncodeAll(back)
    ensures back <= ws
    ensures back != ws ==> read < |EncodeAll(ws)| && Mbrtowc(EncodeAll(ws)[read..], MB_CUR_MAX).Done?
  {
    PrefixCode(back, ws);
    if back != ws {
      var rest := ws[|back|..];
      DecodeEncoded(rest[0], EncodeAll(ws)[read..], MB_CUR_MAX);
    }
  }

  /** mbsrtowcs undoes wcsrtombs on every string of non-zero scalars, given room for both. */
  method StringRoundTrip(ws: Wide, len: nat) returns (back: Wide)
    requires AllScalar(ws) && len >= |EncodeAll(ws)| && len > |ws|
    ensures back == ws + [0]
  {
    var r, bytes, read, ended := Wcsrtombs(ws, Dst(len));
    WholeStringEncoded(ws, len, read);
    EncodedHasNoZero(ws);
    assert bytes[..r.n] == EncodeAll(ws);
    ghost var got;
    r, back, read, ended, got := Mbsrtowcs(bytes[..r.n], Dst(len));
    WholeStringDecoded(ws, got, read);
  }
}
