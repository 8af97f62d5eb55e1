/**
 * iconv between UTF-8, UTF-16LE, UTF-32LE and the single-byte encoding every other name
 * selects. Decoding UTF-8 goes one byte at a time through the descriptor's state word.
 *
 * The code's own idea of an encoded character is a piece; it is wider than the standards'
 * (module IconvScalars says by how much). Every input is a sequence of pieces with an end
 * that is clean, cut off, broken, or a character too large for the target.
 */
module Iconv {

  import opened Utf8

  datatype Encoding = Ascii | Utf8 | Utf16le | Utf32le

  /** Results 0, -1 and 1 of the decoder, with what it consumed and stored. */
  datatype Parsed = More(used: nat, cp: bv32, state: nat) | Bad | Char(used: nat, cp: bv32, state: nat)

  /** Results 0, -1 and 1 of the encoder. */
  datatype Emitted = Full | Unencodable | Bytes(bytes: seq<bv8>)

  // ---------------------------------------------------------------- the decoder

  function Word16(lo: bv8, hi: bv8): bv32 { lo as bv32 | (hi as bv32 << 8) }

  function Word32(a: bv8, b: bv8, c: bv8, d: bv8): bv32 {
    a as bv32 | (b as bv32 << 8) | (c as bv32 << 16) | (d as bv32 << 24)
  }

  function Append6(cp: bv32, b: bv8): bv32 { (cp << 6) | Low6(b) }

  function FromUtf8(b: bv8, cp: bv32, state: nat): Parsed {
    if state != 0 then
      if b & 0xC0 != 0x80 then Bad
      else if state == 1 then Char(1, Append6(cp, b), 0)
      else More(1, Append6(cp, b), state - 1)
    else if b <= 0x7F then Char(1, b as bv32, 0)
    else if b & 0xE0 == 0xC0 then More(1, (b & 0x1F) as bv32, 1)
    else if b & 0xF0 == 0xE0 then More(1, (b & 0x0F) as bv32, 2)
    else if b & 0xF8 == 0xF0 then More(1, (b & 0x07) as bv32, 3)
    else Bad
  }

  function Pair(u: bv32, l: bv32): bv32 { 0x10000 + ((u - 0xD800) << 10) + (l - 0xDC00) }

  /** UTF-16 from the first unit u and, when four bytes are there, the second unit l. */
  function FromUnits(u: bv32, four: bool, l: bv32, cp: bv32, state: nat): Parsed {
    if u >= 0xD800 && u <= 0xDBFF then
      if !four then More(0, cp, state)
      else if l < 0xDC00 || l > 0xDFFF then Bad
      else Char(4, Pair(u, l), state)
    else if u >= 0xDC00 && u <= 0xDFFF then Bad
    else Char(2, u, state)
  }

  /** __iconv_codepoint_from on the remaining input s. */
  function From(enc: Encoding, s: seq<bv8>, cp: bv32, state: nat): Parsed {
    if |s| == 0 then More(0, cp, state)
    else
      match enc
      case Ascii => Char(1, s[0] as bv32, state)
      case Utf8 => FromUtf8(s[0], cp, state)
      case Utf16le =>
        if |s| < 2 then More(0, cp, state)
        else if |s| < 4 then FromUnits(Word16(s[0], s[1]), false, 0, cp, state)
        else FromUnits(Word16(s[0], s[1]), true, Word16(s[2], s[3]), cp, state)
      case Utf32le =>
        if |s| < 4 then More(0, cp, state) else Char(4, Word32(s[0], s[1], s[2], s[3]), state)
  }

  // ---------------------------------------------------------------- the encoder

  function Fit(room: nat, b: seq<bv8>): Emitted { if room < |b| then Full else Bytes(b) }

  function ToUtf16(room: nat, cp: bv32): Emitted {
    if cp >= 0x10000 && cp <= 0x10FFFF then
      var c := cp - 0x10000;
      Fit(room, PairBytes(0xD800 | (c >> 10), 0xDC00 | (c & 0x3FF)))
    else if cp > 0xFFFF then Unencodable
    else Fit(room, [Byte(cp), Byte(cp >> 8)])
  }

  function PairBytes(hi: bv32, lo: bv32): seq<bv8> { [Byte(hi), Byte(hi >> 8), Byte(lo), Byte(lo >> 8)] }

  /** __iconv_codepoint_to with room bytes left. */
  function To(enc: Encoding, room: nat, cp: bv32): Emitted {
    match enc
    case Ascii => Fit(room, [Byte(cp)])
    case Utf8 =>
      if cp <= 0x7F then Fit(room, [Byte(cp)])
      else if cp <= 0x7FF then Fit(room, [Byte(0xC0 | (cp >> 6)), Byte(0x80 | (cp & 0x3F))])
      else if cp <= 0xFFFF then
        Fit(room, [Byte(0xE0 | (cp >> 12)), Byte(0x80 | ((cp >> 6) & 0x3F)), Byte(0x80 | (cp & 0x3F))])
      else if cp <= 0x10FFFF then
        Fit(room, [Byte(0xF0 | (cp >> 18)), Byte(0x80 | ((cp >> 12) & 0x3F)), Byte(0x80 | ((cp >> 6) & 0x3F)),
                   Byte(0x80 | (cp & 0x3F))])
      else Unencodable
    case Utf16le => ToUtf16(room, cp)
    case Utf32le => Fit(room, [Byte(cp), Byte(cp >> 8), Byte(cp >> 16), Byte(cp >> 24)])
  }

  // ---------------------------------------------------------------- pieces

  /** The length a first byte announces, 0 when it announces none. */
  function Need(b: bv8): nat {
    if b <= 0x7F then 1
    else if b & 0xE0 == 0xC0 then 2
    else if b & 0xF0 == 0xE0 then 3
    else if b & 0xF8 == 0xF0 then 4
    else 0
  }

  function LeadBits(b: bv8): bv32 {
    if b <= 0x7F then b as bv32
    else if b & 0xE0 == 0xC0 then (b & 0x1F) as bv32
    else if b & 0xF0 == 0xE0 then (b & 0x0F) as bv32
    else (b & 0x07) as bv32
  }

  /** The bytes from j up to n continue a sequence. */
  predicate Trails(b: seq<bv8>, j: nat, n: nat) { forall i :: j <= i < n && i < |b| ==> b[i] & 0xC0 == 0x80 }

  /** The bits of the first j bytes, put together. */
  function Value(b: seq<bv8>, j: nat): bv32
    requires 1 <= j <= |b|
  {
    if j == 1 then LeadBits(b[0]) else Append6(Value(b, j - 1), b[j - 1])
  }

  predicate HighUnit(u: bv32) { u >= 0xD800 && u <= 0xDBFF }

  predicate LowUnit(u: bv32) { u >= 0xDC00 && u <= 0xDFFF }

  /** What the decoder takes for one character: no minimum is asked of UTF-8, and UTF-32 may be anything. */
  predicate IsPiece(enc: Encoding, b: seq<bv8>) {
    match enc
    case Ascii => |b| == 1
    case Utf8 => |b| > 0 && |b| == Need(b[0]) && Trails(b, 1, |b|)
    case Utf16le =>
      || (|b| == 2 && !HighUnit(Word16(b[0], b[1])) && !LowUnit(Word16(b[0], b[1])))
      || (|b| == 4 && HighUnit(Word16(b[0], b[1])) && LowUnit(Word16(b[2], b[3])))
    case Utf32le => |b| == 4
  }

  function Cp(enc: Encoding, b: seq<bv8>): bv32
    requires IsPiece(enc, b)
  {
    match enc
    case Ascii => b[0] as bv32
    case Utf8 => Value(b, |b|)
    case Utf16le => if |b| == 2 then Word16(b[0], b[1]) else Pair(Word16(b[0], b[1]), Word16(b[2], b[3]))
    case Utf32le => Word32(b[0], b[1], b[2], b[3])
  }

  predicate AllPieces(enc: Encoding, us: seq<seq<bv8>>) { forall i :: 0 <= i < |us| ==> IsPiece(enc, us[i]) }

  /** The target can hold the code point. */
  predicate Holds(to: Encoding, cp: bv32) { cp <= 0x10FFFF || (to != Utf8 && to != Utf16le) }

  /** What the encoder writes for it, given room. */
  function Raw(to: Encoding, cp: bv32): (b: seq<bv8>)
    requires Holds(to, cp)
    ensures 1 <= |b| <= 4
  {
    To(to, 4, cp).bytes
  }

  lemma ToIsRaw(to: Encoding, room: nat, cp: bv32)
    ensures To(to, room, cp).Unencodable? <==> !Holds(to, cp)
    ensures Holds(to, cp) ==> To(to, room, cp) == Fit(room, Raw(to, cp))
  {
  }

  predicate AllHeld(from: Encoding, to: Encoding, us: seq<seq<bv8>>)
    requires AllPieces(from, us)
  {
    forall i :: 0 <= i < |us| ==> Holds(to, Cp(from, us[i]))
  }

  /** What is written for each piece. */
  function Outs(from: Encoding, to: Encoding, us: seq<seq<bv8>>): (o: seq<seq<bv8>>)
    requires AllPieces(from, us) && AllHeld(from, to, us)
    ensures |o| == |us| && forall i :: 0 <= i < |us| ==> o[i] == Raw(to, Cp(from, us[i]))
  {
    seq(|us|, i requires 0 <= i < |us| => Raw(to, Cp(from, us[i])))
  }

  // ---------------------------------------------------------------- strung together

  function Flat(us: seq<seq<bv8>>): seq<bv8> { if us == [] then [] else us[0] + Flat(us[1..]) }

  lemma {:induction false} FlatStep(us: seq<seq<bv8>>, k: nat)
    requires k < |us|
    ensures Flat(us[k..]) == us[k] + Flat(us[k + 1..])
  {
    assert us[k..][1..] == us[k + 1..];
  }

  lemma {:induction false} FlatSnoc(us: seq<seq<bv8>>, u: seq<bv8>)
    ensures Flat(us + [u]) == Flat(us) + u
  {
    var t := us + [u];
    if us == [] {
      assert t[1..] == [];
    } else {
      assert t[0] == us[0] && t[1..] == us[1..] + [u];
      FlatSnoc(us[1..], u);
    }
  }

  lemma {:induction false} FlatPrefix(us: seq<seq<bv8>>, k: nat)
    requires k < |us|
    ensures Flat(us[..k + 1]) == Flat(us[..k]) + us[k]
  {
    assert us[..k + 1] == us[..k] + [us[k]];
    FlatSnoc(us[..k], us[k]);
  }

  lemma {:induction false} FlatGrows(us: seq<seq<bv8>>, k: nat)
    requires k <= |us|
    ensures |Flat(us[..k])| <= |Flat(us)|
    decreases |us| - k
  {
    if k < |us| {
      FlatPrefix(us, k);
      FlatGrows(us, k + 1);
    } else {
      assert us[..k] == us;
    }
  }

  // ---------------------------------------------------------------- how an input can end

  /** Nothing, a sequence cut off, something broken after g bytes, or a character the target cannot hold. */
  datatype End = Clean | CutOff | Broken(g: nat) | TooLarge(piece: seq<bv8>)

  /** More bytes are needed for a piece. */
  predicate Cut(enc: Encoding, t: seq<bv8>) {
    match enc
    case Ascii => false
    case Utf8 => |t| > 0 && |t| < Need(t[0]) && Trails(t, 1, |t|)
    case Utf16le => |t| == 1 || (2 <= |t| < 4 && HighUnit(Word16(t[0], t[1])))
    case Utf32le => 1 <= |t| < 4
  }

  /** No piece starts here: after g bytes comes one that cannot follow. */
  predicate BrokenAt(enc: Encoding, t: seq<bv8>, g: nat) {
    match enc
    case Ascii => false
    case Utf8 =>
      |t| > g && if g == 0 then Need(t[0]) == 0 else g < Need(t[0]) && Trails(t, 1, g) && t[g] & 0xC0 != 0x80
    case Utf16le =>
      && g == 0
      && ((|t| >= 2 && LowUnit(Word16(t[0], t[1])))
          || (|t| >= 4 && HighUnit(Word16(t[0], t[1])) && !LowUnit(Word16(t[2], t[3]))))
    case Utf32le => false
  }

  predicate EndsWith(from: Encoding, to: Encoding, t: seq<bv8>, e: End) {
    match e
    case Clean => t == []
    case CutOff => Cut(from, t)
    case Broken(g) => BrokenAt(from, t, g)
    case TooLarge(p) => IsPiece(from, p) && p <= t && !Holds(to, Cp(from, p))
  }

  /** What a conversion that has come to the end leaves unread. */
  function Unread(t: seq<bv8>, e: End): seq<bv8> {
    match e
    case Clean => []
    case CutOff => []
    case Broken(g) => if g <= |t| then t[g..] else []
    case TooLarge(p) => if |p| <= |t| then t[|p|..] else []
  }

  /** Every non-empty input starts with a piece, is cut off, or is broken. */
  lemma Start(enc: Encoding, s: seq<bv8>) returns (p: seq<bv8>, g: nat)
    requires s != []
    ensures Cut(enc, s) || BrokenAt(enc, s, g) || (IsPiece(enc, p) && p <= s && p != [])
  {
    p, g := [], 0;
    match enc {
      case Ascii => p := s[..1];
      case Utf8 => p, g := StartUtf8(s);
      case Utf16le => p := if |s| >= 2 && !HighUnit(Word16(s[0], s[1])) then s[..2] else if |s| >= 4 then s[..4] else [];
      case Utf32le => p := if |s| >= 4 then s[..4] else [];
    }
  }

  lemma StartUtf8(s: seq<bv8>) returns (p: seq<bv8>, g: nat)
    requires s != []
    ensures Cut(Utf8, s) || BrokenAt(Utf8, s, g) || (IsPiece(Utf8, p) && p <= s && p != [])
  {
    p, g := [], 0;
    var n := Need(s[0]);
    if n > 0 {
      g := 1;
      while g < n && g < |s| && s[g] & 0xC0 == 0x80
        invariant 1 <= g <= n && g <= |s| && Trails(s, 1, g)
      {
        g := g + 1;
      }
      if g == n {
        p := s[..n];
      }
    }
  }

  /** And only one of the three, with only one piece or one breaking point. */
  lemma StartsOneWay(enc: Encoding, s: seq<bv8>, p: seq<bv8>, q: seq<bv8>, g: nat, h: nat)
    ensures Cut(enc, s) ==> !BrokenAt(enc, s, g) && !(IsPiece(enc, p) && p <= s)
    ensures BrokenAt(enc, s, g) ==> !(IsPiece(enc, p) && p <= s)
    ensures BrokenAt(enc, s, g) && BrokenAt(enc, s, h) ==> g == h
    ensures IsPiece(enc, p) && IsPiece(enc, q) && p <= s && q <= s ==> p == q
  {
    if IsPiece(enc, p) && p <= s {
      assert forall i :: 0 <= i < |p| ==> s[i] == p[i];
    }
    if IsPiece(enc, q) && q <= s {
      assert forall i :: 0 <= i < |q| ==> s[i] == q[i];
    }
  }

  /** Every input is a sequence of pieces that the target holds, with one of the four ends. */
  lemma {:induction false} EveryInput(from: Encoding, to: Encoding, s: seq<bv8>)
    returns (us: seq<seq<bv8>>, tail: seq<bv8>, e: End)
    ensures AllPieces(from, us) && AllHeld(from, to, us) && s == Flat(us) + tail && EndsWith(from, to, tail, e)
    decreases |s|
  {
    us, tail, e := [], s, Clean;
    if s != [] {
      var p, g := Start(from, s);
      if Cut(from, s) {
        e := CutOff;
      } else if BrokenAt(from, s, g) {
        e := Broken(g);
      } else if !Holds(to, Cp(from, p)) {
        e := TooLarge(p);
      } else {
        var rest;
        rest, tail, e := EveryInput(from, to, s[|p|..]);
        us := [p] + rest;
        OneMore(from, to, s, p, rest, tail);
      }
    }
  }

  lemma OneMore(from: Encoding, to: Encoding, s: seq<bv8>, p: seq<bv8>, rest: seq<seq<bv8>>, tail: seq<bv8>)
    requires IsPiece(from, p) && Holds(to, Cp(from, p)) && p <= s
    requires AllPieces(from, rest) && AllHeld(from, to, rest) && s[|p|..] == Flat(rest) + tail
    ensures AllPieces(from, [p] + rest) && AllHeld(from, to, [p] + rest) && s == Flat([p] + rest) + tail
  {
    var us := [p] + rest;
    assert us[1..] == rest;
    assert s == p + s[|p|..];
  }

  /** At a boundary the decoder leaves everything as it is exactly when UTF-16 or UTF-32 is cut off there. */
  lemma StallsExactly(enc: Encoding, s: seq<bv8>, cp: bv32)
    requires s != []
    ensures From(enc, s, cp, 0) == More(0, cp, 0) <==> enc != Utf8 && Cut(enc, s)
  {
  }

  // ---------------------------------------------------------------- one call of the decoder

  /** The decoder's state after j bytes of the chunk c, of which more is to come. */
  ghost predicate Inside(c: seq<bv8>, j: nat, cp: bv32, state: nat) {
    if j == 0 then state == 0
    else
      && j <= |c| && j < Need(c[0]) && Trails(c, 1, j)
      && state == Need(c[0]) - j && cp == Value(c, j)
  }

  lemma LeadByte(c: seq<bv8>, cp: bv32)
    requires c != []
    ensures var n := Need(c[0]);
            FromUtf8(c[0], cp, 0) == if n == 0 then Bad else if n == 1 then Char(1, Value(c, 1), 0) else More(1, Value(c, 1), n - 1)
  {
  }

  lemma NextByte(c: seq<bv8>, j: nat, cp: bv32, state: nat)
    requires 0 < j < |c| && Inside(c, j, cp, state)
    ensures FromUtf8(c[j], cp, state)
         == if c[j] & 0xC0 != 0x80 then Bad
            else if j + 1 == Need(c[0]) then Char(1, Value(c, j + 1), 0)
            else More(1, Value(c, j + 1), state - 1)
  {
  }

  /** Outside UTF-8 a piece is decoded in one call. */
  lemma WholePiece(enc: Encoding, b: seq<bv8>, s: seq<bv8>, cp: bv32)
    requires enc != Utf8 && IsPiece(enc, b) && b <= s
    ensures From(enc, s, cp, 0) == Char(|b|, Cp(enc, b), 0)
  {
    assert forall i :: 0 <= i < |b| ==> s[i] == b[i];
  }

  lemma BrokenUnits(s: seq<bv8>, cp: bv32)
    requires BrokenAt(Utf16le, s, 0)
    ensures From(Utf16le, s, cp, 0) == Bad
  {
  }

  // ---------------------------------------------------------------- the way through the input

  /** The pieces are behind and what is left is cut off, where only UTF-8 goes on. */
  predicate Stuck(from: Encoding, us: seq<seq<bv8>>, e: End, k: nat) { e.CutOff? && from != Utf8 && k == |us| }

  /** The loop gets there if there is room for all the pieces. */
  predicate Stalls(from: Encoding, to: Encoding, us: seq<seq<bv8>>, e: End, room: nat)
    requires AllPieces(from, us) && AllHeld(from, to, us)
  {
    e.CutOff? && from != Utf8 && |Flat(Outs(from, to, us))| <= room
  }

  /** The chunk being decoded when k pieces are behind: a piece, or what the input ends with. */
  function Chunk(us: seq<seq<bv8>>, tail: seq<bv8>, e: End, k: nat): seq<bv8> {
    if k < |us| then us[k] else if e.TooLarge? then e.piece else tail
  }

  /** What comes after it. */
  function After(us: seq<seq<bv8>>, tail: seq<bv8>, e: End, k: nat): seq<bv8> {
    if k < |us| then Flat(us[k + 1..]) + tail
    else if e.TooLarge? && |e.piece| <= |tail| then tail[|e.piece|..] else []
  }

  ghost predicate Position(enc: Encoding, us: seq<seq<bv8>>, tail: seq<bv8>, e: End, k: nat, j: nat,
                           left: seq<bv8>, cp: bv32, state: nat) {
    && k <= |us| && (j > 0 ==> enc == Utf8)
    && j <= |Chunk(us, tail, e, k)| && Inside(Chunk(us, tail, e, k), j, cp, state)
    && left == Chunk(us, tail, e, k)[j..] + After(us, tail, e, k)
  }

  /** At a boundary the input left is what is not yet read. */
  lemma AtBoundary(enc: Encoding, to: Encoding, us: seq<seq<bv8>>, tail: seq<bv8>, e: End, k: nat, left: seq<bv8>, cp: bv32)
    requires k <= |us| && EndsWith(enc, to, tail, e) && left == Flat(us[k..]) + tail
    ensures Position(enc, us, tail, e, k, 0, left, cp, 0)
  {
    if k < |us| {
      FlatStep(us, k);
      InFront(us[k], Flat(us[k + 1..]) + tail, left);
    } else {
      assert us[k..] == [];
      if e.TooLarge? {
        InFront(e.piece, tail[|e.piece|..], left);
      } else {
        InFront(tail, [], left);
      }
    }
  }

  lemma InFront(c: seq<bv8>, after: seq<bv8>, left: seq<bv8>)
    requires left == c + after
    ensures left == c[0..] + after
  {
    assert c[0..] == c;
  }

  lemma Drop(c: seq<bv8>, j: nat, after: seq<bv8>, left: seq<bv8>)
    requires j < |c| && left == c[j..] + after
    ensures left != [] && left[0] == c[j] && left[1..] == c[j + 1..] + after
    ensures j + 1 == |c| ==> left[1..] == after
  {
  }

  lemma Whole(c: seq<bv8>, after: seq<bv8>, left: seq<bv8>)
    requires left == c[0..] + after
    ensures c <= left && left[|c|..] == after
  {
    assert c[0..] == c;
  }

  /** One call inside a piece, one of the input's or the one that is too large, and where it leads. */
  ghost predicate Advances(enc: Encoding, c: seq<bv8>, after: seq<bv8>, j: nat, left: seq<bv8>, p: Parsed)
    requires IsPiece(enc, c)
  {
    && !p.Bad? && 0 < p.used <= |left|
    && (p.Char? ==> p.cp == Cp(enc, c) && p.state == 0 && left[p.used..] == after)
    && (p.More? ==> enc == Utf8 && j + 1 < |c| && Inside(c, j + 1, p.cp, p.state) && left[p.used..] == c[j + 1..] + after)
  }

  lemma PieceStep(enc: Encoding, c: seq<bv8>, after: seq<bv8>, j: nat, left: seq<bv8>, cp: bv32, state: nat)
    requires IsPiece(enc, c) && j < |c| && (j > 0 ==> enc == Utf8) && Inside(c, j, cp, state)
    requires left == c[j..] + after
    ensures Advances(enc, c, after, j, left, From(enc, left, cp, state))
  {
    Drop(c, j, after, left);
    if enc != Utf8 {
      Whole(c, after, left);
      WholePiece(enc, c, left, cp);
    } else if j == 0 {
      LeadByte(c, cp);
    } else {
      NextByte(c, j, cp, state);
    }
  }

  /** One call inside a broken or cut-off end. */
  lemma EndStep(enc: Encoding, to: Encoding, tail: seq<bv8>, e: End, j: nat, left: seq<bv8>, cp: bv32, state: nat)
    requires EndsWith(enc, to, tail, e) && (e.CutOff? || e.Broken?) && (e.CutOff? ==> enc == Utf8)
    requires j < |tail| && (j > 0 ==> enc == Utf8) && Inside(tail, j, cp, state) && left == tail[j..]
    ensures var p := From(enc, left, cp, state);
            if e == Broken(j) then p.Bad?
            else p.More? && p.used == 1 && enc == Utf8 && (e.Broken? ==> j < e.g) && Inside(tail, j + 1, p.cp, p.state)
  {
    if enc == Utf16le {
      assert left == tail;
      BrokenUnits(tail, cp);
    } else {
      if j == 0 {
        LeadByte(tail, cp);
      } else {
        NextByte(tail, j, cp, state);
      }
    }
  }

  /** Where one call leads from anywhere in the input. */
  ghost predicate Leads(from: Encoding, us: seq<seq<bv8>>, tail: seq<bv8>, e: End, k: nat, j: nat, left: seq<bv8>, p: Parsed)
    requires AllPieces(from, us) && k <= |us|
    requires e.TooLarge? ==> IsPiece(from, e.piece)
  {
    && (p.Bad? ==> e.Broken? && k == |us| && left == Unread(tail, e))
    && (!p.Bad? ==> 0 < p.used <= |left|)
    && (p.More? ==> Position(from, us, tail, e, k, j + 1, left[p.used..], p.cp, p.state))
    && (p.Char? ==> p.state == 0)
    && (p.Char? && k < |us| ==> p.cp == Cp(from, us[k]) && Position(from, us, tail, e, k + 1, 0, left[p.used..], p.cp, 0))
    && (p.Char? && k == |us| ==> e.TooLarge? && p.cp == Cp(from, e.piece) && left[p.used..] == Unread(tail, e))
  }

  lemma {:induction false} PieceLeads(from: Encoding, to: Encoding, us: seq<seq<bv8>>, tail: seq<bv8>, e: End, k: nat, j: nat,
                                      left: seq<bv8>, cp: bv32, state: nat)
    requires AllPieces(from, us) && EndsWith(from, to, tail, e) && k < |us|
    requires Position(from, us, tail, e, k, j, left, cp, state)
    ensures Leads(from, us, tail, e, k, j, left, From(from, left, cp, state))
  {
    var after := Flat(us[k + 1..]) + tail;
    PieceStep(from, us[k], after, j, left, cp, state);
    var p := From(from, left, cp, state);
    if p.Char? {
      AtBoundary(from, to, us, tail, e, k + 1, after, p.cp);
    }
  }

  lemma {:induction false} LastLeads(from: Encoding, to: Encoding, us: seq<seq<bv8>>, tail: seq<bv8>, e: End, j: nat,
                                     left: seq<bv8>, cp: bv32, state: nat)
    requires AllPieces(from, us) && EndsWith(from, to, tail, e) && e.TooLarge?
    requires Position(from, us, tail, e, |us|, j, left, cp, state)
    ensures Leads(from, us, tail, e, |us|, j, left, From(from, left, cp, state))
  {
    PieceStep(from, e.piece, tail[|e.piece|..], j, left, cp, state);
  }

  /** Where the input stands at a boundary. */
  lemma {:induction false} LeftAtBoundary(from: Encoding, to: Encoding, us: seq<seq<bv8>>, tail: seq<bv8>, e: End, k: nat,
                                          left: seq<bv8>, cp: bv32)
    requires EndsWith(from, to, tail, e) && Position(from, us, tail, e, k, 0, left, cp, 0)
    ensures left == Flat(us[k..]) + tail
  {
    var c := Chunk(us, tail, e, k);
    assert c[0..] == c;
    if k < |us| {
      FlatStep(us, k);
    } else {
      assert us[k..] == [];
    }
  }

  lemma {:induction false} EndLeads(from: Encoding, to: Encoding, us: seq<seq<bv8>>, tail: seq<bv8>, e: End, j: nat,
                                    left: seq<bv8>, cp: bv32, state: nat)
    requires AllPieces(from, us) && EndsWith(from, to, tail, e) && (e.CutOff? || e.Broken?) && (e.CutOff? ==> from == Utf8)
    requires Position(from, us, tail, e, |us|, j, left, cp, state) && left != []
    ensures Leads(from, us, tail, e, |us|, j, left, From(from, left, cp, state))
  {
    assert left == tail[j..];
    EndStep(from, to, tail, e, j, left, cp, state);
  }

  lemma {:induction false} StuckStays(from: Encoding, to: Encoding, us: seq<seq<bv8>>, tail: seq<bv8>, e: End, j: nat,
                                      left: seq<bv8>, cp: bv32, state: nat)
    requires EndsWith(from, to, tail, e) && Stuck(from, us, e, |us|)
    requires Position(from, us, tail, e, |us|, j, left, cp, state)
    ensures From(from, left, cp, state) == More(0, cp, state)
  {
    assert left == tail[0..] == tail;
    StallsExactly(from, left, cp);
  }

  /** A code point has just been read behind k pieces: that of the next, or one that is too large. */
  ghost predicate CharRead(from: Encoding, to: Encoding, us: seq<seq<bv8>>, tail: seq<bv8>, e: End, k: nat,
                           left: seq<bv8>, cp: bv32)
    requires AllPieces(from, us)
  {
    && k <= |us|
    && (k < |us| ==> cp == Cp(from, us[k]) && Position(from, us, tail, e, k + 1, 0, left, cp, 0))
    && (k == |us| ==> e.TooLarge? && !Holds(to, cp) && left == Unread(tail, e))
  }

  /** With no input left the pieces are all behind, and at most a cut-off sequence is pending. */
  lemma {:induction false} AtEnd(from: Encoding, to: Encoding, us: seq<seq<bv8>>, tail: seq<bv8>, e: End, k: nat, j: nat,
                                 cp: bv32, state: nat)
    requires AllPieces(from, us) && EndsWith(from, to, tail, e)
    requires Position(from, us, tail, e, k, j, [], cp, state)
    ensures k == |us| && (e.Clean? || e.CutOff?)
    ensures state == if e.CutOff? && j > 0 then Need(tail[0]) - |tail| else 0
    ensures e.CutOff? ==> j > 0
  {
    var c := Chunk(us, tail, e, k);
    assert c[j..] == [];
  }

  /** Scalar k no longer fits. */
  ghost predicate NoRoom(outs: seq<seq<bv8>>, k: nat, room: nat)
    requires k < |outs|
  {
    room < |Flat(outs[..k])| + |outs[k]|
  }

  /** A conversion that ran out of room had less than the whole result needs. */
  lemma {:induction false} NoRoomForAll(outs: seq<seq<bv8>>, k: nat, room: nat)
    requires k < |outs| && NoRoom(outs, k, room)
    ensures room < |Flat(outs)|
  {
    FlatPrefix(outs, k);
    FlatGrows(outs, k + 1);
  }

  /** Between two turns: r pieces and j bytes are read, and the r pieces are written. */
  ghost predicate Underway(from: Encoding, to: Encoding, us: seq<seq<bv8>>, tail: seq<bv8>, e: End, room: nat,
                           r: nat, j: nat, left: seq<bv8>, out: seq<bv8>, cp: bv32, state: nat)
    requires AllPieces(from, us) && AllHeld(from, to, us)
  {
    && Position(from, us, tail, e, r, j, left, cp, state)
    && out == Flat(Outs(from, to, us)[..r]) && |out| <= room
  }

  /** What a call that resumes inside a UTF-8 sequence takes the missing bytes for: a first byte without any bits. */
  function Pending(state: nat): seq<bv8> {
    match state
    case 1 => [0xC0]
    case 2 => [0xE0]
    case 3 => [0xF0]
    case _ => []
  }

  /** The states a descriptor can be in between two calls. */
  predicate Resumable(from: Encoding, state: nat) { state <= 3 && (state > 0 ==> from == Utf8) }

  lemma PendingLead(state: nat)
    requires 1 <= state <= 3
    ensures |Pending(state)| == 1 && Need(Pending(state)[0]) == state + 1 && LeadBits(Pending(state)[0]) == 0
  {
  }

  lemma Begun(from: Encoding, to: Encoding, us: seq<seq<bv8>>, tail: seq<bv8>, e: End, room: nat, input: seq<bv8>, state: nat)
    requires AllPieces(from, us) && AllHeld(from, to, us) && Resumable(from, state)
    requires Pending(state) + input == Flat(us) + tail && EndsWith(from, to, tail, e)
    ensures Underway(from, to, us, tail, e, room, 0, |Pending(state)|, input, [], 0, state)
  {
    var all := Pending(state) + input;
    assert us[0..] == us;
    AtBoundary(from, to, us, tail, e, 0, all, 0);
    if state > 0 {
      PendingLead(state);
      Resumed(from, us, tail, e, state, all, input);
    } else {
      assert all == input;
    }
  }

  lemma Resumed(from: Encoding, us: seq<seq<bv8>>, tail: seq<bv8>, e: End, state: nat, all: seq<bv8>, input: seq<bv8>)
    requires Position(from, us, tail, e, 0, 0, all, 0, 0) && (us != [] ==> us[0] != []) && (e.TooLarge? ==> e.piece != [])
    requires e.Clean? ==> tail == []
    requires from == Utf8 && 1 <= state <= 3 && all != [] && all[1..] == input
    requires Need(all[0]) == state + 1 && LeadBits(all[0]) == 0
    ensures Position(from, us, tail, e, 0, 1, input, 0, state)
  {
    var c := Chunk(us, tail, e, 0);
    Drop(c, 0, After(us, tail, e, 0), all);
    assert Value(c, 1) == LeadBits(c[0]);
  }

  /** A loop that does not stall is never stuck. */
  lemma NotStuck(from: Encoding, to: Encoding, us: seq<seq<bv8>>, tail: seq<bv8>, e: End, room: nat,
                 r: nat, j: nat, left: seq<bv8>, out: seq<bv8>, cp: bv32, state: nat)
    requires AllPieces(from, us) && AllHeld(from, to, us)
    requires Underway(from, to, us, tail, e, room, r, j, left, out, cp, state)
    ensures Stuck(from, us, e, r) ==> Stalls(from, to, us, e, room)
  {
    var outs := Outs(from, to, us);
    assert outs[..|us|] == outs;
  }

  /** How a conversion ends: what it returns, what it has written, what it leaves, and its state. */
  ghost predicate Finished(from: Encoding, to: Encoding, us: seq<seq<bv8>>, tail: seq<bv8>, e: End, room: nat,
                           r: int, out: seq<bv8>, left: seq<bv8>, state: nat)
    requires AllPieces(from, us) && AllHeld(from, to, us)
  {
    var outs := Outs(from, to, us);
    && -1 <= r <= |us| && |out| <= room
    && (r == -1 ==> (e.Broken? || e.TooLarge?) && out == Flat(outs) && left == Unread(tail, e) && state == 0)
    && (r == |us| ==> (e.Clean? || e.CutOff?) && out == Flat(outs) && left == [])
    && (r == |us| ==> state == if e.CutOff? && tail != [] then Need(tail[0]) - |tail| else 0)
    && (0 <= r < |us| ==> out == Flat(outs[..r]) && left == Flat(us[r + 1..]) + tail && state == 0 && NoRoom(outs, r, room))
    && (|Flat(outs)| <= room ==> r == if e.Clean? || e.CutOff? then |us| else -1)
  }

  lemma FinishFull(from: Encoding, to: Encoding, us: seq<seq<bv8>>, tail: seq<bv8>, e: End, room: nat,
                   r: nat, out: seq<bv8>, left: seq<bv8>, cp: bv32)
    requires AllPieces(from, us) && AllHeld(from, to, us) && EndsWith(from, to, tail, e)
    requires r < |us| && out == Flat(Outs(from, to, us)[..r]) && |out| <= room && NoRoom(Outs(from, to, us), r, room)
    requires Position(from, us, tail, e, r + 1, 0, left, cp, 0)
    ensures Finished(from, to, us, tail, e, room, r, out, left, 0)
  {
    NoRoomForAll(Outs(from, to, us), r, room);
    LeftAtBoundary(from, to, us, tail, e, r + 1, left, cp);
  }

  lemma FinishFailed(from: Encoding, to: Encoding, us: seq<seq<bv8>>, tail: seq<bv8>, e: End, room: nat,
                     out: seq<bv8>, left: seq<bv8>)
    requires AllPieces(from, us) && AllHeld(from, to, us) && (e.Broken? || e.TooLarge?)
    requires out == Flat(Outs(from, to, us)[..|us|]) && |out| <= room && left == Unread(tail, e)
    ensures Finished(from, to, us, tail, e, room, -1, out, left, 0)
  {
    var outs := Outs(from, to, us);
    assert outs[..|us|] == outs;
  }

  lemma FinishEnd(from: Encoding, to: Encoding, us: seq<seq<bv8>>, tail: seq<bv8>, e: End, room: nat,
                  r: nat, j: nat, out: seq<bv8>, cp: bv32, state: nat)
    requires AllPieces(from, us) && AllHeld(from, to, us) && EndsWith(from, to, tail, e)
    requires Underway(from, to, us, tail, e, room, r, j, [], out, cp, state)
    ensures Finished(from, to, us, tail, e, room, r, out, [], state)
  {
    AtEnd(from, to, us, tail, e, r, j, cp, state);
    var outs := Outs(from, to, us);
    assert outs[..|us|] == outs;
  }

  // ---------------------------------------------------------------- the conversion

  class Descriptor {
    const from: Encoding
    const to: Encoding
    var state: nat

    constructor (from: Encoding, to: Encoding)
      ensures this.from == from && this.to == to && state == 0
    {
      this.from, this.to, state := from, to, 0;
    }

    /** The decoder's turn, with k pieces and j bytes behind. */
    method Read(left: seq<bv8>, cp: bv32, ghost us: seq<seq<bv8>>, ghost tail: seq<bv8>, ghost e: End, ghost k: nat,
                ghost j: nat) returns (p: Parsed, rest: seq<bv8>)
      requires AllPieces(from, us) && EndsWith(from, to, tail, e)
      requires Position(from, us, tail, e, k, j, left, cp, state) && left != []
      modifies this
      ensures p.Bad? ==> e.Broken? && k == |us| && rest == Unread(tail, e) && state == 0
      ensures Stuck(from, us, e, k) ==> p.More? && rest == left
      ensures !p.Bad? && !Stuck(from, us, e, k) ==> |rest| < |left|
      ensures p.More? ==> Position(from, us, tail, e, k, if Stuck(from, us, e, k) then j else j + 1, rest, p.cp, state)
      ensures p.Char? ==> state == 0 && CharRead(from, to, us, tail, e, k, rest, p.cp)
    {
      if k < |us| {
        PieceLeads(from, to, us, tail, e, k, j, left, cp, state);
      } else if e.TooLarge? {
        LastLeads(from, to, us, tail, e, j, left, cp, state);
      } else if e.CutOff? && from != Utf8 {
        StuckStays(from, to, us, tail, e, j, left, cp, state);
      } else {
        EndLeads(from, to, us, tail, e, j, left, cp, state);
      }
      p := From(from, left, cp, state);
      if p.Bad? {
        state, rest := 0, left;
      } else {
        state, rest := p.state, left[p.used..];
      }
    }

    /** The encoder's turn at the code point that has been read behind k pieces. */
    method Emit(room: nat, cp: bv32, out: seq<bv8>, ghost us: seq<seq<bv8>>, ghost k: nat) returns (emitted: Emitted)
      requires AllPieces(from, us) && AllHeld(from, to, us) && k <= |us|
      requires if k < |us| then cp == Cp(from, us[k]) else !Holds(to, cp)
      requires out == Flat(Outs(from, to, us)[..k]) && |out| <= room
      ensures emitted.Unencodable? <==> k == |us|
      ensures emitted.Full? ==> NoRoom(Outs(from, to, us), k, room)
      ensures emitted.Bytes? ==>
        out + emitted.bytes == Flat(Outs(from, to, us)[..k + 1]) && |out| + |emitted.bytes| <= room
    {
      emitted := To(to, room - |out|, cp);
      ToIsRaw(to, room - |out|, cp);
      if k < |us| {
        ghost var outs := Outs(from, to, us);
        assert outs[k] == Raw(to, cp);
        FlatPrefix(outs, k);
      }
    }

    /** What iconv does with a code point: write it, stop for lack of room, or fail. */
    method Put(left: seq<bv8>, cp: bv32, room: nat, r: nat, out: seq<bv8>,
               ghost us: seq<seq<bv8>>, ghost tail: seq<bv8>, ghost e: End)
      returns (done: bool, r': int, out': seq<bv8>)
      requires AllPieces(from, us) && AllHeld(from, to, us) && EndsWith(from, to, tail, e)
      requires CharRead(from, to, us, tail, e, r, left, cp)
      requires r <= |us| && out == Flat(Outs(from, to, us)[..r]) && |out| <= room
      ensures done ==> Finished(from, to, us, tail, e, room, r', out', left, 0)
      ensures done ==> r' == -1 || r' < |us|
      ensures !done ==> r' >= 0 && Underway(from, to, us, tail, e, room, r', 0, left, out', cp, 0)
    {
      done, r', out' := true, r, out;
      var emitted := Emit(room, cp, out, us, r);
      match emitted {
        case Full =>
          FinishFull(from, to, us, tail, e, room, r, out, left, cp);
        case Unencodable =>
          FinishFailed(from, to, us, tail, e, room, out, left);
          r' := -1;
        case Bytes(b) =>
          done, r', out' := false, r + 1, out + b;
      }
    }

    /** One turn of iconv's loop; `done` when it returns from there. */
    method Turn(left: seq<bv8>, cp: bv32, room: nat, r: nat, out: seq<bv8>,
                ghost us: seq<seq<bv8>>, ghost tail: seq<bv8>, ghost e: End, ghost j: nat)
      returns (done: bool, left': seq<bv8>, cp': bv32, r': int, out': seq<bv8>, ghost j': nat)
      requires AllPieces(from, us) && AllHeld(from, to, us)
      requires EndsWith(from, to, tail, e)
      requires Underway(from, to, us, tail, e, room, r, j, left, out, cp, state) && left != []
      modifies this
      ensures done ==> Finished(from, to, us, tail, e, room, r', out', left', state) && (r' == -1 || r' < |us|)
      ensures !done ==> r' >= 0 && Underway(from, to, us, tail, e, room, r', j', left', out', cp', state)
      ensures !done && !Stuck(from, us, e, r) ==> |left'| < |left|
    {
      var p;
      done, cp', r', out', j' := true, cp, r, out, 0;
      p, left' := Read(left, cp, us, tail, e, r, j);
      if p.Bad? {
        FinishFailed(from, to, us, tail, e, room, out, left');
        r' := -1;
      } else if p.More? {
        done, cp', j' := false, p.cp, if Stuck(from, us, e, r) then j else j + 1;
      } else {
        cp' := p.cp;
        done, r', out' := Put(left', cp', room, r, out, us, tail, e);
      }
    }

    /**
     * iconv on pieces that the target holds and one of the four ends, with room bytes of
     * output, where the loop does not stall. The result is the number of characters written, or -1 behind the pieces when
     * the end is broken or too large; a cut-off sequence is read and stays pending in the
     * state. The character that no longer fits is lost: it has already been read.
     */
    method Iconv(input: seq<bv8>, room: nat, ghost us: seq<seq<bv8>>, ghost tail: seq<bv8>, ghost e: End)
      returns (r: int, out: seq<bv8>, left: seq<bv8>)
      requires Resumable(from, state) && AllPieces(from, us) && AllHeld(from, to, us)
      requires Pending(state) + input == Flat(us) + tail
      requires EndsWith(from, to, tail, e) && !Stalls(from, to, us, e, room)
      modifies this
      ensures Finished(from, to, us, tail, e, room, r, out, left, state) && Resumable(from, state)
    {
      var cp: bv32, done := 0, false;
      r, out, left := 0, [], input;
      ghost var j: nat := |Pending(state)|;
      Begun(from, to, us, tail, e, room, left, state);
      while left != []
        invariant r >= 0 && Underway(from, to, us, tail, e, room, r, j, left, out, cp, state)
        decreases |left|
      {
        NotStuck(from, to, us, tail, e, room, r, j, left, out, cp, state);
        done, left, cp, r, out, j := Turn(left, cp, room, r, out, us, tail, e, j);
        if done {
          return;
        }
      }
      FinishEnd(from, to, us, tail, e, room, r, j, out, cp, state);
    }

    /**
     * The first n turns of iconv's loop. It has ended after as many turns as there are bytes,
     * unless it stalls: then it has not ended after any number of them.
     */
    method FirstTurns(input: seq<bv8>, room: nat, n: nat, ghost us: seq<seq<bv8>>, ghost tail: seq<bv8>, ghost e: End)
      returns (ended: bool)
      requires Resumable(from, state) && AllPieces(from, us) && AllHeld(from, to, us)
      requires Pending(state) + input == Flat(us) + tail
      requires EndsWith(from, to, tail, e)
      modifies this
      ensures Stalls(from, to, us, e, room) ==> !ended
      ensures n >= |input| && !Stalls(from, to, us, e, room) ==> ended
    {
      var cp: bv32, turns, r, out, left := 0, 0, 0, [], input;
      ghost var j: nat := |Pending(state)|;
      Begun(from, to, us, tail, e, room, left, state);
      while turns < n && left != []
        invariant turns <= n && r >= 0 && Underway(from, to, us, tail, e, room, r, j, left, out, cp, state)
        invariant !Stalls(from, to, us, e, room) ==> |left| + turns <= |input|
      {
        NotStuck(from, to, us, tail, e, room, r, j, left, out, cp, state);
        ended, left, cp, r, out, j := Turn(left, cp, room, r, out, us, tail, e, j);
        if ended {
          return;
        }
        turns := turns + 1;
      }
      ended := left == [];
      if ended {
        AtEnd(from, to, us, tail, e, r, j, cp, state);
      }
    }
  }

  /** UTF-16 cut off behind the A of 41 00 42 does not stall when not even the A fits. */
  method CutOffYetEnds() returns (r: int, left: seq<bv8>)
    ensures r == 0 && left == [0x42]
  {
    var d := new Descriptor(Utf16le, Encoding.Utf8);
    ghost var us := [[0x41 as bv8, 0x00]];
    ghost var outs := Outs(Utf16le, Encoding.Utf8, us);
    assert us[1..] == [] && outs[1..] == [] && Flat(outs) == outs[0] + [] && outs[..0] == [];
    var out;
    r, out, left := d.Iconv([0x41, 0x00, 0x42], 0, us, [0x42], CutOff);
  }
}
