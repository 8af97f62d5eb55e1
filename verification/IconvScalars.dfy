/**
 * What iconv does on Unicode scalars in the standard encoding forms, and where its own
 * idea of UTF-8, UTF-16 and UTF-32 is wider than the standards'.
 */
module IconvScalars {

  import opened Utf8
  import opened Iconv
  import U = Utf16Stream

  // ---------------------------------------------------------------- the encoding forms

  /** A unit with its low byte first. */
  function LittleEndian(u: bv16): seq<bv8> { [(u & 0xFF) as bv8, (u >> 8) as bv8] }

  function LittleEndianAll(us: seq<bv16>): (b: seq<bv8>)
    ensures |b| == 2 * |us|
  {
    if us == [] then [] else LittleEndian(us[0]) + LittleEndianAll(us[1..])
  }

  /** The encoding form of a scalar: UTF-8 and UTF-16 are those of wcrtomb and mbrtoc16. */
  function Code(enc: Encoding, wc: bv32): (b: seq<bv8>)
    requires Scalar(wc)
    ensures 1 <= |b| <= 4
  {
    match enc
    case Ascii => [Byte(wc)]
    case Utf8 => Encode(wc)
    case Utf16le => LittleEndianAll(U.Units(wc))
    case Utf32le => [Byte(wc), Byte(wc >> 8), Byte(wc >> 16), Byte(wc >> 24)]
  }

  /** The scalars an encoding can be read back from; the single-byte one has 256. */
  predicate Readable(enc: Encoding, wc: bv32) { Scalar(wc) && (enc == Ascii ==> wc < 0x100) }

  predicate AllReadable(enc: Encoding, ws: Wide) { forall i :: 0 <= i < |ws| ==> Readable(enc, ws[i]) }

  predicate Scalars(ws: Wide) { forall i :: 0 <= i < |ws| ==> Scalar(ws[i]) }

  function Codes(enc: Encoding, ws: Wide): (o: seq<seq<bv8>>)
    requires Scalars(ws)
    ensures |o| == |ws| && forall i :: 0 <= i < |ws| ==> o[i] == Code(enc, ws[i])
  {
    seq(|ws|, i requires 0 <= i < |ws| => Code(enc, ws[i]))
  }

  /** The encoding form of a string of scalars. */
  function CodeAll(enc: Encoding, ws: Wide): seq<bv8>
    requires Scalars(ws)
  {
    Flat(Codes(enc, ws))
  }

  // ---------------------------------------------------------------- encoding one scalar

  lemma Halves(x: bv32)
    requires x < 0x10000
    ensures (U.Low16(x) & 0xFF) as bv8 == Byte(x) && (U.Low16(x) >> 8) as bv8 == Byte(x >> 8)
  {
  }

  lemma Halved(x: bv32)
    requires x < 0x10000
    ensures LittleEndian(U.Low16(x)) == [Byte(x), Byte(x >> 8)]
  {
    Halves(x);
  }

  lemma SurrogateRange(wc: bv32, hi: bv32, lo: bv32)
    requires 0x10000 <= wc <= 0x10FFFF
    requires hi == 0xD800 | ((wc - 0x10000) >> 10) && lo == 0xDC00 | ((wc - 0x10000) & 0x3FF)
    ensures hi < 0x10000 && lo < 0x10000
  {
  }

  lemma OneUnit(u: bv16)
    ensures LittleEndianAll([u]) == LittleEndian(u)
  {
    assert [u][1..] == [];
  }

  lemma TwoUnits(u: bv16, l: bv16)
    ensures LittleEndianAll([u, l]) == LittleEndian(u) + LittleEndian(l)
  {
    assert [u, l][1..] == [l];
    OneUnit(l);
  }

  /** The encoder writes the encoding form of every scalar, or nothing when it does not fit. */
  lemma ToIsCode(enc: Encoding, room: nat, wc: bv32)
    requires Scalar(wc)
    ensures To(enc, room, wc) == Fit(room, Code(enc, wc)) && Holds(enc, wc)
  {
    match enc {
      case Ascii =>
      case Utf8 =>
      case Utf16le => ToIsUnits(room, wc);
      case Utf32le =>
    }
  }

  lemma ToIsUnits(room: nat, wc: bv32)
    requires Scalar(wc)
    ensures ToUtf16(room, wc) == Fit(room, LittleEndianAll(U.Units(wc)))
  {
    if wc < 0x10000 {
      Halved(wc);
      OneUnit(U.Low16(wc));
    } else {
      ToIsSurrogates(room, wc, 0xD800 | ((wc - 0x10000) >> 10), 0xDC00 | ((wc - 0x10000) & 0x3FF));
    }
  }

  lemma ToIsSurrogates(room: nat, wc: bv32, hi: bv32, lo: bv32)
    requires 0x10000 <= wc <= 0x10FFFF
    requires hi == 0xD800 | ((wc - 0x10000) >> 10) && lo == 0xDC00 | ((wc - 0x10000) & 0x3FF)
    ensures ToUtf16(room, wc) == Fit(room, LittleEndianAll(U.Units(wc)))
  {
    SurrogateRange(wc, hi, lo);
    SurrogatesOf(room, wc, hi, lo);
    ToIsPair(hi, lo);
  }

  lemma SurrogatesOf(room: nat, wc: bv32, hi: bv32, lo: bv32)
    requires 0x10000 <= wc <= 0x10FFFF
    requires hi == 0xD800 | ((wc - 0x10000) >> 10) && lo == 0xDC00 | ((wc - 0x10000) & 0x3FF)
    ensures U.Units(wc) == [U.Low16(hi), U.Low16(lo)] && ToUtf16(room, wc) == Fit(room, PairBytes(hi, lo))
  {
  }

  lemma ToIsPair(hi: bv32, lo: bv32)
    requires hi < 0x10000 && lo < 0x10000
    ensures LittleEndianAll([U.Low16(hi), U.Low16(lo)]) == PairBytes(hi, lo)
  {
    Halved(hi);
    Halved(lo);
    TwoUnits(U.Low16(hi), U.Low16(lo));
  }

  // ---------------------------------------------------------------- what the encoder writes is read back

  lemma Shifts(wc: bv32)
    ensures (wc >> 6) >> 6 == wc >> 12 && (wc >> 12) >> 6 == wc >> 18
  {
  }

  lemma Lead2(wc: bv32)
    requires 0x80 <= wc < 0x800
    ensures var b := Byte(0xC0 | (wc >> 6)); b > 0x7F && b & 0xE0 == 0xC0 && (b & 0x1F) as bv32 == wc >> 6
  {
  }

  lemma Lead3(wc: bv32)
    requires 0x800 <= wc < 0x10000
    ensures var b := Byte(0xE0 | (wc >> 12));
            b > 0x7F && b & 0xE0 != 0xC0 && b & 0xF0 == 0xE0 && (b & 0x0F) as bv32 == wc >> 12
  {
  }

  lemma Lead4(wc: bv32)
    requires 0x10000 <= wc <= 0x10FFFF
    ensures var b := Byte(0xF0 | (wc >> 18));
            && b > 0x7F && b & 0xE0 != 0xC0 && b & 0xF0 != 0xE0 && b & 0xF8 == 0xF0
            && (b & 0x07) as bv32 == wc >> 18
  {
  }

  lemma Group6(x: bv32, y: bv32)
    requires x == y >> 6
    ensures Append6(x, Part(y)) == y && Part(y) & 0xC0 == 0x80
  {
  }

  lemma Join16(x: bv32)
    requires x < 0x10000
    ensures Word16(Byte(x), Byte(x >> 8)) == x
  {
  }

  lemma Join32(wc: bv32)
    ensures Word32(Byte(wc), Byte(wc >> 8), Byte(wc >> 16), Byte(wc >> 24)) == wc
  {
  }

  lemma LeadOf(b: bv8)
    ensures b & 0xE0 == 0xC0 && b > 0x7F ==> Need(b) == 2 && LeadBits(b) == (b & 0x1F) as bv32
    ensures b & 0xE0 != 0xC0 && b & 0xF0 == 0xE0 && b > 0x7F ==> Need(b) == 3 && LeadBits(b) == (b & 0x0F) as bv32
    ensures b & 0xE0 != 0xC0 && b & 0xF0 != 0xE0 && b & 0xF8 == 0xF0 && b > 0x7F
      ==> Need(b) == 4 && LeadBits(b) == (b & 0x07) as bv32
  {
  }

  lemma Piece2(b: seq<bv8>, x: bv32, y: bv32)
    requires |b| == 2 && Need(b[0]) == 2 && LeadBits(b[0]) == x
    requires Append6(x, b[1]) == y && b[1] & 0xC0 == 0x80
    ensures IsPiece(Iconv.Utf8, b) && Cp(Iconv.Utf8, b) == y
  {
    assert Value(b, 1) == x;
  }

  lemma Piece3(b: seq<bv8>, x: bv32, y: bv32, z: bv32)
    requires |b| == 3 && Need(b[0]) == 3 && LeadBits(b[0]) == x
    requires Append6(x, b[1]) == y && Append6(y, b[2]) == z && b[1] & 0xC0 == 0x80 && b[2] & 0xC0 == 0x80
    ensures IsPiece(Iconv.Utf8, b) && Cp(Iconv.Utf8, b) == z
  {
    assert Value(b, 1) == x;
    assert Value(b, 2) == y;
  }

  lemma Piece4(b: seq<bv8>, x: bv32, y: bv32, z: bv32, v: bv32)
    requires |b| == 4 && Need(b[0]) == 4 && LeadBits(b[0]) == x
    requires Append6(x, b[1]) == y && Append6(y, b[2]) == z && Append6(z, b[3]) == v
    requires b[1] & 0xC0 == 0x80 && b[2] & 0xC0 == 0x80 && b[3] & 0xC0 == 0x80
    ensures IsPiece(Iconv.Utf8, b) && Cp(Iconv.Utf8, b) == v
  {
    assert Value(b, 1) == x;
    assert Value(b, 2) == y;
    assert Value(b, 3) == z;
  }

  lemma Raw8(cp: bv32)
    requires cp <= 0x10FFFF
    ensures Raw(Iconv.Utf8, cp)
         == if cp < 0x80 then [Byte(cp)]
            else if cp < 0x800 then [Byte(0xC0 | (cp >> 6)), Part(cp)]
            else if cp < 0x10000 then [Byte(0xE0 | (cp >> 12)), Part(cp >> 6), Part(cp)]
            else [Byte(0xF0 | (cp >> 18)), Part(cp >> 12), Part(cp >> 6), Part(cp)]
  {
  }

  lemma Reads2(cp: bv32, b: seq<bv8>)
    requires 0x80 <= cp < 0x800 && b == [Byte(0xC0 | (cp >> 6)), Part(cp)]
    ensures IsPiece(Iconv.Utf8, b) && Cp(Iconv.Utf8, b) == cp
  {
    LeadOf(b[0]);
    Lead2(cp);
    Group6(cp >> 6, cp);
    Piece2(b, cp >> 6, cp);
  }

  lemma Reads3(cp: bv32, b: seq<bv8>)
    requires 0x800 <= cp < 0x10000 && b == [Byte(0xE0 | (cp >> 12)), Part(cp >> 6), Part(cp)]
    ensures IsPiece(Iconv.Utf8, b) && Cp(Iconv.Utf8, b) == cp
  {
    LeadOf(b[0]);
    Lead3(cp);
    Group12(cp);
    Group6(cp >> 6, cp);
    Piece3(b, cp >> 12, cp >> 6, cp);
  }

  lemma Group18(cp: bv32)
    ensures Append6(cp >> 18, Part(cp >> 12)) == cp >> 12 && Part(cp >> 12) & 0xC0 == 0x80
  {
    Shifts(cp);
    Group6(cp >> 18, cp >> 12);
  }

  lemma Group12(cp: bv32)
    ensures Append6(cp >> 12, Part(cp >> 6)) == cp >> 6 && Part(cp >> 6) & 0xC0 == 0x80
  {
    Shifts(cp);
    Group6(cp >> 12, cp >> 6);
  }

  lemma Reads4(cp: bv32, b: seq<bv8>)
    requires 0x10000 <= cp <= 0x10FFFF && b == [Byte(0xF0 | (cp >> 18)), Part(cp >> 12), Part(cp >> 6), Part(cp)]
    ensures IsPiece(Iconv.Utf8, b) && Cp(Iconv.Utf8, b) == cp
  {
    LeadOf(b[0]);
    Lead4(cp);
    Group18(cp);
    Group12(cp);
    Group6(cp >> 6, cp);
    Piece4(b, cp >> 18, cp >> 12, cp >> 6, cp);
  }

  /** UTF-8 is read back for every code point up to the largest, surrogates included. */
  lemma Utf8ReadsBack(cp: bv32)
    requires cp <= 0x10FFFF
    ensures var b := Raw(Iconv.Utf8, cp); IsPiece(Iconv.Utf8, b) && Cp(Iconv.Utf8, b) == cp
  {
    var b := Raw(Iconv.Utf8, cp);
    Raw8(cp);
    if cp < 0x80 {
      AsciiBack(cp);
      OneByte(b, cp);
    } else if cp < 0x800 {
      Reads2(cp, b);
    } else if cp < 0x10000 {
      Reads3(cp, b);
    } else {
      Reads4(cp, b);
    }
  }

  lemma OneByte(b: seq<bv8>, cp: bv32)
    requires |b| == 1 && b[0] < 0x80 && b[0] as bv32 == cp
    ensures IsPiece(Iconv.Utf8, b) && Cp(Iconv.Utf8, b) == cp
  {
  }

  lemma OneWord(b: seq<bv8>, cp: bv32)
    requires |b| == 2 && Word16(b[0], b[1]) == cp && !Surrogate(cp)
    ensures IsPiece(Utf16le, b) && Cp(Utf16le, b) == cp
  {
  }

  lemma TwoWords(b: seq<bv8>, hi: bv32, lo: bv32, cp: bv32)
    requires |b| == 4 && Word16(b[0], b[1]) == hi && Word16(b[2], b[3]) == lo
    requires HighUnit(hi) && LowUnit(lo) && Pair(hi, lo) == cp
    ensures IsPiece(Utf16le, b) && Cp(Utf16le, b) == cp
  {
  }

  lemma HalvesPair(cp: bv32, hi: bv32, lo: bv32)
    requires 0x10000 <= cp <= 0x10FFFF
    requires hi == 0xD800 | ((cp - 0x10000) >> 10) && lo == 0xDC00 | ((cp - 0x10000) & 0x3FF)
    ensures HighUnit(hi) && LowUnit(lo) && Pair(hi, lo) == cp
  {
  }

  lemma Raw16Single(cp: bv32)
    requires cp < 0x10000
    ensures Raw(Utf16le, cp) == [Byte(cp), Byte(cp >> 8)]
  {
  }

  lemma Raw16Pair(cp: bv32, hi: bv32, lo: bv32)
    requires 0x10000 <= cp <= 0x10FFFF
    requires hi == 0xD800 | ((cp - 0x10000) >> 10) && lo == 0xDC00 | ((cp - 0x10000) & 0x3FF)
    ensures Raw(Utf16le, cp) == PairBytes(hi, lo)
  {
  }

  lemma SurrogateIsHighOrLow(cp: bv32)
    ensures HighUnit(cp) || LowUnit(cp) <==> Surrogate(cp)
  {
  }

  lemma PairReadsBack(cp: bv32, hi: bv32, lo: bv32)
    requires 0x10000 <= cp <= 0x10FFFF
    requires hi == 0xD800 | ((cp - 0x10000) >> 10) && lo == 0xDC00 | ((cp - 0x10000) & 0x3FF)
    ensures var b := Raw(Utf16le, cp); IsPiece(Utf16le, b) && Cp(Utf16le, b) == cp
  {
    Raw16Pair(cp, hi, lo);
    SurrogateRange(cp, hi, lo);
    HalvesPair(cp, hi, lo);
    Join16(hi);
    Join16(lo);
    TwoWords(Raw(Utf16le, cp), hi, lo, cp);
  }

  /** UTF-16 is read back exactly when the code point is no surrogate. */
  lemma Utf16ReadsBack(cp: bv32)
    requires cp <= 0x10FFFF
    ensures var b := Raw(Utf16le, cp);
            if Surrogate(cp) then !IsPiece(Utf16le, b) else IsPiece(Utf16le, b) && Cp(Utf16le, b) == cp
  {
    if cp < 0x10000 {
      Raw16Single(cp);
      Join16(cp);
      SurrogateIsHighOrLow(cp);
      if !Surrogate(cp) {
        OneWord(Raw(Utf16le, cp), cp);
      }
    } else {
      PairReadsBack(cp, 0xD800 | ((cp - 0x10000) >> 10), 0xDC00 | ((cp - 0x10000) & 0x3FF));
    }
  }

  lemma ByteReadsBack(cp: bv32)
    ensures Byte(cp) as bv32 == cp <==> cp < 0x100
  {
  }

  /** The code points an encoding gives back when it has been given them. */
  predicate Kept(enc: Encoding, cp: bv32) {
    match enc
    case Ascii => cp < 0x100
    case Utf16le => !Surrogate(cp)
    case _ => true
  }

  /** What iconv writes it reads back as the same code point exactly when the encoding keeps that. */
  lemma ReadsBackExactly(enc: Encoding, cp: bv32)
    requires Holds(enc, cp)
    ensures IsPiece(enc, Raw(enc, cp)) && Cp(enc, Raw(enc, cp)) == cp <==> Kept(enc, cp)
  {
    match enc {
      case Ascii => ByteReadsBack(cp);
      case Utf8 => Utf8ReadsBack(cp);
      case Utf16le => Utf16ReadsBack(cp);
      case Utf32le => Join32(cp);
    }
  }

  /** The encoding form of a scalar is one piece, standing for that scalar. */
  lemma CodeIsPiece(enc: Encoding, wc: bv32)
    requires Readable(enc, wc)
    ensures IsPiece(enc, Code(enc, wc)) && Cp(enc, Code(enc, wc)) == wc
    ensures Holds(enc, wc) && Raw(enc, wc) == Code(enc, wc)
  {
    ToIsCode(enc, 4, wc);
    ReadsBackExactly(enc, wc);
  }

  // ---------------------------------------------------------------- wider than the standards

  /** The least value that takes n bytes of UTF-8. */
  function Minimum(n: nat): bv32 {
    match n
    case 2 => 0x80
    case 3 => 0x800
    case 4 => 0x10000
    case _ => 0
  }

  lemma Value2(b: seq<bv8>)
    requires |b| == 2 && Need(b[0]) == 2
    ensures Value(b, 2) == Join2(b[0], b[1])
  {
    LeadOf(b[0]);
  }

  lemma Collect3(c: bv8, d: bv8, e: bv8)
    ensures Append6(Append6((c & 0x0F) as bv32, d), e) == Join3(c, d, e)
  {
  }

  lemma Value3(b: seq<bv8>)
    requires |b| == 3 && Need(b[0]) == 3
    ensures Value(b, 3) == Join3(b[0], b[1], b[2])
  {
    LeadOf(b[0]);
    Collect3(b[0], b[1], b[2]);
    assert Value(b, 1) == LeadBits(b[0]);
    assert Value(b, 2) == Append6(Value(b, 1), b[1]);
  }

  lemma Collect4(c: bv8, d: bv8, e: bv8, f: bv8)
    ensures Append6(Append6(Append6((c & 0x07) as bv32, d), e), f) == Join4(c, d, e, f)
  {
  }

  lemma Value4(b: seq<bv8>)
    requires |b| == 4 && Need(b[0]) == 4
    ensures Value(b, 4) == Join4(b[0], b[1], b[2], b[3])
  {
    LeadOf(b[0]);
    Collect4(b[0], b[1], b[2], b[3]);
    assert Value(b, 1) == LeadBits(b[0]);
    assert Value(b, 2) == Append6(Value(b, 1), b[1]);
    assert Value(b, 3) == Append6(Value(b, 2), b[2]);
  }

  /** mbrtowc on the bytes of a piece: its value, unless that is too small for the length or no scalar. */
  function Judged(len: nat, cp: bv32): Decoded {
    if Minimum(len) <= cp && Scalar(cp) then Done(if cp == 0 then 0 else len, cp) else Illegal
  }

  lemma Judge1(b: seq<bv8>, s: seq<bv8>, n: nat)
    requires |b| == 1 && Need(b[0]) == 1 && b <= s && 1 <= n
    ensures Mbrtowc(s, n) == Judged(1, Value(b, 1))
  {
    assert At(s, 0) == b[0];
    AsciiByte(b[0]);
  }

  lemma Judge2(b: seq<bv8>, s: seq<bv8>, n: nat)
    requires |b| == 2 && Need(b[0]) == 2 && Trails(b, 1, 2) && b <= s && 2 <= n
    ensures Mbrtowc(s, n) == Judged(2, Value(b, 2))
  {
    assert At(s, 0) == b[0] && At(s, 1) == b[1];
    Value2(b);
    Judged2(b[0], b[1], Join2(b[0], b[1]));
  }

  lemma Judged2(c: bv8, d: bv8, wc: bv32)
    requires wc == Join2(c, d)
    ensures Judged(2, wc) == if wc < 0x80 then Illegal else Done(2, wc)
  {
    assert wc < 0x800;
  }

  lemma Judge3(b: seq<bv8>, s: seq<bv8>, n: nat)
    requires |b| == 3 && Need(b[0]) == 3 && Trails(b, 1, 3) && b <= s && 3 <= n
    ensures Mbrtowc(s, n) == Judged(3, Value(b, 3))
  {
    assert At(s, 0) == b[0] && At(s, 1) == b[1] && At(s, 2) == b[2];
    Value3(b);
    Judged3(b[0], b[1], b[2], Join3(b[0], b[1], b[2]));
  }

  lemma Judged3(c: bv8, d: bv8, e: bv8, wc: bv32)
    requires wc == Join3(c, d, e)
    ensures Judged(3, wc) == if wc < 0x800 || (wc >= 0xD800 && wc <= 0xDFFF) then Illegal else Done(3, wc)
  {
    assert wc < 0x10000;
  }

  lemma Judge4(b: seq<bv8>, s: seq<bv8>, n: nat)
    requires |b| == 4 && Need(b[0]) == 4 && Trails(b, 1, 4) && b <= s && 4 <= n
    ensures Mbrtowc(s, n) == Judged(4, Value(b, 4))
  {
    assert At(s, 0) == b[0] && At(s, 1) == b[1] && At(s, 2) == b[2] && At(s, 3) == b[3];
    Value4(b);
  }

  /**
   * iconv takes a lead byte and its continuation bytes for a character whatever they say;
   * mbrtowc takes the same bytes for the same character exactly when it is not too small for
   * them, no surrogate and at most 0x10FFFF, and refuses them otherwise.
   */
  lemma PieceAgainstMbrtowc(b: seq<bv8>, s: seq<bv8>, n: nat)
    requires IsPiece(Iconv.Utf8, b) && b <= s && |b| <= n
    ensures Mbrtowc(s, n) == Judged(|b|, Cp(Iconv.Utf8, b))
  {
    match |b| {
      case 1 => Judge1(b, s, n);
      case 2 => Judge2(b, s, n);
      case 3 => Judge3(b, s, n);
      case 4 => Judge4(b, s, n);
    }
  }

  /** An overlong zero and an encoded surrogate, both refused by mbrtowc and both taken by iconv. */
  lemma IllFormedPieces()
    ensures IsPiece(Iconv.Utf8, [0xC0, 0x80]) && Cp(Iconv.Utf8, [0xC0, 0x80]) == 0
    ensures IsPiece(Iconv.Utf8, [0xED, 0xA0, 0x80]) && Cp(Iconv.Utf8, [0xED, 0xA0, 0x80]) == 0xD800
    ensures Mbrtowc([0xC0, 0x80], 2) == Illegal && Mbrtowc([0xED, 0xA0, 0x80], 3) == Illegal
    ensures Raw(Utf16le, 0xD800) == [0x00, 0xD8]
  {
    Piece2([0xC0, 0x80], 0, 0);
    Piece3([0xED, 0xA0, 0x80], 0xD, 0x360, 0xD800);
    PieceAgainstMbrtowc([0xC0, 0x80], [0xC0, 0x80], 2);
    PieceAgainstMbrtowc([0xED, 0xA0, 0x80], [0xED, 0xA0, 0x80], 3);
  }

  /** What a piece must satisfy to be the encoding form of a scalar. */
  predicate Proper(enc: Encoding, b: seq<bv8>)
    requires IsPiece(enc, b)
  {
    match enc
    case Utf8 => Minimum(|b|) <= Cp(enc, b) && Scalar(Cp(enc, b))
    case Utf32le => Scalar(Cp(enc, b))
    case _ => true
  }

  lemma SplitBytes(a: bv8, b: bv8, c: bv8, d: bv8)
    ensures var w := Word32(a, b, c, d); Byte(w) == a && Byte(w >> 8) == b && Byte(w >> 16) == c && Byte(w >> 24) == d
  {
  }

  lemma Split16(a: bv8, b: bv8)
    ensures var w := Word16(a, b); w < 0x10000 && Byte(w) == a && Byte(w >> 8) == b
  {
  }

  lemma SplitPair(hi: bv32, lo: bv32, cp: bv32)
    requires HighUnit(hi) && LowUnit(lo) && cp == Pair(hi, lo)
    ensures 0x10000 <= cp <= 0x10FFFF
    ensures hi == 0xD800 | ((cp - 0x10000) >> 10) && lo == 0xDC00 | ((cp - 0x10000) & 0x3FF)
  {
  }

  lemma SingleIsCode(b: seq<bv8>, cp: bv32)
    requires |b| == 2 && cp < 0x10000 && Byte(cp) == b[0] && Byte(cp >> 8) == b[1] && Scalar(cp)
    ensures Code(Utf16le, cp) == b
  {
    ToIsCode(Utf16le, 4, cp);
    Raw16Single(cp);
  }

  lemma PairIsCode(b: seq<bv8>, hi: bv32, lo: bv32, cp: bv32)
    requires |b| == 4 && Byte(hi) == b[0] && Byte(hi >> 8) == b[1] && Byte(lo) == b[2] && Byte(lo >> 8) == b[3]
    requires HighUnit(hi) && LowUnit(lo) && cp == Pair(hi, lo)
    ensures Scalar(cp) && Code(Utf16le, cp) == b
  {
    SplitPair(hi, lo, cp);
    PairIsScalar(cp);
    PairCode(cp, hi, lo);
  }

  lemma PairCode(cp: bv32, hi: bv32, lo: bv32)
    requires Scalar(cp) && 0x10000 <= cp <= 0x10FFFF
    requires hi == 0xD800 | ((cp - 0x10000) >> 10) && lo == 0xDC00 | ((cp - 0x10000) & 0x3FF)
    ensures Code(Utf16le, cp) == PairBytes(hi, lo)
  {
    ToIsCode(Utf16le, 4, cp);
    Raw16Pair(cp, hi, lo);
  }

  lemma UnitIsScalar(u: bv32)
    requires u < 0x10000 && !HighUnit(u) && !LowUnit(u)
    ensures Scalar(u)
  {
  }

  lemma Utf16PieceIsCode(b: seq<bv8>)
    requires IsPiece(Utf16le, b)
    ensures Scalar(Cp(Utf16le, b)) && Code(Utf16le, Cp(Utf16le, b)) == b
  {
    Split16(b[0], b[1]);
    if |b| == 2 {
      UnitIsScalar(Word16(b[0], b[1]));
      SingleIsCode(b, Word16(b[0], b[1]));
    } else {
      Split16(b[2], b[3]);
      PairIsCode(b, Word16(b[0], b[1]), Word16(b[2], b[3]), Cp(Utf16le, b));
    }
  }

  lemma PairIsScalar(cp: bv32)
    requires 0x10000 <= cp <= 0x10FFFF
    ensures Scalar(cp)
  {
  }

  lemma Utf8PieceIsCode(b: seq<bv8>)
    requires IsPiece(Iconv.Utf8, b) && Proper(Iconv.Utf8, b)
    ensures Scalar(Cp(Iconv.Utf8, b)) && Code(Iconv.Utf8, Cp(Iconv.Utf8, b)) == b
  {
    var cp := Cp(Iconv.Utf8, b);
    PieceAgainstMbrtowc(b, b, |b|);
    EncodeDecoded(b, |b|);
    if cp == 0 {
      ZeroPiece(b);
    } else {
      assert b[..|b|] == b;
    }
  }

  lemma ZeroPiece(b: seq<bv8>)
    requires IsPiece(Iconv.Utf8, b) && Proper(Iconv.Utf8, b) && Cp(Iconv.Utf8, b) == 0
    ensures b == [0] && Encode(0) == [0]
  {
    assert |b| == 1;
    AsciiByte(b[0]);
  }

  lemma ImproperIsNoCode(b: seq<bv8>, cp: bv32)
    requires IsPiece(Iconv.Utf8, b) && cp == Cp(Iconv.Utf8, b) && Scalar(cp) && Encode(cp) == b
    ensures Proper(Iconv.Utf8, b)
  {
    DecodeEncoded(cp, b, |b|);
    PieceAgainstMbrtowc(b, b, |b|);
  }

  lemma Utf8Exactly(b: seq<bv8>)
    requires IsPiece(Iconv.Utf8, b)
    ensures Scalar(Cp(Iconv.Utf8, b)) && Code(Iconv.Utf8, Cp(Iconv.Utf8, b)) == b <==> Proper(Iconv.Utf8, b)
  {
    if Proper(Iconv.Utf8, b) {
      Utf8PieceIsCode(b);
    } else if Scalar(Cp(Iconv.Utf8, b)) && Code(Iconv.Utf8, Cp(Iconv.Utf8, b)) == b {
      ImproperIsNoCode(b, Cp(Iconv.Utf8, b));
    }
  }

  lemma Utf32Exactly(b: seq<bv8>)
    requires IsPiece(Utf32le, b)
    ensures Scalar(Cp(Utf32le, b)) && Code(Utf32le, Cp(Utf32le, b)) == b <==> Proper(Utf32le, b)
  {
    SplitBytes(b[0], b[1], b[2], b[3]);
  }

  lemma AsciiExactly(b: seq<bv8>)
    requires IsPiece(Ascii, b)
    ensures Scalar(Cp(Ascii, b)) && Code(Ascii, Cp(Ascii, b)) == b
  {
    AsciiByte2(b[0]);
  }

  /** Exactly the proper pieces are the encoding form of the scalar they stand for: all of UTF-16's are. */
  lemma PieceIsCodeExactly(enc: Encoding, b: seq<bv8>)
    requires IsPiece(enc, b)
    ensures Scalar(Cp(enc, b)) && Code(enc, Cp(enc, b)) == b <==> Proper(enc, b)
  {
    match enc {
      case Ascii => AsciiExactly(b);
      case Utf8 => Utf8Exactly(b);
      case Utf16le => Utf16PieceIsCode(b);
      case Utf32le => Utf32Exactly(b);
    }
  }

  lemma AsciiByte2(b: bv8)
    ensures Scalar(b as bv32) && Byte(b as bv32) == b
  {
  }

  // ---------------------------------------------------------------- input cut in two

  /** Two different beginnings stay different whatever follows; 26 bits are enough for all of them. */
  lemma AppendTells(x: bv32, y: bv32, b: bv8)
    requires x < 0x4000000 && y < 0x4000000
    ensures Append6(x, b) == Append6(y, b) <==> x == y
  {
  }

  lemma AppendGrows(x: bv32, b: bv8, limit: bv32)
    requires x < limit <= 0x80000
    ensures Append6(x, b) < limit << 6 && limit << 6 <= 0x2000000
  {
  }

  lemma ValueIsSmall(c: seq<bv8>, j: nat)
    requires 1 <= j <= |c| && j <= 3
    ensures Value(c, j) < (match j case 1 => 0x80 case 2 => 0x2000 case _ => 0x80000)
  {
    LeadIsSmall(c[0]);
    if j >= 2 {
      AppendGrows(Value(c, 1), c[1], 0x80);
    }
    if j == 3 {
      AppendGrows(Value(c, 2), c[2], 0x2000);
    }
  }

  lemma LeadIsSmall(b: bv8)
    ensures LeadBits(b) < 0x80
  {
  }

  /** A character of which j bytes were read by an earlier call, as the call that resumes takes it. */
  function Remnant(c: seq<bv8>, j: nat): seq<bv8>
    requires j <= |c|
  {
    Pending(|c| - j) + c[j..]
  }

  /** With the first j bytes behind, the next k go to both values alike. */
  lemma {:induction false} SameAppended(c: seq<bv8>, v: seq<bv8>, j: nat, k: nat)
    requires 1 <= j && 1 <= |v| && j + k <= |c| <= 4 && 1 + k <= |v| && Value(v, 1) == 0
    requires forall i :: 1 <= i <= k ==> v[i] == c[j + i - 1]
    ensures Value(v, 1 + k) == Value(c, j + k) <==> Value(c, j) == 0
  {
    if k > 0 {
      SameAppended(c, v, j, k - 1);
      ValueIsSmall(c, j + k - 1);
      ValueIsSmall(v, k);
      AppendTells(Value(v, k), Value(c, j + k - 1), c[j + k - 1]);
    }
  }

  /**
   * A UTF-8 sequence cut in two between calls is still one character for the second call, and
   * the same one exactly when the bytes of the first part hold no bits of it.
   */
  lemma {:induction false} ResumedPiece(c: seq<bv8>, j: nat)
    requires IsPiece(Iconv.Utf8, c) && 0 < j < |c|
    ensures IsPiece(Iconv.Utf8, Remnant(c, j))
    ensures Cp(Iconv.Utf8, Remnant(c, j)) == Cp(Iconv.Utf8, c) <==> Value(c, j) == 0
  {
    var v := Remnant(c, j);
    PendingLead(|c| - j);
    assert v[0] == Pending(|c| - j)[0];
    assert forall i :: 1 <= i < |v| ==> v[i] == c[j + i - 1];
    SameAppended(c, v, j, |c| - j);
  }

  // ---------------------------------------------------------------- whole strings of scalars

  /** A string of scalars in the source's form is a string of pieces, and the target's form is what they become. */
  lemma ScalarPieces(from: Encoding, to: Encoding, ws: Wide)
    requires AllReadable(from, ws)
    ensures AllPieces(from, Codes(from, ws)) && AllHeld(from, to, Codes(from, ws))
    ensures Outs(from, to, Codes(from, ws)) == Codes(to, ws)
  {
    forall i | 0 <= i < |ws|
      ensures IsPiece(from, Codes(from, ws)[i]) && Cp(from, Codes(from, ws)[i]) == ws[i]
      ensures Holds(to, ws[i]) && Raw(to, ws[i]) == Code(to, ws[i])
    {
      CodeIsPiece(from, ws[i]);
      ToIsCode(to, 4, ws[i]);
    }
  }

  /**
   * With room for all of it, a string of scalars becomes the same string in the target's
   * form; all input is consumed, the count is the string's length and the state is initial.
   */
  method Convert(d: Descriptor, input: seq<bv8>, room: nat, ghost ws: Wide) returns (r: int, out: seq<bv8>, left: seq<bv8>)
    requires d.state == 0 && AllReadable(d.from, ws) && input == CodeAll(d.from, ws)
    requires room >= |CodeAll(d.to, ws)|
    modifies d
    ensures r == |ws| && out == CodeAll(d.to, ws) && left == [] && d.state == 0
  {
    ScalarPieces(d.from, d.to, ws);
    r, out, left := d.Iconv(input, room, Codes(d.from, ws), [], Clean);
  }

  /** From one encoding to another and back: nothing changes, given room for both results. */
  method ThereAndBack(a: Encoding, b: Encoding, input: seq<bv8>, room: nat, ghost ws: Wide) returns (back: seq<bv8>)
    requires AllReadable(a, ws) && AllReadable(b, ws) && input == CodeAll(a, ws)
    requires room >= |CodeAll(a, ws)| && room >= |CodeAll(b, ws)|
    ensures back == input
  {
    var there := new Descriptor(a, b);
    var r, out, left := Convert(there, input, room, ws);
    var again := new Descriptor(b, a);
    r, back, left := Convert(again, out, room, ws);
  }

  /** The two bytes of U+00E9 in two calls come out as a ')'. */
  method SplitCharacter() returns (out: seq<bv8>)
    ensures out == [0x29]
  {
    var d := new Descriptor(Iconv.Utf8, Iconv.Utf8);
    var r, first, left := d.Iconv([0xC3], 4, [], [0xC3], CutOff);
    ghost var us := [[0xC0 as bv8, 0xA9]];
    Piece2(us[0], 0, 0x29);
    ghost var outs := Outs(Iconv.Utf8, Iconv.Utf8, us);
    Raw8(0x29);
    assert outs == [[0x29]] && outs[1..] == [] && Flat(outs) == [0x29];
    assert us[1..] == [] && Flat(us) == us[0];
    r, out, left := d.Iconv([0xA9], 4, us, [], Clean);
  }
}
