/**
 * mbrtoc16 and c16rtomb: restartable conversion between UTF-8 and UTF-16, sections 2.1 and
 * 2.2 of RFC 2781. The first word of the conversion state holds a low surrogate still to
 * be delivered, or a high surrogate still to be completed; it is 0 in the initial state.
 */
module Utf16Stream {

  import opened Utf8

  /** (size_t)-1, (size_t)-2, (size_t)-3 with a unit, or a byte count with a unit. */
  datatype Unit = Illegal16 | Incomplete16 | Continued(c16: bv16) | Got(len: nat, c16: bv16)

  /** (size_t)-1, 0 with a surrogate kept back, or the bytes written. */
  datatype Written = Refused | Kept | Wrote(bytes: Bytes)

  function Low16(x: bv32): bv16 { (x & 0xFFFF) as bv16 }

  function High(wc: bv32): bv16 { Low16(0xD7C0 + (wc >> 10)) }

  function LowWord(wc: bv32): bv32 { (wc & 0x3FF) + 0xDC00 }

  function Compose(x: bv32, c16: bv16): bv32 { 0x10000 + ((x - 0xD800) << 10) + (c16 as bv32 - 0xDC00) }

  /** The state word mbrtoc16 keeps for a scalar: its second unit, or nothing. */
  function Rest(wc: bv32): bv32 { if wc >= 0x10000 then LowWord(wc) else 0 }

  /** The first unit of a scalar. */
  function First(wc: bv32): bv16 { if wc >= 0x10000 then High(wc) else Low16(wc) }

  /** What mbrtoc16 makes of a decoding. */
  function Deliver(pending: bv32, d: Decoded): (Unit, bv32) {
    match d
    case Illegal => (Illegal16, pending)
    case Incomplete => (Incomplete16, pending)
    case Done(len, wc) =>
      if wc == 0 then (Got(0, 0), pending)
      else if wc >= 0x10000 then (Got(len, High(wc)), LowWord(wc))
      else (Got(len, Low16(wc)), pending)
  }

  /** mbrtoc16 with a non-null source and destination, from state word `pending`. */
  function NextUnit(pending: bv32, s: Bytes, n: nat): (Unit, bv32) {
    if 0 < pending < 0x8000_0000 then (Continued(Low16(pending)), 0)
    else Deliver(pending, Mbrtowc(s, n))
  }

  /** What c16rtomb decides about a unit: refuse it, keep it back, or write a character. */
  datatype Decision = Refuse | Keep | Write(wc: bv32)

  function Decide(x: bv32, c16: bv16): Decision {
    if c16 == 0 then
      if x != 0 then Refuse else Write(0)
    else if x != 0 then
      if c16 < 0xDC00 || c16 >= 0xE000 then Refuse else Write(Compose(x, c16))
    else if c16 >= 0xD800 && c16 < 0xDC00 then Keep
    else if c16 >= 0xDC00 && c16 < 0xE000 then Refuse
    else Write(c16 as bv32)
  }

  /** c16rtomb with a non-null destination, from state word x. */
  function PutUnit(x: bv32, c16: bv16): (Written, bv32) {
    match Decide(x, c16)
    case Refuse => (Refused, if c16 == 0 then x else 0)
    case Keep => (Kept, c16 as bv32)
    case Write(wc) =>
      var mb := Wcrtomb(wc);
      (if mb.Rejected? then Refused else Wrote(mb.bytes), 0)
  }

  /** The UTF-16 encoding of a scalar. */
  function Units(wc: bv32): seq<bv16>
    requires Scalar(wc)
  {
    if wc < 0x10000 then [Low16(wc)]
    else [Low16(0xD800 | ((wc - 0x10000) >> 10)), Low16(0xDC00 | ((wc - 0x10000) & 0x3FF))]
  }

  function UnitsAll(ws: Wide): seq<bv16>
    requires forall i :: 0 <= i < |ws| ==> Scalar(ws[i])
  {
    if ws == [] then [] else UnitsAll(ws[..|ws| - 1]) + Units(ws[|ws| - 1])
  }

  // ---------------------------------------------------------------- surrogate arithmetic

  lemma PairHigh(wc: bv32)
    requires 0x10000 <= wc <= 0x10FFFF
    ensures High(wc) == Low16(0xD800 | ((wc - 0x10000) >> 10)) && 0xD800 <= High(wc) < 0xDC00
    ensures High(wc) as bv32 != 0
  {
  }

  lemma PairLow(wc: bv32)
    requires 0x10000 <= wc <= 0x10FFFF
    ensures Low16(LowWord(wc)) == Low16(0xDC00 | ((wc - 0x10000) & 0x3FF))
    ensures 0xDC00 <= Low16(LowWord(wc)) < 0xE000 && 0 < LowWord(wc) < 0x8000_0000
  {
  }

  lemma PairBack(wc: bv32)
    requires 0x10000 <= wc <= 0x10FFFF
    ensures Compose(High(wc) as bv32, Low16(LowWord(wc))) == wc
  {
  }

  lemma LowBack(wc: bv32)
    requires wc < 0x10000
    ensures Low16(wc) as bv32 == wc
  {
  }

  // ---------------------------------------------------------------- one scalar through each converter

  lemma DecideSingle(c16: bv16, wc: bv32)
    requires Scalar(wc) && wc != 0 && c16 as bv32 == wc
    ensures Decide(0, c16) == Write(wc)
  {
  }

  lemma DecideHigh(c16: bv16)
    requires 0xD800 <= c16 < 0xDC00
    ensures Decide(0, c16) == Keep
  {
  }

  lemma DecideLow(x: bv32, c16: bv16, wc: bv32)
    requires x != 0 && 0xDC00 <= c16 < 0xE000 && Compose(x, c16) == wc
    ensures Decide(x, c16) == Write(wc)
  {
  }

  lemma Writes(x: bv32, c16: bv16, wc: bv32)
    requires Scalar(wc) && Decide(x, c16) == Write(wc)
    ensures PutUnit(x, c16) == (Wrote(Encode(wc)), 0)
  {
  }

  lemma WritesSingle(c16: bv16, wc: bv32)
    requires Scalar(wc) && wc != 0 && c16 as bv32 == wc
    ensures PutUnit(0, c16) == (Wrote(Encode(wc)), 0)
  {
    DecideSingle(c16, wc);
    Writes(0, c16, wc);
  }

  /** A scalar of the basic plane is one unit and leaves both states initial. */
  lemma EncodeBmp(wc: bv32)
    requires Scalar(wc) && 0 < wc < 0x10000
    ensures PutUnit(0, Low16(wc)) == (Wrote(Encode(wc)), 0)
  {
    LowBack(wc);
    WritesSingle(Low16(wc), wc);
  }

  /** Any other scalar is a pair: c16rtomb keeps the first unit and writes with the second. */
  lemma EncodePair(wc: bv32)
    requires 0x10000 <= wc <= 0x10FFFF
    ensures PutUnit(0, High(wc)) == (Kept, High(wc) as bv32)
    ensures PutUnit(High(wc) as bv32, Low16(LowWord(wc))) == (Wrote(Encode(wc)), 0)
  {
    PairHigh(wc);
    PairLow(wc);
    PairBack(wc);
    DecideHigh(High(wc));
    DecideLow(High(wc) as bv32, Low16(LowWord(wc)), wc);
    Writes(High(wc) as bv32, Low16(LowWord(wc)), wc);
  }

  lemma DecodeFirst(wc: bv32, s: Bytes, n: nat)
    requires Scalar(wc) && wc != 0 && Encode(wc) <= s && |Encode(wc)| <= n
    ensures NextUnit(0, s, n)
         == (Got(|Encode(wc)|, First(wc)), Rest(wc))
  {
    DecodeEncoded(wc, s, n);
    DeliverDone(|Encode(wc)|, wc);
  }

  lemma DeliverDone(len: nat, wc: bv32)
    requires wc != 0
    ensures Deliver(0, Done(len, wc)) == (Got(len, First(wc)), Rest(wc))
  {
  }

  // ---------------------------------------------------------------- exactly when

  lemma FirstIsUnit(wc: bv32)
    requires Scalar(wc)
    ensures Units(wc)[0] == First(wc)
  {
    UnitsAre(wc);
  }

  lemma BmpUnique(wc: bv32, c16: bv16)
    requires wc < 0x10000 && Low16(wc) == c16
    ensures wc == c16 as bv32
  {
    LowBack(wc);
  }

  lemma PairUnique(wc: bv32, wc': bv32)
    requires 0x10000 <= wc <= 0x10FFFF && 0x10000 <= wc' <= 0x10FFFF
    requires High(wc) == High(wc') && LowWord(wc) == LowWord(wc')
    ensures wc == wc'
  {
    PairBack(wc);
    PairBack(wc');
  }

  lemma RestTells(wc: bv32)
    requires Scalar(wc)
    ensures Rest(wc) == 0 <==> wc < 0x10000
  {
    if wc >= 0x10000 {
      PairLow(wc);
    }
  }

  lemma FirstAndRestDetermine(wc: bv32, wc': bv32)
    requires Scalar(wc) && Scalar(wc') && First(wc) == First(wc') && Rest(wc) == Rest(wc')
    ensures wc == wc'
  {
    RestTells(wc);
    RestTells(wc');
    if wc < 0x10000 {
      BmpUnique(wc, First(wc));
      BmpUnique(wc', First(wc));
    } else {
      PairUnique(wc, wc');
    }
  }

  /**
   * From the initial state mbrtoc16 takes k bytes and delivers the first unit of wc, keeping
   * the second if there is one, exactly when those k bytes are the encoding of wc.
   */
  lemma DecoderIsExact(s: Bytes, n: nat, k: nat, wc: bv32)
    requires 0 < k && Scalar(wc) && wc != 0
    ensures NextUnit(0, s, n) == (Got(k, Units(wc)[0]), Rest(wc))
      <==> k <= n && k <= |s| && Wcrtomb(wc) == Coded(s[..k])
  {
    FirstIsUnit(wc);
    DecodingIsExact(s, n, k, wc);
    var d := Mbrtowc(s, n);
    if d == Done(k, wc) {
      DeliverDone(k, wc);
    }
    if Deliver(0, d) == (Got(k, First(wc)), Rest(wc)) {
      DeliveredFrom(d, k, First(wc), Rest(wc));
      EncodeDecoded(s, n);
      FirstAndRestDetermine(wc, d.wc);
    }
  }

  /** Otherwise it asks for more exactly while the first byte announces more, ends at a zero, and refuses the rest. */
  lemma DecoderOtherwise(s: Bytes, n: nat)
    ensures NextUnit(0, s, n) == (Incomplete16, 0) <==> n < Announced(At(s, 0))
    ensures NextUnit(0, s, n) == (Got(0, 0), 0) <==> n > 0 && At(s, 0) == 0
    ensures NextUnit(0, s, n) == (Illegal16, 0) <==> Mbrtowc(s, n) == Illegal
  {
    IncompleteExactly(s, n);
    var d := Mbrtowc(s, n);
    if d.Done? {
      DecodedForm(s, n);
      if d.wc != 0 {
        DeliverDone(d.len, d.wc);
        EncodeDecoded(s, n);
      }
    }
  }

  lemma DeliveredFrom(d: Decoded, k: nat, c16: bv16, rest: bv32)
    requires Deliver(0, d) == (Got(k, c16), rest) && k > 0
    ensures d.Done? && d.len == k && c16 == First(d.wc) && rest == Rest(d.wc)
  {
    if d.Done? && d.wc != 0 {
      DeliverDone(d.len, d.wc);
    }
  }

  /** A kept unit is delivered next, without looking at the input. */
  lemma KeptUnitFollows(wc: bv32, s: Bytes, n: nat)
    requires Scalar(wc) && wc >= 0x10000
    ensures NextUnit(Rest(wc), s, n) == (Continued(Units(wc)[1]), 0)
  {
    UnitsAre(wc);
    PairLow(wc);
  }

  lemma ComposedPair(hi: bv16, lo: bv16, wc: bv32)
    requires 0xD800 <= hi < 0xDC00 && 0xDC00 <= lo < 0xE000 && wc == Compose(hi as bv32, lo)
    ensures 0x10000 <= wc <= 0x10FFFF && High(wc) == hi && Low16(LowWord(wc)) == lo
  {
  }

  /**
   * With a high surrogate kept, c16rtomb writes exactly when the unit is a low surrogate, and
   * then the encoding of the scalar those two units stand for.
   */
  lemma EncoderCompletes(hi: bv16, c16: bv16)
    requires 0xD800 <= hi < 0xDC00
    ensures 0xDC00 <= c16 < 0xE000 ==>
      exists wc: bv32 :: Scalar(wc) && Units(wc) == [hi, c16] && PutUnit(hi as bv32, c16) == (Wrote(Encode(wc)), 0)
    ensures !(0xDC00 <= c16 < 0xE000) ==> PutUnit(hi as bv32, c16) == (Refused, if c16 == 0 then hi as bv32 else 0)
  {
    KeptIsNotZero(hi);
    if 0xDC00 <= c16 < 0xE000 {
      var wc := Compose(hi as bv32, c16);
      ComposedPair(hi, c16, wc);
      UnitsAre(wc);
      EncodePair(wc);
    }
  }

  lemma KeptIsNotZero(hi: bv16)
    requires hi >= 0xD800
    ensures hi as bv32 != 0
  {
  }

  /**
   * From the initial state c16rtomb keeps a high surrogate, refuses a low one, and writes
   * the encoding of the scalar that any other unit is.
   */
  lemma EncoderStarts(c16: bv16)
    ensures 0xD800 <= c16 < 0xDC00 ==> PutUnit(0, c16) == (Kept, c16 as bv32)
    ensures 0xDC00 <= c16 < 0xE000 ==> PutUnit(0, c16) == (Refused, 0)
    ensures !(0xD800 <= c16 < 0xE000) ==>
      exists wc: bv32 :: Scalar(wc) && Units(wc) == [c16] && PutUnit(0, c16) == (Wrote(Encode(wc)), 0)
  {
    if !(0xD800 <= c16 < 0xE000) {
      var wc := c16 as bv32;
      SingleIsScalar(c16, wc);
      UnitsAre(wc);
      if c16 == 0 {
        Writes(0, 0, 0);
      } else {
        EncodeBmp(wc);
      }
    }
  }

  lemma SingleIsScalar(c16: bv16, wc: bv32)
    requires wc == c16 as bv32 && !(0xD800 <= c16 < 0xE000)
    ensures Scalar(wc) && wc < 0x10000 && Low16(wc) == c16 && (wc == 0 <==> c16 == 0)
  {
  }

  // ---------------------------------------------------------------- the state words

  /** The conversion state of a sequence of mbrtoc16 calls. */
  class Decoder {
    var pending: bv32

    constructor ()
      ensures pending == 0
    {
      pending := 0;
    }

    method Mbrtoc16(s: Bytes, n: nat) returns (u: Unit)
      modifies this
      ensures (u, pending) == NextUnit(old(pending), s, n)
    {
      if 0 < pending < 0x8000_0000 {
        u := Continued(Low16(pending));
        pending := 0;
        return;
      }
      u := Store(Mbrtowc(s, n));
    }

    /** The rest of mbrtoc16, after mbrtowc. */
    method Store(d: Decoded) returns (u: Unit)
      modifies this
      ensures (u, pending) == Deliver(old(pending), d)
    {
      match d {
        case Illegal => u := Illegal16;
        case Incomplete => u := Incomplete16;
        case Done(len, wc) =>
          if wc == 0 {
            return Got(0, 0);
          }
          var unit := Low16(wc);
          if wc >= 0x10000 {
            pending := LowWord(wc);
            unit := High(wc);
          }
          u := Got(len, unit);
      }
    }
  }

  /** The conversion state of a sequence of c16rtomb calls. */
  class Encoder {
    var kept: bv32

    constructor ()
      ensures kept == 0
    {
      kept := 0;
    }

    method C16rtomb(c16: bv16) returns (w: Written)
      modifies this
      ensures (w, kept) == PutUnit(old(kept), c16)
    {
      var wc: bv32 := 0;
      if c16 == 0 {
        if kept != 0 {
          return Refused;
        }
      } else if kept != 0 {
        if c16 < 0xDC00 || c16 >= 0xE000 {
          kept := 0;
          return Refused;
        }
        wc := Compose(kept, c16);
        kept := 0;
      } else if c16 >= 0xD800 && c16 < 0xDC00 {
        kept := c16 as bv32;
        return Kept;
      } else if c16 >= 0xDC00 && c16 < 0xE000 {
        return Refused;
      } else {
        wc := c16 as bv32;
      }
      var mb := Wcrtomb(wc);
      w := if mb.Rejected? then Refused else Wrote(mb.bytes);
    }
  }

  // ---------------------------------------------------------------- whole streams

  /** k scalars have gone through, `half` is what came of the next one, and j scalars have been read. */
  ghost predicate Progress(ws: Wide, k: nat, j: nat, half: seq<bv16>, left: Bytes, units: seq<bv16>, out: Bytes) {
    && AllScalar(ws) && k <= j <= |ws|
    && out == EncodeAll(ws[..k])
    && left == EncodeAll(ws[j..])
    && units == UnitsAll(ws[..k]) + half
  }

  /** Both state words are initial at a scalar boundary, and hold the two halves of scalar k in the middle of it. */
  ghost predicate States(ws: Wide, k: nat, mid: bool, pending: bv32, kept: bv32) {
    if mid then
      && k < |ws| && 0x10000 <= ws[k] <= 0x10FFFF
      && pending == LowWord(ws[k]) && kept == High(ws[k]) as bv32 && pending != 0
    else pending == 0 && kept == 0
  }

  ghost predicate Between(ws: Wide, k: nat, mid: bool, left: Bytes, pending: bv32, kept: bv32,
                          units: seq<bv16>, out: Bytes) {
    && States(ws, k, mid, pending, kept)
    && (if mid then Progress(ws, k, k + 1, [High(ws[k])], left, units, out)
        else Progress(ws, k, k, [], left, units, out))
  }

  lemma {:induction false} NextScalar(ws: Wide, k: nat)
    requires AllScalar(ws) && k < |ws|
    ensures EncodeAll(ws[k..]) == Encode(ws[k]) + EncodeAll(ws[k + 1..])
    ensures EncodeAll(ws[..k + 1]) == EncodeAll(ws[..k]) + Encode(ws[k])
    ensures UnitsAll(ws[..k + 1]) == UnitsAll(ws[..k]) + Units(ws[k])
  {
    assert ws[k..][1..] == ws[k + 1..];
    assert ws[..k + 1] == ws[..k] + [ws[k]];
    assert ws[..k + 1][..k] == ws[..k];
    EncodeAllAppend(ws[..k], ws[k]);
  }

  lemma UnitsAre(wc: bv32)
    requires Scalar(wc)
    ensures Units(wc) == if wc < 0x10000 then [Low16(wc)] else [High(wc), Low16(LowWord(wc))]
  {
    if wc >= 0x10000 {
      PairHigh(wc);
      PairLow(wc);
    }
  }

  lemma {:induction false} ReadOne(ws: Wide, k: nat, half: seq<bv16>, left: Bytes, units: seq<bv16>, out: Bytes)
    requires Progress(ws, k, k, [], left, units, out) && k < |ws|
    ensures var b := Encode(ws[k]);
            b <= left && Progress(ws, k, k + 1, half, left[|b|..], units + half, out)
  {
    NextScalar(ws, k);
  }

  lemma {:induction false} WriteOne(ws: Wide, k: nat, half: seq<bv16>, more: seq<bv16>, left: Bytes,
                                    units: seq<bv16>, out: Bytes)
    requires Progress(ws, k, k + 1, half, left, units, out) && half + more == Units(ws[k])
    ensures Progress(ws, k + 1, k + 1, [], left, units + more, out + Encode(ws[k]))
  {
    NextScalar(ws, k);
    Regroup(units, UnitsAll(ws[..k]), half, more, Units(ws[k]));
  }

  lemma Regroup(units: seq<bv16>, before: seq<bv16>, half: seq<bv16>, more: seq<bv16>, all: seq<bv16>)
    requires units == before + half && half + more == all
    ensures units + more == before + all + []
  {
    assert before + half + more == before + (half + more);
  }

  /** A scalar of the basic plane handed from mbrtoc16 to c16rtomb. */
  lemma {:induction false} PassSingle(ws: Wide, k: nat, left: Bytes, units: seq<bv16>, out: Bytes)
    requires Between(ws, k, false, left, 0, 0, units, out) && k < |ws| && ws[k] < 0x10000
    ensures var b, c16 := Encode(ws[k]), Low16(ws[k]);
            && b <= left && NextUnit(0, left, |left|) == (Got(|b|, c16), 0)
            && PutUnit(0, c16) == (Wrote(b), 0)
            && Between(ws, k + 1, false, left[|b|..], 0, 0, units + [c16], out + b)
  {
    var c16 := Low16(ws[k]);
    ReadOne(ws, k, [c16], left, units, out);
    UnitsAre(ws[k]);
    WriteOne(ws, k, [c16], [], left[|Encode(ws[k])|..], units + [c16], out);
    assert units + [c16] + [] == units + [c16];
    EncodeBmp(ws[k]);
    DecodeFirst(ws[k], left, |left|);
  }

  lemma HighStates(ws: Wide, k: nat)
    requires k < |ws| && 0x10000 <= ws[k] <= 0x10FFFF
    ensures States(ws, k, true, LowWord(ws[k]), High(ws[k]) as bv32)
  {
    PairLow(ws[k]);
  }

  /** The first unit of a pair takes all the input of the scalar and is kept back. */
  lemma {:induction false} PassHigh(ws: Wide, k: nat, left: Bytes, units: seq<bv16>, out: Bytes)
    requires Between(ws, k, false, left, 0, 0, units, out) && k < |ws| && ws[k] >= 0x10000
    ensures var b, c16 := Encode(ws[k]), High(ws[k]);
            && b <= left && NextUnit(0, left, |left|) == (Got(|b|, c16), LowWord(ws[k]))
            && PutUnit(0, c16) == (Kept, c16 as bv32)
            && Between(ws, k, true, left[|b|..], LowWord(ws[k]), c16 as bv32, units + [c16], out)
  {
    ReadOne(ws, k, [High(ws[k])], left, units, out);
    HighStates(ws, k);
    EncodePair(ws[k]);
    DecodeFirst(ws[k], left, |left|);
  }

  lemma LowCalls(wc: bv32, s: Bytes, n: nat)
    requires 0x10000 <= wc <= 0x10FFFF
    ensures var c16 := Low16(LowWord(wc));
            NextUnit(LowWord(wc), s, n) == (Continued(c16), 0) && PutUnit(High(wc) as bv32, c16) == (Wrote(Encode(wc)), 0)
  {
    PairLow(wc);
    EncodePair(wc);
  }

  /** The second unit of a pair takes no input and ends the scalar. */
  lemma {:induction false} PassLow(ws: Wide, k: nat, left: Bytes, pending: bv32, kept: bv32,
                                   units: seq<bv16>, out: Bytes)
    requires Between(ws, k, true, left, pending, kept, units, out)
    ensures var b, c16 := Encode(ws[k]), Low16(pending);
            && NextUnit(pending, left, |left|) == (Continued(c16), 0)
            && PutUnit(kept, c16) == (Wrote(b), 0)
            && Between(ws, k + 1, false, left, 0, 0, units + [c16], out + b)
  {
    UnitsAre(ws[k]);
    WriteOne(ws, k, [High(ws[k])], [Low16(pending)], left, units, out);
    LowCalls(ws[k], left, |left|);
  }

  lemma Started(ws: Wide)
    requires AllScalar(ws)
    ensures Between(ws, 0, false, EncodeAll(ws), 0, 0, [], [])
  {
    assert ws[0..] == ws;
  }

  lemma {:induction false} Finished(ws: Wide, k: nat, mid: bool, pending: bv32, kept: bv32,
                                    units: seq<bv16>, out: Bytes)
    requires Between(ws, k, mid, [], pending, kept, units, out) && pending == 0
    ensures kept == 0 && units == UnitsAll(ws) && out == EncodeAll(ws)
  {
    if k < |ws| {
      NextScalar(ws, k);
      assert false;
    }
    assert ws[..k] == ws;
  }

  /**
   * UTF-8 to UTF-16 to UTF-8: every unit mbrtoc16 delivers goes straight into c16rtomb. On
   * every stream of non-null scalars the units are its UTF-16 encoding, the bytes come back
   * unchanged and both states end, as at every scalar boundary, initial.
   */
  method Transcode(bytes: Bytes, dec: Decoder, enc: Encoder, ghost ws: Wide)
    returns (units: seq<bv16>, out: Bytes)
    requires AllScalar(ws) && bytes == EncodeAll(ws)
    requires dec.pending == 0 && enc.kept == 0
    modifies dec, enc
    ensures units == UnitsAll(ws) && out == bytes
    ensures dec.pending == 0 && enc.kept == 0
  {
    units, out := [], [];
    var left := bytes;
    ghost var k: nat, mid := 0, false;
    Started(ws);
    while left != [] || dec.pending != 0
      invariant Between(ws, k, mid, left, dec.pending, enc.kept, units, out)
      decreases |left|, mid
    {
      if mid {
        PassLow(ws, k, left, dec.pending, enc.kept, units, out);
      } else if ws[k] < 0x10000 {
        PassSingle(ws, k, left, units, out);
      } else {
        PassHigh(ws, k, left, units, out);
      }
      var u := dec.Mbrtoc16(left, |left|);
      if u.Got? {
        left := left[u.len..];
      }
      var w := enc.C16rtomb(u.c16);
      units := units + [u.c16];
      if w.Wrote? {
        out := out + w.bytes;
        k, mid := k + 1, false;
      } else {
        mid := true;
      }
    }
    Finished(ws, k, mid, dec.pending, enc.kept, units, out);
  }
}
