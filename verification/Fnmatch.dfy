/**
 * fnmatch with flags drawn from FNM_NOESCAPE and FNM_CASEFOLD. Characters are the integer
 * values the C code compares, so both signed and unsigned char are covered; 0 is the
 * terminator and occurs in neither pattern nor string.
 */
module Fnmatch {

  type Text = seq<int>

  const STAR: int := 42
  const QMARK: int := 63
  const LBRACKET: int := 91
  const RBRACKET: int := 93
  const BACKSLASH: int := 92
  const DASH: int := 45
  const BANG: int := 33
  const CARET: int := 94

  datatype Flags = Flags(noescape: bool, casefold: bool)

  predicate NoNul(t: Text) { forall i :: 0 <= i < |t| ==> t[i] != 0 }

  /** *(t + i) of a C string. */
  function At(t: Text, i: nat): int { if i < |t| then t[i] else 0 }

  function ToLower(c: int): int { if 65 <= c <= 90 then c + 32 else c }

  function Fold(c: int, fl: Flags): int { if fl.casefold then ToLower(c) else c }

  // ---------------------------------------------------------------- patterns

  datatype Item = One(c: int) | Range(lo: int, hi: int)

  /** Broken stands for a bracket that is never closed. */
  datatype Token = AnyChar | Star | Set(negate: bool, items: seq<Item>) | Lit(c: int) | Broken

  predicate InItem(item: Item, c: int, fl: Flags) {
    match item
    case One(d) => Fold(c, fl) == Fold(d, fl)
    case Range(lo, hi) => Fold(lo, fl) <= Fold(c, fl) <= Fold(hi, fl)
  }

  predicate InItems(items: seq<Item>, c: int, fl: Flags) {
    exists i :: 0 <= i < |items| && InItem(items[i], c, fl)
  }

  /** The characters a one-character token stands for. */
  predicate Fits(t: Token, c: int, fl: Flags) {
    match t
    case AnyChar => true
    case Set(negate, items) => InItems(items, c, fl) != negate
    case Lit(d) => Fold(d, fl) == Fold(c, fl)
    case _ => false
  }

  /** The language of a pattern: a star stands for any text, every other token for one character. */
  ghost predicate Accepts(toks: seq<Token>, s: Text, fl: Flags)
    decreases |toks|
  {
    if toks == [] then s == []
    else if toks[0].Star? then exists k :: 0 <= k <= |s| && Accepts(toks[1..], s[k..], fl)
    else s != [] && Fits(toks[0], s[0], fl) && Accepts(toks[1..], s[1..], fl)
  }

  // ---------------------------------------------------------------- reading a pattern

  datatype Scan = Open | Closed(items: seq<Item>, next: nat)

  predicate IsRange(p: Text, i: nat) { At(p, i) == DASH && At(p, i + 1) != 0 && At(p, i + 1) != RBRACKET }

  /** The members of a bracket from position i to its closing bracket; `prev` starts a range. */
  function ScanItems(p: Text, i: nat, prev: int, first: bool): (r: Scan)
    ensures r.Closed? ==> i < r.next <= |p|
    decreases |p| - i
  {
    if i >= |p| then Open
    else if p[i] == RBRACKET && !first then Closed([], i + 1)
    else if IsRange(p, i) && i + 1 < |p| then
      match ScanItems(p, i + 2, 0, false)
      case Open => Open
      case Closed(items, next) => Closed([Range(prev, p[i + 1])] + items, next)
    else
      match ScanItems(p, i + 1, p[i], false)
      case Open => Open
      case Closed(items, next) => Closed([One(p[i])] + items, next)
  }

  predicate Negated(p: Text, i: nat) { At(p, i) == BANG || At(p, i) == CARET }

  /** The bracket whose '[' is at position i. */
  function ScanBracket(p: Text, i: nat): (r: Scan)
    ensures r.Closed? ==> i + 1 < r.next <= |p|
  {
    ScanItems(p, if Negated(p, i + 1) then i + 2 else i + 1, 0, true)
  }

  predicate Escaped(p: Text, i: nat, fl: Flags) { At(p, i) == BACKSLASH && !fl.noescape && At(p, i + 1) != 0 }

  /** The token at position i, and where it ends. */
  function First(p: Text, i: nat, fl: Flags): (r: (Token, nat))
    requires i < |p|
    ensures i < r.1 <= |p|
  {
    if p[i] == QMARK then (AnyChar, i + 1)
    else if p[i] == STAR then (Star, i + 1)
    else if p[i] == LBRACKET then
      match ScanBracket(p, i)
      case Open => (Broken, |p|)
      case Closed(items, next) => (Set(Negated(p, i + 1), items), next)
    else if Escaped(p, i, fl) && i + 1 < |p| then (Lit(p[i + 1]), i + 2)
    else (Lit(p[i]), i + 1)
  }

  function Parse(p: Text, i: nat, fl: Flags): seq<Token>
    decreases |p| - i
  {
    if i >= |p| then []
    else
      var (t, next) := First(p, i, fl);
      [t] + Parse(p, next, fl)
  }

  // ---------------------------------------------------------------- the matcher

  /** __jacl_fnmatch_bracket: scan to the closing bracket, noting whether c is a member. */
  method Bracket(p: Text, i: nat, c: int, fl: Flags) returns (closed: bool, fits: bool, next: nat)
    requires NoNul(p) && i < |p| && p[i] == LBRACKET
    ensures closed <==> ScanBracket(p, i).Closed?
    ensures closed ==> next == ScanBracket(p, i).next
    ensures closed ==> (fits <==> Fits(Set(Negated(p, i + 1), ScanBracket(p, i).items), c, fl))
  {
    var negate := At(p, i + 1) == BANG || At(p, i + 1) == CARET;
    var q := if negate then i + 2 else i + 1;
    var matched, prev, first := false, 0, true;
    ghost var all := ScanItems(p, q, 0, true);
    while At(p, q) != 0 && (At(p, q) != RBRACKET || first)
      invariant var rest := ScanItems(p, q, prev, first);
        && (all.Closed? <==> rest.Closed?)
        && (all.Closed? ==> all.next == rest.next)
        && (all.Closed? ==> (InItems(all.items, c, fl) <==> matched || InItems(rest.items, c, fl)))
      decreases |p| - q
    {
      ghost var here := ScanItems(p, q, prev, first);
      if At(p, q) == DASH && At(p, q + 1) != 0 && At(p, q + 1) != RBRACKET {
        if Fold(prev, fl) <= Fold(c, fl) <= Fold(p[q + 1], fl) {
          matched := true;
        }
        ghost var tail := ScanItems(p, q + 2, 0, false);
        if here.Closed? {
          InItemsCons(Range(prev, p[q + 1]), tail.items, c, fl);
        }
        q, prev := q + 2, 0;
      } else {
        if Fold(c, fl) == Fold(p[q], fl) {
          matched := true;
        }
        ghost var tail := ScanItems(p, q + 1, p[q], false);
        if here.Closed? {
          InItemsCons(One(p[q]), tail.items, c, fl);
        }
        q, prev := q + 1, p[q];
      }
      first := false;
    }
    closed, fits, next := At(p, q) != 0, matched != negate, q + 1;
  }

  lemma InItemsCons(item: Item, items: seq<Item>, c: int, fl: Flags)
    ensures InItems([item] + items, c, fl) <==> InItem(item, c, fl) || InItems(items, c, fl)
  {
    if i :| 0 <= i < |items| && InItem(items[i], c, fl) {
      assert ([item] + items)[i + 1] == items[i];
    }
    assert ([item] + items)[0] == item;
  }

  /** __jacl_fnmatch_literal. */
  method Literal(p: Text, i: nat, c: int, fl: Flags) returns (fits: bool, next: nat)
    requires NoNul(p) && i < |p|
    ensures next == if Escaped(p, i, fl) then i + 2 else i + 1
    ensures next <= |p|
    ensures fits <==> Fold(p[next - 1], fl) == Fold(c, fl)
  {
    var at := i;
    if p[i] == BACKSLASH && !fl.noescape && At(p, i + 1) != 0 {
      at := i + 1;
    }
    fits := p[at] == c;
    if !fits && fl.casefold {
      fits := ToLower(p[at]) == ToLower(c);
    }
    next := at + 1;
  }

  /** The string from j is in the language of the pattern from i. */
  ghost predicate Here(p: Text, i: nat, s: Text, j: nat, fl: Flags)
    requires j <= |s|
  {
    Accepts(Parse(p, i, fl), s[j..], fl)
  }

  /** A pattern whose first token takes one character. */
  lemma {:induction false} TakeOne(p: Text, i: nat, next: nat, t: Token, s: Text, j: nat, fl: Flags)
    requires i < |p| && j <= |s| && !t.Star? && First(p, i, fl) == (t, next)
    ensures Here(p, i, s, j, fl) <==> j < |s| && Fits(t, s[j], fl) && Here(p, next, s, j + 1, fl)
  {
    assert ([t] + Parse(p, next, fl))[1..] == Parse(p, next, fl);
    if j < |s| {
      assert s[j..][1..] == s[j + 1..];
    }
  }

  lemma FoldKeepsNul(c: int, fl: Flags)
    requires c != 0
    ensures Fold(c, fl) != Fold(0, fl)
  {
  }

  /** __jacl_fnmatch on the pattern from i and the string from j. */
  method Match(p: Text, i: nat, s: Text, j: nat, fl: Flags) returns (ok: bool)
    requires NoNul(p) && NoNul(s) && i <= |p| && j <= |s|
    ensures ok <==> Here(p, i, s, j, fl)
    decreases |p| - i, 1
  {
    var pi, si := i, j;
    while pi < |p|
      invariant i <= pi <= |p| && j <= si <= |s|
      invariant Here(p, i, s, j, fl) <==> Here(p, pi, s, si, fl)
      decreases |p| - pi
    {
      var fits, next := false, pi + 1;
      if p[pi] == STAR {
        ok := StarMatch(p, pi, s, si, fl);
        return;
      } else {
        fits, next := MatchOne(p, pi, s, si, fl);
      }
      if !fits {
        return false;
      }
      pi, si := next, si + 1;
    }
    ok := si == |s|;
  }

  /** The '?', '[' and default cases of the main loop: one character against one token. */
  method MatchOne(p: Text, i: nat, s: Text, j: nat, fl: Flags) returns (fits: bool, next: nat)
    requires NoNul(p) && NoNul(s) && i < |p| && p[i] != STAR && j <= |s|
    ensures fits ==> i < next <= |p| && j < |s| && (Here(p, i, s, j, fl) <==> Here(p, next, s, j + 1, fl))
    ensures !fits ==> !Here(p, i, s, j, fl)
  {
    next := i + 1;
    if p[i] == QMARK {
      TakeOne(p, i, next, AnyChar, s, j, fl);
      fits := j < |s|;
    } else if p[i] == LBRACKET {
      var scan := ScanBracket(p, i);
      if scan.Closed? {
        TakeOne(p, i, scan.next, Set(Negated(p, i + 1), scan.items), s, j, fl);
      }
      if j == |s| {
        return false, next;
      }
      var closed;
      closed, fits, next := Bracket(p, i, s[j], fl);
      fits := closed && fits;
    } else {
      fits, next := Literal(p, i, At(s, j), fl);
      FoldKeepsNul(p[next - 1], fl);
      TakeOne(p, i, next, Lit(p[next - 1]), s, j, fl);
    }
  }

  ghost predicate SomeSplit(p: Text, q: nat, s: Text, j: nat, fl: Flags)
    requires j <= |s|
  {
    exists t :: j <= t <= |s| && Here(p, q, s, t, fl)
  }

  lemma {:induction false} StarMeans(p: Text, i: nat, s: Text, j: nat, fl: Flags)
    requires i < |p| && p[i] == STAR && j <= |s|
    ensures Here(p, i, s, j, fl) <==> SomeSplit(p, i + 1, s, j, fl)
  {
    var rest := Parse(p, i + 1, fl);
    assert ([Star] + rest)[1..] == rest;
    if Here(p, i, s, j, fl) {
      var k :| 0 <= k <= |s[j..]| && Accepts(rest, s[j..][k..], fl);
      assert s[j..][k..] == s[j + k..];
      assert Here(p, i + 1, s, j + k, fl);
    }
    if SomeSplit(p, i + 1, s, j, fl) {
      var t :| j <= t <= |s| && Here(p, i + 1, s, t, fl);
      assert s[j..][t - j..] == s[t..];
    }
  }

  /** A row of stars is one star. */
  lemma {:induction false} StarsMean(p: Text, i: nat, q: nat, s: Text, j: nat, fl: Flags)
    requires i < q <= |p| && j <= |s|
    requires forall k :: i <= k < q ==> p[k] == STAR
    ensures Here(p, i, s, j, fl) <==> SomeSplit(p, q, s, j, fl)
    decreases q - i
  {
    StarMeans(p, i, s, j, fl);
    if i + 1 < q {
      forall t | j <= t <= |s|
        ensures Here(p, i + 1, s, t, fl) <==> SomeSplit(p, q, s, t, fl)
      {
        StarsMean(p, i + 1, q, s, t, fl);
      }
      if SomeSplit(p, q, s, j, fl) {
        assert Here(p, i + 1, s, j, fl);
      }
      if SomeSplit(p, i + 1, s, j, fl) {
        var t :| j <= t <= |s| && Here(p, i + 1, s, t, fl);
        assert SomeSplit(p, q, s, t, fl);
        var u :| t <= u <= |s| && Here(p, q, s, u, fl);
      }
    }
  }

  /** A pattern that does not begin with a star and is not finished accepts no empty text. */
  lemma NoEmptySplit(p: Text, i: nat, s: Text, fl: Flags)
    requires i < |p| && p[i] != STAR
    ensures !Here(p, i, s, |s|, fl)
  {
  }

  /** __jacl_fnmatch_star: try every split except the one that leaves the string empty. */
  method StarMatch(p: Text, i: nat, s: Text, j: nat, fl: Flags) returns (ok: bool)
    requires NoNul(p) && NoNul(s) && i < |p| && p[i] == STAR && j <= |s|
    ensures ok <==> Here(p, i, s, j, fl)
    decreases |p| - i, 0
  {
    var q := i;
    while At(p, q) == STAR
      invariant i <= q <= |p| && (q == i ==> At(p, q) == STAR)
      invariant forall k :: i <= k < q ==> p[k] == STAR
      decreases |p| - q
    {
      q := q + 1;
    }
    StarsMean(p, i, q, s, j, fl);
    if q == |p| {
      assert Here(p, q, s, |s|, fl);
      return true;
    }
    NoEmptySplit(p, q, s, fl);
    var t := j;
    while t < |s|
      invariant j <= t <= |s|
      invariant forall u :: j <= u < t ==> !Here(p, q, s, u, fl)
    {
      ok := Match(p, q, s, t, fl);
      if ok {
        return;
      }
      t := t + 1;
    }
    ok := false;
  }

  /** The public entry: FNM_MATCH exactly on the language of the pattern. */
  method FnMatch(pattern: Text, text: Text, fl: Flags) returns (matches: bool)
    requires NoNul(pattern) && NoNul(text)
    ensures matches <==> Accepts(Parse(pattern, 0, fl), text, fl)
  {
    assert text[0..] == text;
    matches := Match(pattern, 0, text, 0, fl);
  }

  // ---------------------------------------------------------------- writing a pattern

  /** A bracket member as its writer means it. */
  datatype Member = Single(c: int) | Span(lo: int, hi: int)

  /** A pattern as its writer means it. */
  datatype Element = AnyText | AnyOne | Exactly(c: int) | OneOf(negate: bool, members: seq<Member>)

  predicate IsMember(m: Member, c: int, fl: Flags) {
    match m
    case Single(d) => Fold(c, fl) == Fold(d, fl)
    case Span(lo, hi) => Fold(lo, fl) <= Fold(c, fl) <= Fold(hi, fl)
  }

  predicate InMembers(ms: seq<Member>, c: int, fl: Flags) {
    exists i :: 0 <= i < |ms| && IsMember(ms[i], c, fl)
  }

  predicate StandsFor(e: Element, c: int, fl: Flags) {
    match e
    case AnyText => false
    case AnyOne => true
    case Exactly(d) => Fold(d, fl) == Fold(c, fl)
    case OneOf(negate, ms) => InMembers(ms, c, fl) != negate
  }

  /** The texts a pattern is meant to match. */
  ghost predicate Means(es: seq<Element>, s: Text, fl: Flags)
    decreases |es|
  {
    if es == [] then s == []
    else if es[0].AnyText? then exists k :: 0 <= k <= |s| && Means(es[1..], s[k..], fl)
    else s != [] && StandsFor(es[0], s[0], fl) && Means(es[1..], s[1..], fl)
  }

  function WriteMember(m: Member): Text {
    match m case Single(c) => [c] case Span(lo, hi) => [lo, DASH, hi]
  }

  function WriteMembers(ms: seq<Member>): Text {
    if ms == [] then []
    else WriteMember(ms[0]) + WriteMembers(ms[1..])
  }

  function Join(ws: seq<Text>): Text { if ws == [] then [] else ws[0] + Join(ws[1..]) }

  function SetParts(sign: Text, ms: seq<Member>): seq<Text> { [[LBRACKET], sign, WriteMembers(ms), [RBRACKET]] }

  /**
   * A span whose ends are in order, and no member that a bracket would read as syntax: ']'
   * only as the first, '-' by itself only as the last.
   */
  predicate PlainMember(m: Member, first: bool, last: bool, fl: Flags) {
    match m
    case Single(c) => c != 0 && (c == RBRACKET ==> first) && (c == DASH ==> last)
    case Span(lo, hi) =>
      && lo != 0 && (lo == RBRACKET ==> first) && lo != DASH
      && hi != 0 && hi != RBRACKET
      && Fold(lo, fl) <= Fold(hi, fl)
  }

  predicate PlainMembers(ms: seq<Member>, first: bool, fl: Flags) {
    forall k :: 0 <= k < |ms| ==> PlainMember(ms[k], first && k == 0, k == |ms| - 1, fl)
  }

  function Lead(m: Member): int { if m.Single? then m.c else m.lo }

  /** '*', '?' and '[' mean something unless escaped, and so does a backslash in front of anything. */
  predicate Ordinary(c: int, last: bool, fl: Flags) {
    c != STAR && c != QMARK && c != LBRACKET && (c == BACKSLASH ==> last || fl.noescape)
  }

  /** What may stand in front of the members: '!' or '^' for a set that is negated. */
  predicate IsSign(sign: Text, negate: bool) { if negate then sign == [BANG] || sign == [CARET] else sign == [] }

  predicate SetFor(sign: Text, negate: bool, ms: seq<Member>, fl: Flags) {
    && IsSign(sign, negate) && ms != [] && PlainMembers(ms, true, fl)
    && (negate || (Lead(ms[0]) != BANG && Lead(ms[0]) != CARET))
  }

  /** The ways to write an element: a character with or without a backslash, a negated set with either sign. */
  ghost predicate Spells(e: Element, w: Text, last: bool, fl: Flags) {
    match e
    case AnyText => w == [STAR]
    case AnyOne => w == [QMARK]
    case Exactly(c) => c != 0 && ((w == [c] && Ordinary(c, last, fl)) || (w == [BACKSLASH, c] && !fl.noescape))
    case OneOf(negate, ms) => exists sign :: SetFor(sign, negate, ms, fl) && w == Join(SetParts(sign, ms))
  }

  /** The texts ws spell the elements es. */
  ghost predicate Spelled(es: seq<Element>, ws: seq<Text>, fl: Flags) {
    |ws| == |es| && forall k: nat :: k < |es| ==> SpelledAt(es, ws, k, fl)
  }

  ghost predicate SpelledAt(es: seq<Element>, ws: seq<Text>, k: nat, fl: Flags)
    requires k < |es| == |ws|
  {
    Spells(es[k], ws[k], k == |es| - 1, fl)
  }

  function Items(ms: seq<Member>): seq<Item> {
    if ms == [] then []
    else (match ms[0] case Single(c) => [One(c)] case Span(lo, hi) => [One(lo), Range(lo, hi)]) + Items(ms[1..])
  }

  function TokenOf(e: Element): Token {
    match e
    case AnyText => Star
    case AnyOne => AnyChar
    case Exactly(c) => Lit(c)
    case OneOf(negate, ms) => Set(negate, Items(ms))
  }

  function Tokens(es: seq<Element>): seq<Token> {
    if es == [] then [] else [TokenOf(es[0])] + Tokens(es[1..])
  }

  /** The text at position i is t. */
  predicate ReadsAt(p: Text, i: nat, t: Text) {
    i + |t| <= |p| && p[i..i + |t|] == t
  }

  lemma ReadsSplit(p: Text, i: nat, a: Text, b: Text)
    requires ReadsAt(p, i, a + b)
    ensures ReadsAt(p, i, a) && ReadsAt(p, i + |a|, b)
  {
    var w := p[i..i + |a + b|];
    assert w[..|a|] == a && w[|a|..] == b;
  }

  lemma ReadsConcat(p: Text, i: nat, w: Text, a: Text, b: Text)
    requires ReadsAt(p, i, w) && w == a + b
    ensures ReadsAt(p, i, a) && ReadsAt(p, i + |a|, b) && |w| == |a| + |b|
  {
    ReadsSplit(p, i, a, b);
  }

  lemma ReadsChar(p: Text, i: nat, c: int)
    requires ReadsAt(p, i, [c])
    ensures i < |p| && p[i] == c
  {
    assert [c][0] == p[i];
  }

  /** The members' text up to and with the closing bracket is at position i. */
  predicate ReadsMembers(p: Text, i: nat, ms: seq<Member>) {
    ReadsAt(p, i, WriteMembers(ms)) && ReadsAt(p, i + |WriteMembers(ms)|, [RBRACKET])
  }

  lemma {:induction false} WrittenSingle(p: Text, i: nat, ms: seq<Member>, prev: int, first: bool, fl: Flags)
    requires ms != [] && ms[0].Single? && PlainMember(ms[0], first, |ms| == 1, fl) && ReadsMembers(p, i, ms)
    ensures ReadsMembers(p, i + 1, ms[1..])
    ensures var next := i + |WriteMembers(ms)| + 1;
            ScanItems(p, i + 1, ms[0].c, false) == Closed(Items(ms[1..]), next) ==>
              ScanItems(p, i, prev, first) == Closed(Items(ms), next)
  {
    var m, next := ms[0], i + |WriteMembers(ms)| + 1;
    ReadsSplit(p, i, WriteMember(m), WriteMembers(ms[1..]));
    if m.c == DASH {
      ReadsChar(p, i + 1, RBRACKET);
    }
    if ScanItems(p, i + 1, m.c, false) == Closed(Items(ms[1..]), next) {
      ScanSingle(p, i, m.c, prev, first, Items(ms[1..]), next);
    }
  }

  lemma {:induction false} ReadsSpan(p: Text, i: nat, ms: seq<Member>)
    requires ms != [] && ms[0].Span? && ReadsMembers(p, i, ms)
    ensures ReadsAt(p, i, [ms[0].lo, DASH, ms[0].hi]) && ReadsMembers(p, i + 3, ms[1..])
    ensures |WriteMembers(ms)| == 3 + |WriteMembers(ms[1..])|
  {
    ReadsSplit(p, i, WriteMember(ms[0]), WriteMembers(ms[1..]));
  }

  lemma {:induction false} SpanItems(ms: seq<Member>)
    requires ms != [] && ms[0].Span?
    ensures Items(ms) == [One(ms[0].lo)] + ([Range(ms[0].lo, ms[0].hi)] + Items(ms[1..]))
  {
    assert [One(ms[0].lo), Range(ms[0].lo, ms[0].hi)] == [One(ms[0].lo)] + [Range(ms[0].lo, ms[0].hi)];
  }

  lemma {:induction false} WrittenSpan(p: Text, i: nat, ms: seq<Member>, prev: int, first: bool, fl: Flags)
    requires ms != [] && ms[0].Span? && PlainMember(ms[0], first, |ms| == 1, fl) && ReadsMembers(p, i, ms)
    ensures ReadsMembers(p, i + 3, ms[1..])
    ensures var next := i + |WriteMembers(ms)| + 1;
            ScanItems(p, i + 3, 0, false) == Closed(Items(ms[1..]), next) ==>
              ScanItems(p, i, prev, first) == Closed(Items(ms), next)
  {
    var m, next := ms[0], i + |WriteMembers(ms)| + 1;
    ReadsSpan(p, i, ms);
    SpanItems(ms);
    if ScanItems(p, i + 3, 0, false) == Closed(Items(ms[1..]), next) {
      ScanSpan(p, i, m.lo, m.hi, prev, first, Items(ms[1..]), next);
    }
  }

  lemma {:induction false} ScanWritten(p: Text, i: nat, ms: seq<Member>, prev: int, first: bool, fl: Flags)
    requires PlainMembers(ms, first, fl) && ReadsMembers(p, i, ms)
    requires first ==> ms != []
    ensures ScanItems(p, i, prev, first) == Closed(Items(ms), i + |WriteMembers(ms)| + 1)
    decreases |ms|
  {
    if ms == [] {
      ReadsChar(p, i, RBRACKET);
    } else {
      RestIsPlain(ms, first, fl);
      assert PlainMember(ms[0], first, |ms| == 1, fl);
      if ms[0].Single? {
        WrittenSingle(p, i, ms, prev, first, fl);
        ScanWritten(p, i + 1, ms[1..], ms[0].c, false, fl);
      } else {
        WrittenSpan(p, i, ms, prev, first, fl);
        ScanWritten(p, i + 3, ms[1..], 0, false, fl);
      }
    }
  }

  lemma RestIsPlain(ms: seq<Member>, first: bool, fl: Flags)
    requires ms != [] && PlainMembers(ms, first, fl)
    ensures PlainMembers(ms[1..], false, fl)
  {
    forall k | 0 <= k < |ms[1..]|
      ensures PlainMember(ms[1..][k], false, k == |ms[1..]| - 1, fl)
    {
      assert ms[1..][k] == ms[k + 1];
    }
  }

  lemma {:induction false} ScanSingle(p: Text, i: nat, c: int, prev: int, first: bool, items: seq<Item>, next: nat)
    requires ReadsAt(p, i, [c]) && (c == RBRACKET ==> first) && (c == DASH ==> At(p, i + 1) == RBRACKET)
    requires ScanItems(p, i + 1, c, false) == Closed(items, next)
    ensures ScanItems(p, i, prev, first) == Closed([One(c)] + items, next)
  {
    ReadsChar(p, i, c);
  }

  /** "lo-hi" is read as the member lo followed by the range from lo to hi. */
  lemma {:induction false} ScanSpan(p: Text, i: nat, lo: int, hi: int, prev: int, first: bool, items: seq<Item>, next: nat)
    requires ReadsAt(p, i, [lo, DASH, hi])
    requires (lo == RBRACKET ==> first) && lo != DASH && hi != 0 && hi != RBRACKET
    requires ScanItems(p, i + 3, 0, false) == Closed(items, next)
    ensures ScanItems(p, i, prev, first) == Closed([One(lo)] + ([Range(lo, hi)] + items), next)
  {
    var w := [lo, DASH, hi];
    assert w[0] == p[i] && w[1] == p[i + 1] && w[2] == p[i + 2];
    assert IsRange(p, i + 1);
    assert ScanItems(p, i + 1, lo, false) == Closed([Range(lo, hi)] + items, next);
  }

  /** From position i to `end` the pattern consists of the texts ws. */
  predicate Covers(p: Text, i: nat, ws: seq<Text>, end: nat)
    decreases |ws|
  {
    if ws == [] then i == end else ReadsAt(p, i, ws[0]) && Covers(p, i + |ws[0]|, ws[1..], end)
  }

  lemma {:induction false} JoinCovers(p: Text, i: nat, ws: seq<Text>, end: nat)
    requires ReadsAt(p, i, Join(ws)) && i + |Join(ws)| == end
    ensures Covers(p, i, ws, end)
    decreases |ws|
  {
    if ws != [] {
      var next := ReadsJoin(p, i, ws);
      JoinCovers(p, next, ws[1..], end);
    }
  }

  /** A written pattern is read back as the tokens its writer meant. */
  lemma {:induction false} ParseWritten(p: Text, i: nat, es: seq<Element>, ws: seq<Text>, fl: Flags)
    requires Spelled(es, ws, fl) && Covers(p, i, ws, |p|)
    ensures Parse(p, i, fl) == Tokens(es)
    decreases |es|
  {
    if es == [] {
      ParseEnd(p, i, fl);
    } else {
      RestIsSpelled(es, ws, fl);
      ParseWritten(p, i + |ws[0]|, es[1..], ws[1..], fl);
      FirstIsMeant(p, i, es, ws, fl);
    }
  }

  lemma {:induction false} FirstIsMeant(p: Text, i: nat, es: seq<Element>, ws: seq<Text>, fl: Flags)
    requires es != [] && Spelled(es, ws, fl) && Covers(p, i, ws, |p|)
    ensures i < |p| && First(p, i, fl) == (TokenOf(es[0]), i + |ws[0]|)
  {
    assert SpelledAt(es, ws, 0, fl);
    SpellsSome(es[0], ws[0], |es| == 1, fl);
    FirstWritten(p, i, es[0], ws[0], |es| == 1, fl);
  }

  lemma SpellsSome(e: Element, w: Text, last: bool, fl: Flags)
    requires Spells(e, w, last, fl)
    ensures w != []
  {
  }

  lemma {:induction false} ParseEnd(p: Text, i: nat, fl: Flags)
    requires i == |p|
    ensures Parse(p, i, fl) == []
  {}

  lemma ReadsJoin(p: Text, i: nat, ws: seq<Text>) returns (next: nat)
    requires ws != [] && ReadsAt(p, i, Join(ws))
    ensures ReadsAt(p, i, ws[0]) && ReadsAt(p, next, Join(ws[1..]))
    ensures next == i + |ws[0]| && next + |Join(ws[1..])| == i + |Join(ws)|
  {
    next := i + |ws[0]|;
    ReadsConcat(p, i, Join(ws), ws[0], Join(ws[1..]));
  }

  lemma RestIsSpelled(es: seq<Element>, ws: seq<Text>, fl: Flags)
    requires es != [] && Spelled(es, ws, fl)
    ensures Spelled(es[1..], ws[1..], fl)
  {
    forall k: nat | k < |es[1..]|
      ensures SpelledAt(es[1..], ws[1..], k, fl)
    {
      assert SpelledAt(es, ws, k + 1, fl);
    }
  }

  lemma {:induction false} FirstWritten(p: Text, i: nat, e: Element, w: Text, last: bool, fl: Flags)
    requires i < |p| && Spells(e, w, last, fl) && ReadsAt(p, i, w) && (last ==> i + |w| == |p|)
    ensures First(p, i, fl) == (TokenOf(e), i + |w|)
  {
    match e
    case OneOf(negate, ms) =>
      var sign :| SetFor(sign, negate, ms, fl) && w == Join(SetParts(sign, ms));
      JoinCovers(p, i, SetParts(sign, ms), i + |w|);
      FirstSpelledSet(p, i, i + |w|, sign, negate, ms, fl);
    case _ =>
      FirstOneWritten(p, i, e, w, last, fl);
  }

  lemma {:induction false} FirstSpelledSet(p: Text, i: nat, next: nat, sign: Text, negate: bool, ms: seq<Member>, fl: Flags)
    requires SetFor(sign, negate, ms, fl) && Covers(p, i, SetParts(sign, ms), next)
    ensures i < |p| && First(p, i, fl) == (Set(negate, Items(ms)), next)
  {
    ReadsBracket(p, i, next, sign, ms);
    FirstSetWritten(p, i, next, sign, negate, ms, fl);
  }

  lemma {:induction false} FirstOneWritten(p: Text, i: nat, e: Element, w: Text, last: bool, fl: Flags)
    requires i < |p| && Spells(e, w, last, fl) && !e.OneOf? && ReadsAt(p, i, w) && (last ==> i + |w| == |p|)
    ensures First(p, i, fl) == (TokenOf(e), i + |w|)
  {
    assert w[0] == p[i];
    if |w| == 2 {
      assert w[1] == p[i + 1];
    }
  }

  lemma CoversOne(p: Text, i: nat, ws: seq<Text>, w: Text, rest: seq<Text>, end: nat)
    requires Covers(p, i, ws, end) && ws == [w] + rest
    ensures ReadsAt(p, i, w) && Covers(p, i + |w|, rest, end)
  {
    assert ws[1..] == rest;
  }

  lemma {:induction false} ReadsBracket(p: Text, i: nat, next: nat, sign: Text, ms: seq<Member>)
    requires Covers(p, i, SetParts(sign, ms), next)
    ensures i < |p| && p[i] == LBRACKET
    ensures ReadsAt(p, i + 1, sign) && ReadsMembers(p, i + 1 + |sign|, ms)
    ensures next == i + 1 + |sign| + |WriteMembers(ms)| + 1
  {
    var text := WriteMembers(ms);
    CoversOne(p, i, SetParts(sign, ms), [LBRACKET], [sign, text, [RBRACKET]], next);
    CoversOne(p, i + 1, [sign, text, [RBRACKET]], sign, [text, [RBRACKET]], next);
    CoversOne(p, i + 1 + |sign|, [text, [RBRACKET]], text, [[RBRACKET]], next);
    CoversOne(p, i + 1 + |sign| + |text|, [[RBRACKET]], [RBRACKET], [], next);
    ReadsChar(p, i, LBRACKET);
  }

  /** What stands behind the opening bracket is the sign, or the first member. */
  lemma {:induction false} ReadsSign(p: Text, i: nat, sign: Text, negate: bool, ms: seq<Member>, fl: Flags)
    requires SetFor(sign, negate, ms, fl) && ReadsAt(p, i, sign) && ReadsMembers(p, i + |sign|, ms)
    ensures Negated(p, i) <==> negate
  {
    if negate {
      ReadsChar(p, i, sign[0]);
    } else {
      ReadsSplit(p, i, WriteMember(ms[0]), WriteMembers(ms[1..]));
      assert WriteMember(ms[0])[0] == p[i];
    }
  }

  lemma {:induction false} FirstSet(p: Text, i: nat, negate: bool, items: seq<Item>, next: nat, fl: Flags)
    requires i < |p| && p[i] == LBRACKET && (Negated(p, i + 1) <==> negate)
    requires i < next && ScanBracket(p, i) == Closed(items, next)
    ensures First(p, i, fl) == (Set(negate, items), next)
  {}

  lemma {:induction false} FirstSetWritten(p: Text, i: nat, next: nat, sign: Text, negate: bool, ms: seq<Member>, fl: Flags)
    requires SetFor(sign, negate, ms, fl) && i < |p| && p[i] == LBRACKET
    requires ReadsAt(p, i + 1, sign) && ReadsMembers(p, i + 1 + |sign|, ms)
    requires next == i + 1 + |sign| + |WriteMembers(ms)| + 1
    ensures First(p, i, fl) == (Set(negate, Items(ms)), next)
  {
    ReadsSign(p, i + 1, sign, negate, ms, fl);
    ScanWritten(p, i + 1 + |sign|, ms, 0, true, fl);
    FirstSet(p, i, negate, Items(ms), next, fl);
  }

  lemma {:induction false} ItemsMean(ms: seq<Member>, c: int, fl: Flags)
    requires forall k :: 0 <= k < |ms| && ms[k].Span? ==> Fold(ms[k].lo, fl) <= Fold(ms[k].hi, fl)
    ensures InItems(Items(ms), c, fl) <==> InMembers(ms, c, fl)
  {
    if ms != [] {
      assert forall k :: 0 <= k < |ms[1..]| ==> ms[1..][k] == ms[k + 1];
      ItemsMean(ms[1..], c, fl);
      MembersCons(ms, c, fl);
      if ms[0].Single? {
        InItemsCons(One(ms[0].c), Items(ms[1..]), c, fl);
      } else {
        InItemsCons(Range(ms[0].lo, ms[0].hi), Items(ms[1..]), c, fl);
        InItemsCons(One(ms[0].lo), [Range(ms[0].lo, ms[0].hi)] + Items(ms[1..]), c, fl);
        SpanItems(ms);
      }
    }
  }

  lemma MembersCons(ms: seq<Member>, c: int, fl: Flags)
    requires ms != []
    ensures InMembers(ms, c, fl) <==> IsMember(ms[0], c, fl) || InMembers(ms[1..], c, fl)
  {
    if i :| 0 <= i < |ms[1..]| && IsMember(ms[1..][i], c, fl) {
      assert ms[i + 1] == ms[1..][i];
    }
    if i :| 0 < i < |ms| && IsMember(ms[i], c, fl) {
      assert ms[1..][i - 1] == ms[i];
    }
  }

  lemma {:induction false} TokensMean(es: seq<Element>, ws: seq<Text>, s: Text, fl: Flags)
    requires Spelled(es, ws, fl)
    ensures Accepts(Tokens(es), s, fl) <==> Means(es, s, fl)
    decreases |es|
  {
    if es != [] {
      assert Tokens(es)[1..] == Tokens(es[1..]);
      RestIsSpelled(es, ws, fl);
      if es[0].AnyText? {
        forall k | 0 <= k <= |s|
          ensures Accepts(Tokens(es[1..]), s[k..], fl) <==> Means(es[1..], s[k..], fl)
        {
          TokensMean(es[1..], ws[1..], s[k..], fl);
        }
      } else if s != [] {
        TokensMean(es[1..], ws[1..], s[1..], fl);
        if es[0].OneOf? {
          assert SpelledAt(es, ws, 0, fl);
          ItemsMean(es[0].members, s[0], fl);
        }
      }
    }
  }

  /** However a pattern is spelled, matching what is written accepts exactly the texts that were meant. */
  lemma {:induction false} WrittenPatternMeans(es: seq<Element>, ws: seq<Text>, s: Text, fl: Flags)
    requires Spelled(es, ws, fl)
    ensures Accepts(Parse(Join(ws), 0, fl), s, fl) <==> Means(es, s, fl)
  {
    assert ReadsAt(Join(ws), 0, Join(ws));
    JoinCovers(Join(ws), 0, ws, |Join(ws)|);
    ParseWritten(Join(ws), 0, es, ws, fl);
    TokensMean(es, ws, s, fl);
  }

  /** The characters of t, each meant as itself. */
  function Bare(t: Text): (es: seq<Element>)
    ensures |es| == |t| && forall i :: 0 <= i < |t| ==> es[i] == Exactly(t[i])
  {
    seq(|t|, i requires 0 <= i < |t| => Exactly(t[i]))
  }

  function Chars(t: Text): (ws: seq<Text>)
    ensures |ws| == |t| && forall i :: 0 <= i < |t| ==> ws[i] == [t[i]]
  {
    seq(|t|, i requires 0 <= i < |t| => [t[i]])
  }

  lemma {:induction false} JoinChars(t: Text)
    ensures Join(Chars(t)) == t
    decreases |t|
  {
    if t != [] {
      assert Chars(t)[1..] == Chars(t[1..]);
      JoinChars(t[1..]);
      assert t == [t[0]] + t[1..];
    }
  }

  predicate SameFolded(t: Text, s: Text, fl: Flags) {
    |s| == |t| && forall i :: 0 <= i < |t| ==> Fold(t[i], fl) == Fold(s[i], fl)
  }

  lemma {:induction false} BareMeans(t: Text, s: Text, fl: Flags)
    ensures Means(Bare(t), s, fl) <==> SameFolded(t, s, fl)
    decreases |t|
  {
    if t != [] && s != [] {
      assert Bare(t)[1..] == Bare(t[1..]);
      BareMeans(t[1..], s[1..], fl);
      assert SameFolded(t, s, fl) <==> Fold(t[0], fl) == Fold(s[0], fl) && SameFolded(t[1..], s[1..], fl) by {
        if Fold(t[0], fl) == Fold(s[0], fl) && SameFolded(t[1..], s[1..], fl) {
          forall i | 0 <= i < |t|
            ensures Fold(t[i], fl) == Fold(s[i], fl)
          {
            assert i > 0 ==> t[i] == t[1..][i - 1] && s[i] == s[1..][i - 1];
          }
        }
      }
    }
  }

  /** A pattern without special characters matches its own text, up to case where case is folded, and nothing else. */
  lemma {:induction false} PlainTextMatchesItself(t: Text, s: Text, fl: Flags)
    requires NoNul(t) && forall i :: 0 <= i < |t| ==> Ordinary(t[i], i == |t| - 1, fl)
    ensures Accepts(Parse(t, 0, fl), s, fl) <==> SameFolded(t, s, fl)
  {
    JoinChars(t);
    WrittenPatternMeans(Bare(t), Chars(t), s, fl);
    BareMeans(t, s, fl);
  }

  /** Two characters fold alike exactly when they are equal or the two cases of one letter. */
  lemma FoldPairsLetters(c: int, d: int, fl: Flags)
    ensures Fold(c, fl) == Fold(d, fl)
      <==> c == d || (fl.casefold && ((65 <= c <= 90 && d == c + 32) || (65 <= d <= 90 && c == d + 32)))
  {
  }

  /** A bracket that is never closed matches nothing, whatever stands in front of it. */
  lemma {:induction false} UnclosedMatchesNothing(p: Text, i: nat, fl: Flags, front: seq<Token>, s: Text)
    requires i < |p| && p[i] == LBRACKET && forall k :: i < k < |p| ==> p[k] != RBRACKET
    ensures Parse(p, i, fl) == [Broken]
    ensures !Accepts(front + Parse(p, i, fl), s, fl)
  {
    NeverClosed(p, if Negated(p, i + 1) then i + 2 else i + 1, 0, true);
    BrokenAccepts(front, s, fl);
  }

  lemma {:induction false} NeverClosed(p: Text, i: nat, prev: int, first: bool)
    requires forall k :: i <= k < |p| ==> p[k] != RBRACKET
    ensures ScanItems(p, i, prev, first) == Open
    decreases |p| - i
  {
    if i < |p| {
      NeverClosed(p, i + 1, p[i], false);
      NeverClosed(p, i + 2, 0, false);
    }
  }

  lemma {:induction false} BrokenAccepts(front: seq<Token>, s: Text, fl: Flags)
    ensures !Accepts(front + [Broken], s, fl)
    decreases |front|
  {
    if front != [] {
      assert (front + [Broken])[1..] == front[1..] + [Broken];
      forall k | 0 <= k <= |s|
        ensures !Accepts(front[1..] + [Broken], s[k..], fl)
      {
        BrokenAccepts(front[1..], s[k..], fl);
      }
    }
  }

  /** "[lo-hi]" matches exactly the characters from lo to hi. */
  ghost predicate SpanIsExact(lo: int, hi: int, fl: Flags) {
    forall c: int :: InItems([One(lo), Range(lo, hi)], c, fl) == IsMember(Span(lo, hi), c, fl)
  }

  /**
   * A span is read as its first end and a range, so it stands for the characters between
   * its ends exactly when the ends are in order: "[z-a]" still matches z.
   */
  lemma {:induction false} SpanNeedsOrder(lo: int, hi: int, fl: Flags)
    ensures SpanIsExact(lo, hi, fl) <==> Fold(lo, fl) <= Fold(hi, fl)
  {
    var items := [One(lo), Range(lo, hi)];
    assert InItem(items[0], lo, fl) && InItems(items, lo, fl);
    if Fold(lo, fl) <= Fold(hi, fl) {
      forall c: int
        ensures InItems(items, c, fl) == IsMember(Span(lo, hi), c, fl)
      {
        assert InItem(items[1], c, fl) == IsMember(Span(lo, hi), c, fl);
      }
    }
  }

  /**
   * A '-' in front of another character makes a range, from the single character before it
   * and from 0 when there is none: in front of all members, or right behind a range.
   */
  lemma DashMakesRange(p: Text, i: nat, prev: int, first: bool)
    requires IsRange(p, i)
    ensures ScanItems(p, i, prev, first)
      == match ScanItems(p, i + 2, 0, false)
         case Open => Open
         case Closed(items, next) => Closed([Range(prev, p[i + 1])] + items, next)
  {
  }

  /** With only one other member x it never stands for '-' and x. */
  lemma LeadingDash(x: int, fl: Flags)
    requires x != 0 && x != RBRACKET
    ensures Parse([LBRACKET, DASH, x, RBRACKET], 0, fl) == [Set(false, [Range(0, x)])]
    ensures exists c :: c != 0 && InItems([Range(0, x)], c, fl) != InMembers([Single(DASH), Single(x)], c, fl)
  {
    var p := [LBRACKET, DASH, x, RBRACKET];
    assert ScanItems(p, 3, 0, false) == Closed([], 4);
    DashMakesRange(p, 1, 0, true);
    assert ScanBracket(p, 0) == Closed([Range(0, x)], 4);
    assert Parse(p, 4, fl) == [];
    var range, both := [Range(0, x)], [Single(DASH), Single(x)];
    var c := if Fold(x, fl) < 0 then x else if x == 1 then DASH else 1;
    assert InItems(range, c, fl) <==> InItem(range[0], c, fl);
    assert InMembers(both, c, fl) <==> IsMember(both[0], c, fl) || IsMember(both[1], c, fl);
  }
}
