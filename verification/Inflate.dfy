/** DEFLATE (RFC 1951): what a compressed stream means, and the inflater that
    must produce it. */
module Inflate {
  import opened Units
  import opened Dyadic
  import opened Words
  import opened Huffman

  const LEN_BASE: seq<nat> := [3, 4, 5, 6, 7, 8, 9, 10, 11, 13, 15, 17, 19, 23, 27, 31,
                               35, 43, 51, 59, 67, 83, 99, 115, 131, 163, 195, 227, 258]
  const LEN_EXTRA: seq<nat> := [0, 0, 0, 0, 0, 0, 0, 0, 1, 1, 1, 1, 2, 2, 2, 2, 3, 3, 3, 3,
                                4, 4, 4, 4, 5, 5, 5, 5, 0]
  const DIST_BASE: seq<nat> := [1, 2, 3, 4, 5, 7, 9, 13, 17, 25, 33, 49, 65, 97, 129, 193, 257, 385,
                                513, 769, 1025, 1537, 2049, 3073, 4097, 6145, 8193, 12289, 16385, 24577]
  const DIST_EXTRA: seq<nat> := [0, 0, 0, 0, 1, 1, 2, 2, 3, 3, 4, 4, 5, 5, 6, 6, 7, 7, 8, 8,
                                 9, 9, 10, 10, 11, 11, 12, 12, 13, 13]
  const CL_ORDER: seq<nat> := [16, 17, 18, 0, 8, 7, 9, 6, 10, 5, 11, 4, 12, 3, 13, 2, 14, 1, 15]
  const END_OF_BLOCK: nat := 256

  function LenBase(i: nat): nat
    requires i < 29
  {
    LEN_BASE[i]
  }

  function LenExtra(i: nat): nat
    requires i < 29
  {
    LEN_EXTRA[i]
  }

  function DistBase(i: nat): (r: nat)
    requires i < 30
    ensures r > 0
  {
    DIST_BASE[i]
  }

  function DistExtra(i: nat): nat
    requires i < 30
  {
    DIST_EXTRA[i]
  }

  /** The ranges of the length codes abut, from 3 on; 258 has a code of its own. */
  lemma LengthTable(i: nat)
    requires i < 29
    ensures LenExtra(i) == if i < 4 || i == 28 then 0 else i / 4 - 1
    ensures i == 0 ==> LenBase(i) == 3
    ensures i == 28 ==> LenBase(i) == 258 && LenBase(27) + Pow2(LenExtra(27)) == 259
    ensures i < 27 ==> LenBase(i + 1) == LenBase(i) + Pow2(LenExtra(i))
  {
    LengthSteps(i);
    PowTable();
    hide LenBase, LenExtra, Pow2;
  }

  lemma LengthSteps(i: nat)
    requires i < 29
    ensures LenExtra(i) == if i < 4 || i == 28 then 0 else i / 4 - 1
    ensures LenBase(0) == 3 && LenBase(27) == 227 && LenBase(28) == 258
    ensures i < 27 ==>
      LenBase(i + 1) - LenBase(i) == if i < 8 then 1 else if i < 12 then 2 else if i < 16 then 4 else if i < 20 then 8 else if i < 24 then 16 else 32
  {
  }

  lemma PowTable()
    ensures Pow2(0) == 1 && Pow2(1) == 2 && Pow2(2) == 4 && Pow2(3) == 8 && Pow2(4) == 16 && Pow2(5) == 32 && Pow2(6) == 64
    ensures Pow2(7) == 128 && Pow2(8) == 256 && Pow2(9) == 512 && Pow2(10) == 1024 && Pow2(11) == 2048 && Pow2(12) == 4096
    ensures Pow2(13) == 8192
  {
    assert Pow2(4) == 16 && Pow2(8) == 256 && Pow2(12) == 4096;
  }

  /** The ranges of the distance codes abut, from 1 up to the whole window. */
  lemma DistanceTable(i: nat)
    requires i < 30
    ensures DistExtra(i) == if i < 2 then 0 else i / 2 - 1
    ensures i == 0 ==> DistBase(i) == 1
    ensures if i < 29 then DistBase(i + 1) == DistBase(i) + Pow2(DistExtra(i)) else DistBase(i) + Pow2(DistExtra(i)) == 32769
  {
    DistanceSteps(i);
    PowTable();
    hide DistBase, DistExtra, Pow2;
  }

  lemma DistanceSteps(i: nat)
    requires i < 30
    ensures DistExtra(i) == if i < 2 then 0 else i / 2 - 1
    ensures DistBase(0) == 1 && DistBase(29) == 24577
    ensures i < 29 ==>
      DistBase(i + 1) - DistBase(i) == if i < 4 then 1 else if i < 6 then 2 else if i < 8 then 4 else if i < 10 then 8
        else if i < 12 then 16 else if i < 14 then 32 else if i < 16 then 64 else if i < 18 then 128 else if i < 20 then 256
        else if i < 22 then 512 else if i < 24 then 1024 else if i < 26 then 2048 else if i < 28 then 4096 else 8192
  {
  }

  /** The code that spells a length: the last one whose base is not above it. */
  lemma {:induction false} EveryLength(n: nat, i: nat) returns (l: nat)
    requires i < 28 && LenBase(0) <= n < LenBase(i) + Pow2(LenExtra(i))
    ensures l <= i && LenBase(l) <= n < LenBase(l) + Pow2(LenExtra(l))
    decreases i
  {
    hide LenBase, LenExtra, Pow2;
    if n >= LenBase(i) {
      l := i;
    } else {
      LengthTable(i - 1);
      l := EveryLength(n, i - 1);
    }
  }

  lemma {:induction false} EveryDistance(n: nat, i: nat) returns (d: nat)
    requires i < 30 && DistBase(0) <= n < DistBase(i) + Pow2(DistExtra(i))
    ensures d <= i && DistBase(d) <= n < DistBase(d) + Pow2(DistExtra(d))
    decreases i
  {
    hide DistBase, DistExtra, Pow2;
    if n >= DistBase(i) {
      d := i;
    } else {
      DistanceTable(i - 1);
      d := EveryDistance(n, i - 1);
    }
  }

  /** Every length from 3 to 258 at every distance from 1 to 32768 can be spelt. */
  lemma EveryMatch(length: nat, back: nat) returns (t: Token)
    requires 3 <= length <= 258 && 1 <= back <= 32768
    ensures t.Match? && t.Ok() && t.Length() == length && t.Back() == back
  {
    hide LenBase, LenExtra, DistBase, DistExtra, Pow2;
    LengthTable(0);
    LengthTable(28);
    DistanceTable(0);
    DistanceTable(29);
    var l := EveryLength(length, 27);
    var d := EveryDistance(back, 29);
    t := Match(l, length - LenBase(l), d, back - DistBase(d));
  }

  // ---- LZ77 -----------------------------------------------------------------

  /** A literal, or a length code and a distance code with their extra bits. */
  datatype Token = Literal(b: Byte) | Match(l: nat, lx: nat, d: nat, dx: nat) {
    predicate Ok() {
      Match? ==> l < 29 && d < 30 && lx < Pow2(LenExtra(l)) && dx < Pow2(DistExtra(d))
    }

    function Length(): nat
      requires Ok() && Match?
    {
      LenBase(l) + lx
    }

    function Back(): nat
      requires Ok() && Match?
    {
      DistBase(d) + dx
    }
  }

  /** n bytes, each copied from `back` bytes before the end as it then stands. */
  function Copied(out: seq<Byte>, back: nat, n: nat): seq<Byte>
    requires 0 < back <= |out|
    decreases n
  {
    if n == 0 then out else Copied(out + [out[|out| - back]], back, n - 1)
  }

  predicate Possible(out: seq<Byte>, t: Token) {
    t.Ok() && (t.Match? ==> 0 < t.Back() <= |out|)
  }

  function Apply(out: seq<Byte>, t: Token): seq<Byte>
    requires Possible(out, t)
  {
    match t
    case Literal(b) => out + [b]
    case Match(_, _, _, _) => Copied(out, t.Back(), t.Length())
  }

  predicate AllPossible(out: seq<Byte>, ts: seq<Token>)
    decreases |ts|
  {
    ts == [] || (Possible(out, ts[0]) && AllPossible(Apply(out, ts[0]), ts[1..]))
  }

  function Expand(out: seq<Byte>, ts: seq<Token>): seq<Byte>
    requires AllPossible(out, ts)
    decreases |ts|
  {
    if ts == [] then out else Expand(Apply(out, ts[0]), ts[1..])
  }

  lemma {:induction false} CopiedLength(out: seq<Byte>, back: nat, n: nat)
    requires 0 < back <= |out|
    ensures |Copied(out, back, n)| == |out| + n
    decreases n
  {
    if n > 0 {
      CopiedLength(out + [out[|out| - back]], back, n - 1);
    }
  }

  lemma ApplyGrows(out: seq<Byte>, t: Token)
    requires Possible(out, t)
    ensures |Apply(out, t)| == |out| + if t.Literal? then 1 else t.Length()
  {
    if t.Match? {
      CopiedLength(out, t.Back(), t.Length());
    }
  }

  lemma {:induction false} ExpandGrows(out: seq<Byte>, ts: seq<Token>)
    requires AllPossible(out, ts)
    ensures |Expand(out, ts)| >= |out|
    decreases |ts|
  {
    if ts != [] {
      ApplyGrows(out, ts[0]);
      ExpandGrows(Apply(out, ts[0]), ts[1..]);
    }
  }

  // ---- spelling -------------------------------------------------------------

  predicate TokenCoded(lit: Lengths, dist: Lengths, t: Token) {
    && t.Ok()
    && match t
       case Literal(b) => Used(lit, b)
       case Match(l, _, d, _) => Used(lit, 257 + l) && Used(dist, d)
  }

  function TokenBits(lit: Lengths, dist: Lengths, t: Token): seq<bool>
    requires TokenCoded(lit, dist, t)
  {
    match t
    case Literal(b) => Codeword(lit, b)
    case Match(l, lx, d, dx) =>
      Codeword(lit, 257 + l) + LowFirst(lx, LenExtra(l)) + Codeword(dist, d) + LowFirst(dx, DistExtra(d))
  }

  /** The stream carries these tokens and the end-of-block code, up to `end`. */
  ghost predicate TokensAt(p: seq<Byte>, pos: nat, lit: Lengths, dist: Lengths, ts: seq<Token>, end: nat)
    decreases |ts|
  {
    if ts == [] then
      HasCode(p, pos, lit, END_OF_BLOCK) && end == pos + lit[END_OF_BLOCK]
    else
      && TokenCoded(lit, dist, ts[0]) && At(p, pos, TokenBits(lit, dist, ts[0]))
      && TokensAt(p, pos + |TokenBits(lit, dist, ts[0])|, lit, dist, ts[1..], end)
  }

  lemma AtSplit(p: seq<Byte>, pos: nat, a: seq<bool>, b: seq<bool>)
    requires At(p, pos, a + b)
    ensures At(p, pos, a) && At(p, pos + |a|, b)
  {
    hide StreamBit;
    forall k | 0 <= k < |a|
      ensures StreamBit(p, pos + k) == a[k]
    {
      assert (a + b)[k] == a[k];
    }
    forall k | 0 <= k < |b|
      ensures StreamBit(p, pos + |a| + k) == b[k]
    {
      assert (a + b)[|a| + k] == b[k];
    }
  }

  /** The four parts of a match, each where the reader will look for it. */
  lemma MatchParts(p: seq<Byte>, pos: nat, lit: Lengths, dist: Lengths, t: Token)
    requires TokenCoded(lit, dist, t) && t.Match? && At(p, pos, TokenBits(lit, dist, t))
    ensures HasCode(p, pos, lit, 257 + t.l)
    ensures var p1 := pos + lit[257 + t.l];
      Carries(p, p1, t.lx, LenExtra(t.l)) && HasCode(p, p1 + LenExtra(t.l), dist, t.d) &&
      Carries(p, p1 + LenExtra(t.l) + dist[t.d], t.dx, DistExtra(t.d))
    ensures |TokenBits(lit, dist, t)| == lit[257 + t.l] + LenExtra(t.l) + dist[t.d] + DistExtra(t.d)
  {
    hide At, StreamBit, Codeword, LowFirst, Pow2, LenExtra, DistExtra;
    var a, b, c, d := Codeword(lit, 257 + t.l), LowFirst(t.lx, LenExtra(t.l)), Codeword(dist, t.d), LowFirst(t.dx, DistExtra(t.d));
    AtSplit(p, pos, a + b + c, d);
    AtSplit(p, pos, a + b, c);
    AtSplit(p, pos, a, b);
  }

  // ---- reading tokens -------------------------------------------------------

  /** Byte at a time: a distance shorter than the length repeats what was just written. */
  method CopyBack(out0: seq<Byte>, back: nat, len: nat) returns (out: seq<Byte>)
    requires 0 < back <= |out0|
    ensures out == Copied(out0, back, len) && |out| == |out0| + len
  {
    out := out0;
    for k := 0 to len
      invariant |out| == |out0| + k && Copied(out, back, len - k) == Copied(out0, back, len)
    {
      out := out + [out[|out| - back]];
    }
  }

  /** What is left of the planned tokens, and what they must still add. */
  ghost predicate OnPlan(p: seq<Byte>, pos: nat, lit: Lengths, dist: Lengths, rest: seq<Token>, end: nat,
                         out: seq<Byte>, goal: seq<Byte>)
  {
    TokensAt(p, pos, lit, dist, rest, end) && AllPossible(out, rest) && Expand(out, rest) == goal
  }

  /** One token off the plan. */
  lemma PlanStep(p: seq<Byte>, pos: nat, lit: Lengths, dist: Lengths, rest: seq<Token>, end: nat,
                 out: seq<Byte>, goal: seq<Byte>)
    requires OnPlan(p, pos, lit, dist, rest, end, out, goal) && rest != []
    ensures var t := rest[0];
      && Possible(out, t) && TokenCoded(lit, dist, t) && At(p, pos, TokenBits(lit, dist, t))
      && OnPlan(p, pos + |TokenBits(lit, dist, t)|, lit, dist, rest[1..], end, Apply(out, t), goal)
      && |Apply(out, t)| <= |goal|
  {
    hide At, TokenBits, TokenCoded, Possible, Apply;
    ExpandGrows(Apply(out, rest[0]), rest[1..]);
  }

  /** After a length code: the parts of match t lie ahead. */
  ghost predicate MatchAhead(p: seq<Byte>, pos: nat, dist: Lengths, t: Token, s: int, out: seq<Byte>, cap: nat) {
    && t.Match? && Possible(out, t) && s == 257 + t.l && |out| + t.Length() <= cap
    && Carries(p, pos, t.lx, LenExtra(t.l)) && HasCode(p, pos + LenExtra(t.l), dist, t.d)
    && Carries(p, pos + LenExtra(t.l) + dist[t.d], t.dx, DistExtra(t.d))
  }

  lemma CarriesRange(p: seq<Byte>, pos: nat, x: nat, n: nat)
    requires Carries(p, pos, x, n)
    ensures pos + n <= 8 * |p|
  {
  }

  /** The length and distance of a back-reference, and the copy. */
  method ReadMatch(s: int, dist: Huff, ghost dl: Lengths, input: BitIn, out0: seq<Byte>, cap: nat, ghost t: Token)
    returns (ok: bool, out: seq<Byte>, ghost got: Token)
    requires Built(dist, dl) && input.Valid() && s >= 257 && |out0| <= cap
    modifies input
    ensures input.Valid() && input.Pos() >= old(input.Pos()) && |out| <= cap && (old(input.bad) ==> input.bad)
    ensures ok && !input.bad ==>
      && MatchAhead(input.p, old(input.Pos()), dl, got, s, out0, cap) && out == Apply(out0, got)
      && input.Pos() == old(input.Pos()) + LenExtra(got.l) + dl[got.d] + DistExtra(got.d)
    ensures MatchAhead(input.p, old(input.Pos()), dl, t, s, out0, cap) && !old(input.bad) ==>
      && ok && !input.bad && out == Apply(out0, t)
      && input.Pos() == old(input.Pos()) + LenExtra(t.l) + dl[t.d] + DistExtra(t.d)
  {
    hide Carries, HasCode, Built, Pow2, Copied, LenBase, LenExtra, DistBase, DistExtra;
    ghost var on := MatchAhead(input.p, input.Pos(), dl, t, s, out0, cap) && !input.bad;
    out, got := out0, Literal(0);
    if s - 257 >= 29 {
      return false, out, got;
    }
    if on {
      CarriesRange(input.p, input.Pos(), t.lx, LenExtra(t.l));
    }
    var lx := input.Take(LenExtra(s - 257));
    var len := LenBase(s - 257) + lx;
    var d := Decode(dist, dl, input);
    if d < 0 || d >= 30 || input.bad {
      return false, out, got;
    }
    if on {
      CarriesRange(input.p, input.Pos(), t.dx, DistExtra(t.d));
    }
    var dx := input.Take(DistExtra(d));
    var back := DistBase(d) + dx;
    if back > |out0| || |out0| + len > cap {
      return false, out, got;
    }
    out := CopyBack(out0, back, len);
    ok, got := true, Match(s - 257, lx, d, dx);
  }

  /** The token loop of a compressed block: it stops at the end-of-block code,
      or refuses; a planned stream is expanded as planned. */
  method ReadTokens(lit: Huff, ghost ll: Lengths, dist: Huff, ghost dl: Lengths, input: BitIn, out0: seq<Byte>, cap: nat,
                    ghost ts: seq<Token>, ghost end: nat)
    returns (ok: bool, out: seq<Byte>, ghost got: seq<Token>)
    requires Built(lit, ll) && Built(dist, dl) && input.Valid() && |out0| <= cap
    modifies input
    ensures input.Valid() && input.Pos() >= old(input.Pos()) && |out| <= cap && (old(input.bad) ==> input.bad)
    ensures ok && !input.bad ==>
      TokensAt(input.p, old(input.Pos()), ll, dl, got, input.Pos()) && AllPossible(out0, got) && out == Expand(out0, got)
    ensures TokensAt(input.p, old(input.Pos()), ll, dl, ts, end) && AllPossible(out0, ts) && |Expand(out0, ts)| <= cap && !old(input.bad) ==>
      ok && !input.bad && out == Expand(out0, ts) && input.Pos() == end
  {
    hide Built, HasCode, TokensAt, AllPossible, Expand, Codeword, At, TokenBits, LenBase, LenExtra, DistBase, DistExtra, Spelt, ReadSoFar;
    out, got := out0, [];
    ghost var on := TokensAt(input.p, input.Pos(), ll, dl, ts, end) && AllPossible(out0, ts) && |Expand(out0, ts)| <= cap && !input.bad;
    ghost var rest, goal := ts, if on then Expand(out0, ts) else [];
    NothingRead(input.p, input.Pos(), ll, dl, out0);
    while true
      invariant input.Valid() && input.Pos() >= old(input.Pos()) && |out| <= cap
      invariant on ==> OnPlan(input.p, input.Pos(), ll, dl, rest, end, out, goal) && !input.bad
      invariant old(input.bad) ==> input.bad
      invariant !input.bad ==> ReadSoFar(input.p, old(input.Pos()), ll, dl, got, input.Pos(), out0, out)
      decreases 8 * |input.p| - input.Pos()
    {
      ghost var pos, out1 := input.Pos(), out;
      if on {
        if rest == [] {
          NextEnd(input.p, pos, ll, dl, end, out, goal);
        } else if rest[0].Literal? {
          NextLiteral(input.p, pos, ll, dl, rest, end, out, goal);
        } else {
          NextMatch(input.p, pos, ll, dl, rest, end, out, goal, cap);
        }
      }
      var s := Decode(lit, ll, input);
      if s < 0 || input.bad {
        return false, out, got;
      }
      PosBound(input);
      if s < 256 {
        if |out| >= cap {
          return false, out, got;
        }
        LiteralRead(input.p, old(input.Pos()), ll, dl, got, pos, out0, out, s);
        out, got := out + [s], got + [Literal(s)];
      } else if s == 256 {
        AllRead(input.p, old(input.Pos()), ll, dl, got, pos, out0, out);
        ok := true;
        return;
      } else {
        ghost var t := if on then rest[0] else Literal(0);
        ghost var mid := input.Pos();
        ghost var g;
        ok, out, g := ReadMatch(s, dist, dl, input, out, cap, t);
        if !ok {
          return false, out, got;
        }
        if !input.bad {
          MatchRead(input.p, old(input.Pos()), ll, dl, got, pos, out0, out1, s, mid, g, cap);
        }
        got := got + [g];
      }
      if on {
        rest := rest[1..];
      }
    }
  }

  // ---- what was read --------------------------------------------------------

  /** The stream carries these tokens from pos to end. */
  ghost predicate Spelt(p: seq<Byte>, pos: nat, lit: Lengths, dist: Lengths, ts: seq<Token>, end: nat)
    decreases |ts|
  {
    if ts == [] then end == pos
    else
      && TokenCoded(lit, dist, ts[0]) && At(p, pos, TokenBits(lit, dist, ts[0]))
      && Spelt(p, pos + |TokenBits(lit, dist, ts[0])|, lit, dist, ts[1..], end)
  }

  ghost predicate ReadSoFar(p: seq<Byte>, pos: nat, lit: Lengths, dist: Lengths, ts: seq<Token>, end: nat,
                            out0: seq<Byte>, out: seq<Byte>)
  {
    Spelt(p, pos, lit, dist, ts, end) && AllPossible(out0, ts) && out == Expand(out0, ts)
  }

  lemma NothingRead(p: seq<Byte>, pos: nat, lit: Lengths, dist: Lengths, out0: seq<Byte>)
    ensures ReadSoFar(p, pos, lit, dist, [], pos, out0, out0)
  {
  }

  lemma {:induction false} SpeltSnoc(p: seq<Byte>, pos: nat, lit: Lengths, dist: Lengths, ts: seq<Token>, mid: nat, t: Token)
    requires Spelt(p, pos, lit, dist, ts, mid) && TokenCoded(lit, dist, t) && At(p, mid, TokenBits(lit, dist, t))
    ensures Spelt(p, pos, lit, dist, ts + [t], mid + |TokenBits(lit, dist, t)|)
    decreases |ts|
  {
    hide At, TokenBits, TokenCoded;
    if ts == [] {
      assert ts + [t] == [t];
    } else {
      SpeltSnoc(p, pos + |TokenBits(lit, dist, ts[0])|, lit, dist, ts[1..], mid, t);
      assert (ts + [t])[1..] == ts[1..] + [t];
    }
  }

  lemma {:induction false} SpeltEnds(p: seq<Byte>, pos: nat, lit: Lengths, dist: Lengths, ts: seq<Token>, mid: nat)
    requires Spelt(p, pos, lit, dist, ts, mid) && HasCode(p, mid, lit, END_OF_BLOCK)
    ensures TokensAt(p, pos, lit, dist, ts, mid + lit[END_OF_BLOCK])
    decreases |ts|
  {
    hide At, TokenBits, TokenCoded, Codeword;
    if ts != [] {
      SpeltEnds(p, pos + |TokenBits(lit, dist, ts[0])|, lit, dist, ts[1..], mid);
    }
  }

  lemma {:induction false} ExpandSnoc(out: seq<Byte>, ts: seq<Token>, t: Token)
    requires AllPossible(out, ts) && Possible(Expand(out, ts), t)
    ensures AllPossible(out, ts + [t]) && Expand(out, ts + [t]) == Apply(Expand(out, ts), t)
    decreases |ts|
  {
    hide Possible, Apply;
    if ts == [] {
      assert ts + [t] == [t];
    } else {
      ExpandSnoc(Apply(out, ts[0]), ts[1..], t);
      assert (ts + [t])[1..] == ts[1..] + [t];
    }
  }

  lemma AtJoin(p: seq<Byte>, pos: nat, a: seq<bool>, b: seq<bool>)
    requires At(p, pos, a) && At(p, pos + |a|, b)
    ensures At(p, pos, a + b)
  {
    hide StreamBit;
    forall k | 0 <= k < |a + b|
      ensures StreamBit(p, pos + k) == (a + b)[k]
    {
      assert k >= |a| ==> StreamBit(p, pos + |a| + (k - |a|)) == b[k - |a|];
    }
  }

  lemma LiteralRead(p: seq<Byte>, pos: nat, lit: Lengths, dist: Lengths, ts: seq<Token>, mid: nat,
                    out0: seq<Byte>, out: seq<Byte>, s: Byte)
    requires ReadSoFar(p, pos, lit, dist, ts, mid, out0, out) && HasCode(p, mid, lit, s)
    ensures ReadSoFar(p, pos, lit, dist, ts + [Literal(s)], mid + lit[s], out0, out + [s])
  {
    hide At, Codeword, Spelt, AllPossible, Expand;
    SpeltSnoc(p, pos, lit, dist, ts, mid, Literal(s));
    ExpandSnoc(out0, ts, Literal(s));
  }

  lemma AllRead(p: seq<Byte>, pos: nat, lit: Lengths, dist: Lengths, ts: seq<Token>, mid: nat, out0: seq<Byte>, out: seq<Byte>)
    requires ReadSoFar(p, pos, lit, dist, ts, mid, out0, out) && HasCode(p, mid, lit, END_OF_BLOCK)
    ensures TokensAt(p, pos, lit, dist, ts, mid + lit[END_OF_BLOCK]) && AllPossible(out0, ts) && out == Expand(out0, ts)
  {
    hide HasCode, Spelt, AllPossible, Expand, TokensAt;
    SpeltEnds(p, pos, lit, dist, ts, mid);
  }

  /** The four parts of a match, put together. */
  lemma MatchWhole(p: seq<Byte>, pos: nat, lit: Lengths, dist: Lengths, t: Token)
    requires t.Match? && t.Ok() && HasCode(p, pos, lit, 257 + t.l)
    requires var p1 := pos + lit[257 + t.l];
      && Carries(p, p1, t.lx, LenExtra(t.l)) && HasCode(p, p1 + LenExtra(t.l), dist, t.d)
      && Carries(p, p1 + LenExtra(t.l) + dist[t.d], t.dx, DistExtra(t.d))
    ensures TokenCoded(lit, dist, t) && At(p, pos, TokenBits(lit, dist, t))
    ensures |TokenBits(lit, dist, t)| == lit[257 + t.l] + LenExtra(t.l) + dist[t.d] + DistExtra(t.d)
  {
    hide At, StreamBit, Codeword, LowFirst, Pow2, LenExtra, DistExtra;
    var a, b, c, d := Codeword(lit, 257 + t.l), LowFirst(t.lx, LenExtra(t.l)), Codeword(dist, t.d), LowFirst(t.dx, DistExtra(t.d));
    AtJoin(p, pos, a, b);
    AtJoin(p, pos, a + b, c);
    AtJoin(p, pos, a + b + c, d);
  }

  lemma MatchRead(p: seq<Byte>, pos: nat, lit: Lengths, dist: Lengths, ts: seq<Token>, at: nat,
                  out0: seq<Byte>, out: seq<Byte>, s: nat, mid: nat, t: Token, cap: nat)
    requires ReadSoFar(p, pos, lit, dist, ts, at, out0, out) && HasCode(p, at, lit, s) && mid == at + lit[s]
    requires MatchAhead(p, mid, dist, t, s, out, cap)
    ensures t.Match? && t.Ok() && Possible(out, t) && t.d < |dist|
    ensures ReadSoFar(p, pos, lit, dist, ts + [t], mid + LenExtra(t.l) + dist[t.d] + DistExtra(t.d), out0, Apply(out, t))
  {
    hide Spelt, AllPossible, Expand, At, Codeword, LowFirst, LenBase, LenExtra, DistBase, DistExtra, Pow2, Apply, TokenBits, TokenCoded;
    MatchWhole(p, at, lit, dist, t);
    SpeltSnoc(p, pos, lit, dist, ts, at, t);
    ExpandSnoc(out0, ts, t);
  }

  lemma PosBound(input: BitIn)
    requires input.Valid()
    ensures input.Pos() <= 8 * |input.p|
  {
  }

  /** A planned stream with no tokens left is at its end-of-block code. */
  lemma NextEnd(p: seq<Byte>, pos: nat, lit: Lengths, dist: Lengths, end: nat, out: seq<Byte>, goal: seq<Byte>)
    requires OnPlan(p, pos, lit, dist, [], end, out, goal)
    ensures HasCode(p, pos, lit, END_OF_BLOCK) && end == pos + lit[END_OF_BLOCK] && out == goal
  {
    hide At, Codeword;
  }

  lemma NextLiteral(p: seq<Byte>, pos: nat, lit: Lengths, dist: Lengths, rest: seq<Token>, end: nat,
                    out: seq<Byte>, goal: seq<Byte>)
    requires OnPlan(p, pos, lit, dist, rest, end, out, goal) && rest != [] && rest[0].Literal?
    ensures HasCode(p, pos, lit, rest[0].b) && |out| < |goal|
    ensures OnPlan(p, pos + lit[rest[0].b], lit, dist, rest[1..], end, out + [rest[0].b], goal)
  {
    PlanStep(p, pos, lit, dist, rest, end, out, goal);
    hide At, Codeword, OnPlan;
    assert Apply(out, rest[0]) == out + [rest[0].b];
    assert |TokenBits(lit, dist, rest[0])| == lit[rest[0].b];
  }

  lemma NextMatch(p: seq<Byte>, pos: nat, lit: Lengths, dist: Lengths, rest: seq<Token>, end: nat,
                  out: seq<Byte>, goal: seq<Byte>, cap: nat)
    requires OnPlan(p, pos, lit, dist, rest, end, out, goal) && |goal| <= cap && rest != [] && rest[0].Match?
    ensures var t := rest[0];
      && t.Ok() && HasCode(p, pos, lit, 257 + t.l)
      && MatchAhead(p, pos + lit[257 + t.l], dist, t, 257 + t.l, out, cap) && Possible(out, t)
      && OnPlan(p, pos + lit[257 + t.l] + LenExtra(t.l) + dist[t.d] + DistExtra(t.d), lit, dist, rest[1..], end, Apply(out, t), goal)
  {
    hide At, Codeword, Carries, OnPlan, Apply, TokenBits, HasCode, LenBase, LenExtra, DistBase, DistExtra, Pow2;
    PlanStep(p, pos, lit, dist, rest, end, out, goal);
    ApplyGrows(out, rest[0]);
    MatchParts(p, pos, lit, dist, rest[0]);
  }

  // ---- dynamic code lengths (section 3.2.7) ---------------------------------

  /** A code length, a repeat of the previous one, or a run of zeros. */
  datatype Run = Single(v: nat) | Previous(x: nat) | ShortZeros(x: nat) | LongZeros(x: nat) {
    function Symbol(): nat {
      match this
      case Single(v) => v
      case Previous(_) => 16
      case ShortZeros(_) => 17
      case LongZeros(_) => 18
    }

    function ExtraBits(): nat {
      match this
      case Single(_) => 0
      case Previous(_) => 2
      case ShortZeros(_) => 3
      case LongZeros(_) => 7
    }

    function Extra(): nat {
      if Single? then 0 else x
    }

    predicate Ok() {
      (Single? ==> v < 16) && Extra() < Pow2(ExtraBits())
    }

    /** How many lengths it adds. */
    function Size(): nat {
      match this
      case Single(_) => 1
      case Previous(n) => 3 + n
      case ShortZeros(n) => 3 + n
      case LongZeros(n) => 11 + n
    }
  }

  predicate CanRun(acc: seq<nat>, r: Run) {
    r.Previous? ==> acc != []
  }

  function Unrolled(acc: seq<nat>, r: Run): seq<nat>
    requires CanRun(acc, r)
  {
    acc + match r
      case Single(v) => [v]
      case Previous(_) => Repeat(acc[|acc| - 1], r.Size())
      case _ => Repeat(0, r.Size())
  }

  function Repeat(v: nat, n: nat): (s: seq<nat>)
    ensures |s| == n && forall k :: 0 <= k < n ==> s[k] == v
  {
    seq(n, _ => v)
  }

  /** A last run may announce more than the total; the excess is dropped. */
  function Clip(s: seq<nat>, total: nat): (r: seq<nat>)
    ensures r == if |s| <= total then s else s[..total]
  {
    if |s| <= total then s else s[..total]
  }

  predicate CanRunAll(acc: seq<nat>, rs: seq<Run>, total: nat)
    decreases |rs|
  {
    rs == [] || (|acc| < total && rs[0].Ok() && CanRun(acc, rs[0]) && CanRunAll(Clip(Unrolled(acc, rs[0]), total), rs[1..], total))
  }

  function UnrollAll(acc: seq<nat>, rs: seq<Run>, total: nat): seq<nat>
    requires CanRunAll(acc, rs, total)
    decreases |rs|
  {
    if rs == [] then acc else UnrollAll(Clip(Unrolled(acc, rs[0]), total), rs[1..], total)
  }

  lemma {:induction false} UnrollGrows(acc: seq<nat>, rs: seq<Run>, total: nat)
    requires CanRunAll(acc, rs, total)
    ensures |UnrollAll(acc, rs, total)| >= |acc|
    decreases |rs|
  {
    if rs != [] {
      UnrollGrows(Clip(Unrolled(acc, rs[0]), total), rs[1..], total);
    }
  }

  lemma {:induction false} UnrollSnoc(acc: seq<nat>, rs: seq<Run>, total: nat, r: Run)
    requires CanRunAll(acc, rs, total) && |UnrollAll(acc, rs, total)| < total && r.Ok() && CanRun(UnrollAll(acc, rs, total), r)
    ensures CanRunAll(acc, rs + [r], total)
    ensures UnrollAll(acc, rs + [r], total) == Clip(Unrolled(UnrollAll(acc, rs, total), r), total)
    decreases |rs|
  {
    hide Unrolled, Clip;
    if rs == [] {
      assert rs + [r] == [r];
    } else {
      UnrollSnoc(Clip(Unrolled(acc, rs[0]), total), rs[1..], total, r);
      assert (rs + [r])[1..] == rs[1..] + [r];
    }
  }

  function RunBits(cl: Lengths, r: Run): seq<bool>
    requires Used(cl, r.Symbol())
  {
    Codeword(cl, r.Symbol()) + LowFirst(r.Extra(), r.ExtraBits())
  }

  ghost predicate RunsAt(p: seq<Byte>, pos: nat, cl: Lengths, rs: seq<Run>, end: nat)
    decreases |rs|
  {
    if rs == [] then end == pos
    else
      && rs[0].Ok() && Used(cl, rs[0].Symbol()) && At(p, pos, RunBits(cl, rs[0]))
      && RunsAt(p, pos + |RunBits(cl, rs[0])|, cl, rs[1..], end)
  }

  /** What is left of the planned runs. */
  ghost predicate RunsLeft(p: seq<Byte>, pos: nat, cl: Lengths, rest: seq<Run>, end: nat, acc: seq<nat>, goal: seq<nat>) {
    RunsAt(p, pos, cl, rest, end) && CanRunAll(acc, rest, |goal|) && UnrollAll(acc, rest, |goal|) == goal
  }

  lemma NextRun(p: seq<Byte>, pos: nat, cl: Lengths, rest: seq<Run>, end: nat, acc: seq<nat>, goal: seq<nat>)
    requires RunsLeft(p, pos, cl, rest, end, acc, goal)
    ensures |goal| >= |acc|
    ensures rest == [] <==> |acc| == |goal|
    ensures rest == [] ==> acc == goal && pos == end
    ensures rest != [] ==>
      var r := rest[0];
      && r.Ok() && CanRun(acc, r) && HasCode(p, pos, cl, r.Symbol())
      && Carries(p, pos + cl[r.Symbol()], r.Extra(), r.ExtraBits())
      && RunsLeft(p, pos + cl[r.Symbol()] + r.ExtraBits(), cl, rest[1..], end, Clip(Unrolled(acc, r), |goal|), goal)
  {
    hide At, Codeword, Pow2, LowFirst, Unrolled;
    UnrollGrows(acc, rest, |goal|);
    if rest != [] {
      var r := rest[0];
      AtSplit(p, pos, Codeword(cl, r.Symbol()), LowFirst(r.Extra(), r.ExtraBits()));
    }
  }

  /** The runs read so far. */
  ghost predicate RunsRead(p: seq<Byte>, pos: nat, cl: Lengths, rs: seq<Run>, end: nat, lens: seq<nat>, total: nat) {
    RunsAt(p, pos, cl, rs, end) && CanRunAll([], rs, total) && UnrollAll([], rs, total) == lens
  }

  lemma {:induction false} RunsSnoc(p: seq<Byte>, pos: nat, cl: Lengths, rs: seq<Run>, mid: nat, r: Run)
    requires RunsAt(p, pos, cl, rs, mid) && r.Ok() && Used(cl, r.Symbol()) && At(p, mid, RunBits(cl, r))
    ensures RunsAt(p, pos, cl, rs + [r], mid + |RunBits(cl, r)|)
    decreases |rs|
  {
    hide At, RunBits;
    if rs == [] {
      assert rs + [r] == [r];
    } else {
      RunsSnoc(p, pos + |RunBits(cl, rs[0])|, cl, rs[1..], mid, r);
      assert (rs + [r])[1..] == rs[1..] + [r];
    }
  }

  lemma OneRun(p: seq<Byte>, pos: nat, cl: Lengths, rs: seq<Run>, mid: nat, lens: seq<nat>, total: nat, r: Run)
    requires RunsRead(p, pos, cl, rs, mid, lens, total) && |lens| < total && r.Ok() && CanRun(lens, r)
    requires HasCode(p, mid, cl, r.Symbol()) && Carries(p, mid + cl[r.Symbol()], r.Extra(), r.ExtraBits())
    ensures RunsRead(p, pos, cl, rs + [r], mid + cl[r.Symbol()] + r.ExtraBits(), Clip(Unrolled(lens, r), total), total)
  {
    hide At, Codeword, Pow2, LowFirst, Unrolled, RunsAt, CanRunAll, UnrollAll, Clip;
    AtJoin(p, mid, Codeword(cl, r.Symbol()), LowFirst(r.Extra(), r.ExtraBits()));
    RunsSnoc(p, pos, cl, rs, mid, r);
    UnrollSnoc([], rs, total, r);
  }

  lemma NoRuns(p: seq<Byte>, pos: nat, cl: Lengths, total: nat)
    ensures RunsRead(p, pos, cl, [], pos, [], total)
  {
  }

  /** Appends a value up to rep times, never past the announced total. */
  method AppendRun(lens0: seq<nat>, v: nat, rep: nat, total: nat) returns (lens: seq<nat>)
    requires |lens0| <= total && v <= 15 && forall k :: 0 <= k < |lens0| ==> lens0[k] <= 15
    ensures |lens| <= total && |lens| >= |lens0| && forall k :: 0 <= k < |lens| ==> lens[k] <= 15
    ensures lens == Clip(lens0 + Repeat(v, rep), total)
    ensures rep > 0 && |lens0| < total ==> |lens| > |lens0|
  {
    lens := lens0;
    var left := rep;
    while left > 0 && |lens| < total
      invariant 0 <= left <= rep && |lens0| <= |lens| <= total && |lens| == |lens0| + (rep - left)
      invariant lens == lens0 + Repeat(v, rep - left)
      decreases left
    {
      left := left - 1;
      lens := lens + [v];
    }
  }

  /** One code-length symbol with its extra bits. */
  method ReadRun(s: nat, input: BitIn, lens0: seq<nat>, total: nat) returns (ok: bool, lens: seq<nat>, ghost r: Run)
    requires input.Valid() && s < 19 && |lens0| < total && forall k :: 0 <= k < |lens0| ==> lens0[k] <= 15
    modifies input
    ensures input.Valid() && input.Pos() >= old(input.Pos()) && (old(input.bad) ==> input.bad)
    ensures r.Symbol() == s && ok == CanRun(lens0, r) && (r.Single? ==> r.v < 16)
    ensures ok ==> |lens0| < |lens| <= total && lens == Clip(Unrolled(lens0, r), total) && forall k :: 0 <= k < |lens| ==> lens[k] <= 15
    ensures ok && !input.bad ==>
      r.Ok() && Carries(input.p, old(input.Pos()), r.Extra(), r.ExtraBits()) && input.Pos() == old(input.Pos()) + r.ExtraBits()
    ensures ok && old(input.Pos()) + r.ExtraBits() <= 8 * |input.p| ==> input.bad == old(input.bad)
    ensures ok ==> forall x: nat :: Carries(input.p, old(input.Pos()), x, r.ExtraBits()) ==> x == r.Extra()
  {
    hide Carries, Pow2;
    PowSmall();
    if s < 16 {
      r := Single(s);
      PosBound(input);
      NothingCarried(input.p, input.Pos());
      return true, lens0 + [s], r;
    }
    if s == 16 {
      r, lens := Previous(0), lens0;
      if |lens0| == 0 {
        return false, lens, r;
      }
      var x := input.Take(2);
      r := Previous(x);
      lens := AppendRun(lens0, lens0[|lens0| - 1], 3 + x, total);
    } else if s == 17 {
      var x := input.Take(3);
      r := ShortZeros(x);
      lens := AppendRun(lens0, 0, 3 + x, total);
    } else {
      var x := input.Take(7);
      r := LongZeros(x);
      lens := AppendRun(lens0, 0, 11 + x, total);
    }
    ok := true;
  }

  lemma NothingCarried(p: seq<Byte>, pos: nat)
    requires pos <= 8 * |p|
    ensures forall x: nat :: Carries(p, pos, x, 0) <==> x == 0
  {
  }

  /** The run-length coded code lengths. */
  method ReadLengths(clh: Huff, ghost cl: Lengths, input: BitIn, total: nat, ghost rs: seq<Run>, ghost end: nat)
    returns (ok: bool, lens: seq<nat>, ghost got: seq<Run>)
    requires Built(clh, cl) && |cl| == 19 && input.Valid()
    modifies input
    ensures input.Valid() && input.Pos() >= old(input.Pos()) && (old(input.bad) ==> input.bad)
    ensures ok ==> |lens| == total && forall k :: 0 <= k < |lens| ==> lens[k] <= 15
    ensures ok && !input.bad ==> RunsRead(input.p, old(input.Pos()), cl, got, input.Pos(), lens, total)
    ensures RunsAt(input.p, old(input.Pos()), cl, rs, end) && CanRunAll([], rs, total) && |UnrollAll([], rs, total)| == total && !old(input.bad) ==>
      ok && !input.bad && lens == UnrollAll([], rs, total) && input.Pos() == end
  {
    hide Built, HasCode, Carries, RunsAt, CanRunAll, UnrollAll, Codeword, At, Pow2, Unrolled, Clip, RunsRead;
    lens, got := [], [];
    ghost var on := RunsAt(input.p, input.Pos(), cl, rs, end) && CanRunAll([], rs, total) && |UnrollAll([], rs, total)| == total && !input.bad;
    ghost var rest, goal := rs, if on then UnrollAll([], rs, total) else [];
    NoRuns(input.p, input.Pos(), cl, total);
    while |lens| < total
      invariant input.Valid() && input.Pos() >= old(input.Pos()) && |lens| <= total && (old(input.bad) ==> input.bad)
      invariant forall k :: 0 <= k < |lens| ==> lens[k] <= 15
      invariant !input.bad ==> RunsRead(input.p, old(input.Pos()), cl, got, input.Pos(), lens, total)
      invariant on ==> RunsLeft(input.p, input.Pos(), cl, rest, end, lens, goal) && !input.bad
      decreases total - |lens|
    {
      ghost var pos, was := input.Pos(), lens;
      if on {
        NextRun(input.p, pos, cl, rest, end, lens, goal);
        hide RunsLeft;
      }
      var s := Decode(clh, cl, input);
      if s < 0 || input.bad {
        return false, lens, got;
      }
      SymbolRange(input.p, pos, cl, s);
      if on {
        CarriesRange(input.p, input.Pos(), rest[0].Extra(), rest[0].ExtraBits());
      }
      ghost var mid, r := input.Pos(), Single(0);
      ok, lens, r := ReadRun(s, input, lens, total);
      if on {
        RunSame(was, r, rest[0]);
      }
      if !ok {
        return false, lens, got;
      }
      if !input.bad {
        OneRun(input.p, old(input.Pos()), cl, got, pos, was, total, r);
      }
      got := got + [r];
      if on {
        rest := rest[1..];
      }
    }
    if on {
      NextRun(input.p, input.Pos(), cl, rest, end, lens, goal);
    }
    ok := true;
  }

  lemma SymbolRange(p: seq<Byte>, pos: nat, cl: Lengths, s: nat)
    requires HasCode(p, pos, cl, s)
    ensures s < |cl|
  {
    hide At, Codeword;
  }

  /** What was read where a run was planned is that run. */
  lemma RunSame(lens: seq<nat>, r: Run, plan: Run)
    requires r.Symbol() == plan.Symbol() && plan.Ok() && CanRun(lens, plan) && (r.Single? ==> r.v < 16)
    ensures CanRun(lens, r) && r.ExtraBits() == plan.ExtraBits()
    ensures r.Extra() == plan.Extra() ==> r == plan
  {
  }

  lemma PowSmall()
    ensures Pow2(0) == 1 && Pow2(2) == 4 && Pow2(3) == 8
  {
  }

  // ---- block headers --------------------------------------------------------

  const CL_INDEX: seq<nat> := [3, 17, 15, 13, 11, 9, 7, 5, 4, 6, 8, 10, 12, 14, 16, 18, 0, 1, 2]

  /** The code-length alphabet's own order is a permutation of it. */
  lemma OrderIsPermutation()
    ensures |CL_ORDER| == 19 && |CL_INDEX| == 19
    ensures forall k :: 0 <= k < 19 ==> 0 <= CL_ORDER[k] < 19 && CL_INDEX[CL_ORDER[k]] == k
    ensures forall i :: 0 <= i < 19 ==> 0 <= CL_INDEX[i] < 19 && CL_ORDER[CL_INDEX[i]] == i
  {
  }

  /** First the three run symbols and 0, then outward from 8 and 7 by turns. */
  lemma OrderOutward(j: nat)
    ensures CL_ORDER[..4] == [16, 17, 18, 0]
    ensures j <= 7 ==> CL_ORDER[4 + 2 * j] == 8 + j
    ensures j <= 6 ==> CL_ORDER[5 + 2 * j] == 7 - j
  {
  }

  /** A dynamic block's header: the counts, the code-length code, the runs, and
      the lengths the runs spell. */
  datatype Header = Header(hlit: nat, hdist: nat, hclen: nat, cl: seq<nat>, rs: seq<Run>, lens: seq<nat>)

  predicate IsLengths(s: seq<nat>) {
    |s| <= 288 && forall k :: 0 <= k < |s| ==> s[k] <= 15
  }

  ghost predicate ClOk(cl: seq<nat>, hclen: nat) {
    && 4 <= hclen <= 19 && |cl| == 19 && (forall k :: 0 <= k < 19 ==> cl[k] < 8)
    && (forall k :: hclen <= k < 19 ==> cl[Order(k)] == 0)
  }

  function Order(k: nat): (i: nat)
    requires k < 19
    ensures i < 19
  {
    OrderIsPermutation();
    CL_ORDER[k]
  }

  /** The lengths of both codes: enough of them, none over 15, neither code
      over-subscribed. */
  ghost predicate LensOk(lens: seq<nat>, hlit: nat, hdist: nat) {
    && 257 <= hlit <= 286 && 1 <= hdist <= 30 && |lens| == hlit + hdist
    && (forall k :: 0 <= k < |lens| ==> lens[k] <= 15)
    && IsLengths(lens[..hlit]) && Fits(lens[..hlit]) && IsLengths(lens[hlit..]) && Fits(lens[hlit..])
  }

  ghost predicate HeaderOk(h: Header) {
    && LensOk(h.lens, h.hlit, h.hdist) && ClOk(h.cl, h.hclen) && Fits(h.cl)
    && CanRunAll([], h.rs, |h.lens|) && UnrollAll([], h.rs, |h.lens|) == h.lens
  }

  ghost function LitLens(h: Header): Lengths
    requires LensOk(h.lens, h.hlit, h.hdist)
  {
    h.lens[..h.hlit]
  }

  ghost function DistLens(h: Header): Lengths
    requires LensOk(h.lens, h.hlit, h.hdist)
  {
    h.lens[h.hlit..]
  }

  ghost predicate ClAt(p: seq<Byte>, pos: nat, cl: seq<nat>, hclen: nat)
    requires ClOk(cl, hclen)
  {
    forall k :: 0 <= k < hclen ==> Carries(p, pos + 3 * k, cl[Order(k)], 3)
  }

  ghost predicate HeaderAt(p: seq<Byte>, pos: nat, h: Header, end: nat)
    requires HeaderOk(h)
  {
    && CountsAt(p, pos, h.hlit, h.hdist, h.hclen)
    && ClAt(p, pos + 14, h.cl, h.hclen) && RunsAt(p, pos + 14 + 3 * h.hclen, h.cl, h.rs, end)
  }

  /** The code lengths of the code-length alphabet, three bits each. */
  method ReadClLengths(input: BitIn, hclen: nat, ghost cl: seq<nat>) returns (c: seq<nat>)
    requires input.Valid() && 4 <= hclen <= 19
    modifies input
    ensures input.Valid() && input.Pos() >= old(input.Pos()) && (old(input.bad) ==> input.bad)
    ensures |c| == 19 && forall k :: 0 <= k < 19 ==> c[k] < 8
    ensures ClOk(c, hclen)
    ensures !input.bad ==> ClAt(input.p, old(input.Pos()), c, hclen) && input.Pos() == old(input.Pos()) + 3 * hclen
    ensures ClOk(cl, hclen) && ClAt(input.p, old(input.Pos()), cl, hclen) && !old(input.bad) ==>
      c == cl && !input.bad && input.Pos() == old(input.Pos()) + 3 * hclen
  {
    hide Carries, Pow2, Order;
    PowSmall();
    ghost var start, on := input.Pos(), ClOk(cl, hclen) && ClAt(input.p, input.Pos(), cl, hclen) && !input.bad;
    c := seq(19, _ => 0);
    for k := 0 to hclen
      invariant input.Valid() && input.Pos() >= start && |c| == 19 && forall j :: 0 <= j < 19 ==> c[j] < 8
      invariant old(input.bad) ==> input.bad
      invariant !input.bad ==> input.Pos() == start + 3 * k
      invariant !input.bad ==> forall j :: 0 <= j < k ==> Carries(input.p, start + 3 * j, c[Order(j)], 3)
      invariant on ==> !input.bad && input.Pos() == start + 3 * k
      invariant on ==> forall j :: 0 <= j < k ==> c[Order(j)] == cl[Order(j)]
      invariant forall j :: k <= j < 19 ==> c[Order(j)] == 0
    {
      if on {
        CarriesRange(input.p, start + 3 * k, cl[Order(k)], 3);
      }
      var v := input.Take(3);
      OrderDistinct(k);
      c := c[Order(k) := v];
    }
    if on {
      OrderCovers(c, cl);
    }
  }

  lemma OrderDistinct(k: nat)
    requires k < 19
    ensures forall j :: 0 <= j < 19 && j != k ==> Order(j) != Order(k)
  {
    OrderIsPermutation();
  }

  lemma OrderCovers(c: seq<nat>, cl: seq<nat>)
    requires |c| == 19 && |cl| == 19 && forall j :: 0 <= j < 19 ==> c[Order(j)] == cl[Order(j)]
    ensures c == cl
  {
    OrderIsPermutation();
    forall i | 0 <= i < 19
      ensures c[i] == cl[i]
    {
      assert Order(CL_INDEX[i]) == i;
    }
  }

  /** HLIT, HDIST and HCLEN, fourteen bits in all. */
  ghost predicate CountsAt(p: seq<Byte>, pos: nat, hlit: nat, hdist: nat, hclen: nat) {
    && hlit >= 257 && hdist >= 1 && hclen >= 4
    && Carries(p, pos, hlit - 257, 5) && Carries(p, pos + 5, hdist - 1, 5) && Carries(p, pos + 10, hclen - 4, 4)
  }

  method ReadCounts(input: BitIn) returns (hlit: nat, hdist: nat, hclen: nat)
    requires input.Valid()
    modifies input
    ensures input.Valid() && input.Pos() >= old(input.Pos()) && (old(input.bad) ==> input.bad)
    ensures hlit >= 257 && hdist >= 1 && 4 <= hclen <= 19
    ensures !input.bad ==> CountsAt(input.p, old(input.Pos()), hlit, hdist, hclen) && input.Pos() == old(input.Pos()) + 14
    ensures forall a, b, c :: CountsAt(input.p, old(input.Pos()), a, b, c) && old(input.Pos()) + 14 <= 8 * |input.p| ==>
      a == hlit && b == hdist && c == hclen && input.bad == old(input.bad)
  {
    hide Carries, Pow2;
    PowFour();
    var l := input.Take(5);
    var d := input.Take(5);
    var n := input.Take(4);
    hlit, hdist, hclen := l + 257, d + 1, n + 4;
  }

  /** The tables of a dynamic block. */
  method ReadDynamic(input: BitIn, ghost h: Header, ghost end: nat)
    returns (ok: bool, lit: Huff, dist: Huff, ghost ll: Lengths, ghost dl: Lengths, ghost got: Header)
    requires input.Valid()
    modifies input
    ensures input.Valid() && input.Pos() >= old(input.Pos()) && (old(input.bad) ==> input.bad)
    ensures ok ==> Built(lit, ll) && Built(dist, dl)
    ensures ok && !input.bad ==>
      HeaderOk(got) && HeaderAt(input.p, old(input.Pos()), got, input.Pos()) && ll == got.lens[..got.hlit] && dl == got.lens[got.hlit..]
    ensures HeaderOk(h) && HeaderAt(input.p, old(input.Pos()), h, end) && !old(input.bad) ==>
      ok && !input.bad && input.Pos() == end && ll == h.lens[..h.hlit] && dl == h.lens[h.hlit..]
  {
    hide Carries, Pow2, Built, Fits, RunsAt, UnrollAll, CanRunAll, ClAt, ClOk, HeaderOk, HeaderAt, RunsRead, LensOk, CountsAt;
    lit, dist, got := Huff([], []), Huff([], []), Header(0, 0, 0, [], [], []);
    ll, dl := [], [];
    ghost var pos := input.Pos();
    ghost var on := HeaderOk(h) && HeaderAt(input.p, pos, h, end) && !input.bad;
    if on {
      HeaderFits(input.p, pos, h, end);
      HeaderLens(h);
    }
    var hlit, hdist, hclen := ReadCounts(input);
    if hlit > 286 || hdist > 30 {
      return false, lit, dist, ll, dl, got;
    }
    var cl := ReadClLengths(input, hclen, h.cl);
    if input.bad {
      return false, lit, dist, ll, dl, got;
    }
    var built, clh := Build(cl);
    if !built {
      return false, lit, dist, ll, dl, got;
    }
    ghost var runs;
    var filled, lens;
    filled, lens, runs := ReadLengths(clh, cl, input, hlit + hdist, h.rs, end);
    if !filled {
      return false, lit, dist, ll, dl, got;
    }
    ll, dl, got := lens[..hlit], lens[hlit..], Header(hlit, hdist, hclen, cl, runs, lens);
    ok, lit, dist := BuildBoth(lens, hlit, hdist);
    if ok && !input.bad {
      HeaderRead(input.p, pos, got, input.Pos());
    }
  }

  /** Both tables, or a refusal when either code is over-subscribed. */
  method BuildBoth(lens: seq<nat>, hlit: nat, hdist: nat) returns (ok: bool, lit: Huff, dist: Huff)
    requires 257 <= hlit <= 286 && 1 <= hdist <= 30 && |lens| == hlit + hdist && forall k :: 0 <= k < |lens| ==> lens[k] <= 15
    ensures ok <==> LensOk(lens, hlit, hdist)
    ensures ok ==> Built(lit, lens[..hlit]) && Built(dist, lens[hlit..])
  {
    hide Built, Fits;
    lit, dist := Huff([], []), Huff([], []);
    var okL, l := Build(lens[..hlit]);
    if !okL {
      return false, lit, dist;
    }
    var okD, d := Build(lens[hlit..]);
    ok, lit, dist := okD, l, d;
  }

  lemma HeaderRead(p: seq<Byte>, pos: nat, h: Header, end: nat)
    requires LensOk(h.lens, h.hlit, h.hdist) && 4 <= h.hclen <= 19
    requires CountsAt(p, pos, h.hlit, h.hdist, h.hclen)
    requires ClOk(h.cl, h.hclen) && ClAt(p, pos + 14, h.cl, h.hclen) && Fits(h.cl)
    requires RunsRead(p, pos + 14 + 3 * h.hclen, h.cl, h.rs, end, h.lens, |h.lens|)
    ensures HeaderOk(h) && HeaderAt(p, pos, h, end)
  {
    hide Carries, Fits, RunsAt, UnrollAll, CanRunAll, ClAt;
  }

  lemma PowFour()
    ensures Pow2(4) == 16 && Pow2(5) == 32
  {
    assert Pow2(3) == 8;
  }

  lemma HeaderFits(p: seq<Byte>, pos: nat, h: Header, end: nat)
    requires HeaderOk(h) && HeaderAt(p, pos, h, end)
    ensures pos + 14 <= 8 * |p| && 4 <= h.hclen <= 19
    ensures CountsAt(p, pos, h.hlit, h.hdist, h.hclen)
    ensures ClOk(h.cl, h.hclen) && ClAt(p, pos + 14, h.cl, h.hclen) && RunsAt(p, pos + 14 + 3 * h.hclen, h.cl, h.rs, end)
  {
    hide Carries, Fits, RunsAt, UnrollAll, CanRunAll, ClAt, ClOk, IsLengths;
    ClBounds(h.cl, h.hclen);
    CarriesRange(p, pos + 10, h.hclen - 4, 4);
  }

  lemma HeaderLens(h: Header)
    requires HeaderOk(h)
    ensures LensOk(h.lens, h.hlit, h.hdist) && 257 <= h.hlit <= 286 && 1 <= h.hdist <= 30 && |h.lens| == h.hlit + h.hdist
    ensures Fits(h.lens[..h.hlit]) && Fits(h.lens[h.hlit..]) && h.lens[..h.hlit] == LitLens(h) && h.lens[h.hlit..] == DistLens(h)
    ensures ClOk(h.cl, h.hclen) && Fits(h.cl) && CanRunAll([], h.rs, |h.lens|) && UnrollAll([], h.rs, |h.lens|) == h.lens
  {
    hide Fits, UnrollAll, CanRunAll, ClOk;
  }

  lemma ClBounds(cl: seq<nat>, hclen: nat)
    requires ClOk(cl, hclen)
    ensures 4 <= hclen <= 19
  {
  }

  // ---- fixed codes (section 3.2.6) ------------------------------------------

  function FixedLit(): (r: Lengths)
    ensures |r| == 288
    ensures forall k :: 0 <= k < 288 ==> r[k] == if k < 144 then 8 else if k < 256 then 9 else if k < 280 then 7 else 8
  {
    seq(288, k => if k < 144 then 8 else if k < 256 then 9 else if k < 280 then 7 else 8)
  }

  function FixedDist(): (r: Lengths)
    ensures |r| == 30 && forall k :: 0 <= k < 30 ==> r[k] == 5
  {
    seq(30, _ => 5)
  }

  function Clamp(n: int, lo: nat, hi: nat): nat
    requires lo <= hi
  {
    if n < lo then 0 else if n > hi then hi - lo else n - lo
  }

  lemma {:induction false} FixedLitCounts(l: nat, n: nat)
    requires n <= 288
    ensures CountTo(FixedLit(), l, n) ==
      if l == 7 then Clamp(n, 256, 280) else if l == 8 then Clamp(n, 0, 144) + Clamp(n, 280, 288)
      else if l == 9 then Clamp(n, 144, 256) else 0
    decreases n
  {
    if n > 0 {
      FixedLitCounts(l, n - 1);
    }
  }

  lemma {:induction false} FixedDistCounts(l: nat, n: nat)
    requires n <= 30
    ensures CountTo(FixedDist(), l, n) == if l == 5 then n else 0
    decreases n
  {
    if n > 0 {
      FixedDistCounts(l, n - 1);
    }
  }

  /** The fixed literal code fills its tree exactly from nine bits on. */
  lemma {:induction false} FixedLitFirst(l: nat)
    requires 1 <= l
    ensures First(FixedLit(), l) + Count(FixedLit(), l) ==
      if l < 7 then 0 else if l == 7 then 24 else if l == 8 then 200 else Pow2(l)
    decreases l
  {
    hide First, CountTo, FixedLit;
    FixedLitCounts(l, 288);
    assert |FixedLit()| == 288;
    FirstStep(FixedLit(), l);
    if l == 9 {
      assert Pow2(9) == 512 by {
        Pow2Words();
      }
    }
    if l > 1 {
      FixedLitFirst(l - 1);
    }
  }

  lemma {:induction false} FixedDistFirst(l: nat)
    requires 1 <= l
    ensures First(FixedDist(), l) + Count(FixedDist(), l) == if l < 5 then 0 else 30 * Pow2(l - 5)
    decreases l
  {
    FixedDistCounts(l, 30);
    FirstStep(FixedDist(), l);
    if l > 1 {
      FixedDistFirst(l - 1);
    }
  }

  lemma FixedFits()
    ensures Fits(FixedLit()) && Fits(FixedDist())
  {
    forall l | 1 <= l <= MAX_BITS
      ensures First(FixedLit(), l) + Count(FixedLit(), l) <= Pow2(l)
      ensures First(FixedDist(), l) + Count(FixedDist(), l) <= Pow2(l)
    {
      FixedLitFirst(l);
      FixedDistFirst(l);
      Pow2Words();
      hide First, Count, CountTo, FixedLit, FixedDist;
      if l == 7 {
        assert Pow2(8) == 2 * Pow2(7);
      }
      if l >= 5 {
        hide Pow2;
        Pow2Add(5, l - 5);
        PowFour();
      }
    }
  }

  /** The codewords of the fixed literal code, as the table of section 3.2.6 has them. */
  lemma FixedCodes(s: nat)
    requires s < 288
    ensures CodeValue(FixedLit(), s) ==
      if s < 144 then 0x30 + s else if s < 256 then 0x190 + (s - 144) else if s < 280 then s - 256 else 0xC0 + (s - 280)
  {
    var l := FixedLit()[s];
    FixedLitCounts(l, s);
    FirstStep(FixedLit(), l);
    FixedLitFirst(l - 1);
    hide First, Count, CountTo, FixedLit;
  }

  method BuildFixed() returns (lit: Huff, dist: Huff)
    ensures Built(lit, FixedLit()) && Built(dist, FixedDist())
  {
    hide Fits, Built;
    FixedFits();
    var okL, l := Build(FixedLit());
    var okD, d := Build(FixedDist());
    lit, dist := l, d;
  }

  // ---- blocks ---------------------------------------------------------------

  datatype Block = Stored(data: seq<Byte>) | FixedBlock(ts: seq<Token>) | Dynamic(h: Header, ts: seq<Token>) {
    function Type(): nat {
      match this
      case Stored(_) => 0
      case FixedBlock(_) => 1
      case Dynamic(_, _) => 2
    }
  }

  function Word16(lo: int, hi: int): int {
    lo + 256 * hi
  }

  /** A stored block: byte-aligned length, its complement, and the bytes. */
  ghost predicate StoredAt(p: seq<Byte>, at: nat, data: seq<Byte>) {
    && |data| <= 65535 && at + 4 + |data| <= |p|
    && Word16(p[at], p[at + 1]) == |data| && Word16(p[at + 2], p[at + 3]) == 65535 - |data|
    && p[at + 4..at + 4 + |data|] == data
  }

  ghost predicate DynamicAt(p: seq<Byte>, pos: nat, h: Header, ts: seq<Token>, mid: nat, end: nat) {
    HeaderOk(h) && HeaderAt(p, pos + 3, h, mid) && TokensAt(p, mid, LitLens(h), DistLens(h), ts, end)
  }

  /** After the three header bits at pos, the stream carries this block to end. */
  ghost predicate BodyAt(p: seq<Byte>, pos: nat, b: Block, end: nat) {
    match b
    case Stored(data) => StoredAt(p, (pos + 10) / 8, data) && end == 8 * ((pos + 10) / 8 + 4 + |data|)
    case FixedBlock(ts) => TokensAt(p, pos + 3, FixedLit(), FixedDist(), ts, end)
    case Dynamic(h, ts) => exists mid: nat :: DynamicAt(p, pos, h, ts, mid, end)
  }

  ghost predicate BlockAt(p: seq<Byte>, pos: nat, fin: bool, b: Block, end: nat) {
    Carries(p, pos, if fin then 1 else 0, 1) && Carries(p, pos + 1, b.Type(), 2) && BodyAt(p, pos, b, end)
  }

  ghost predicate BlockPossible(out: seq<Byte>, b: Block) {
    b.Stored? || AllPossible(out, b.ts)
  }

  ghost function BlockOut(out: seq<Byte>, b: Block): seq<Byte>
    requires BlockPossible(out, b)
  {
    if b.Stored? then out + b.data else Expand(out, b.ts)
  }

  method ReadStored(input: BitIn, out0: seq<Byte>, cap: nat, ghost data: seq<Byte>)
    returns (ok: bool, out: seq<Byte>, ghost got: seq<Byte>)
    requires input.Valid() && |out0| <= cap
    modifies input
    ensures input.Valid() && input.Pos() >= old(input.Pos()) && |out| <= cap && input.bad == old(input.bad)
    ensures ok ==>
      && StoredAt(input.p, (old(input.Pos()) + 7) / 8, got) && out == out0 + got
      && input.Pos() == 8 * ((old(input.Pos()) + 7) / 8 + 4 + |got|)
    ensures StoredAt(input.p, (old(input.Pos()) + 7) / 8, data) && |out0| + |data| <= cap && !old(input.bad) ==>
      ok && !input.bad && out == out0 + data && input.Pos() == 8 * ((old(input.Pos()) + 7) / 8 + 4 + |data|)
  {
    out, got := out0, [];
    input.Align();
    var at, p := input.at, input.p;
    if at + 4 > |p| {
      return false, out, got;
    }
    var len := Word16(p[at], p[at + 1]);
    var nlen := Word16(p[at + 2], p[at + 3]);
    input.at := at + 4;
    if 65535 - len != nlen || input.at + len > |p| || |out| + len > cap {
      return false, out, got;
    }
    got := p[input.at..input.at + len];
    out := out + p[input.at..input.at + len];
    input.at := input.at + len;
    ok := true;
  }

  /** One block after its three header bits. */
  method ReadBlock(input: BitIn, kind: nat, out0: seq<Byte>, cap: nat, ghost b: Block, ghost end: nat, ghost start: nat)
    returns (ok: bool, out: seq<Byte>, ghost got: Block)
    requires input.Valid() && |out0| <= cap && input.Pos() == start + 3
    modifies input
    ensures input.Valid() && input.Pos() >= old(input.Pos()) && |out| <= cap && (old(input.bad) ==> input.bad)
    ensures ok && !input.bad ==>
      kind == got.Type() && BodyAt(input.p, start, got, input.Pos()) && BlockPossible(out0, got) && out == BlockOut(out0, got)
    ensures BodyAt(input.p, start, b, end) && kind == b.Type() && BlockPossible(out0, b) && |BlockOut(out0, b)| <= cap && !old(input.bad) ==>
      ok && !input.bad && out == BlockOut(out0, b) && input.Pos() == end
  {
    hide Carries, TokensAt, AllPossible, Expand, Built, HeaderAt, CanRunAll, UnrollAll, StoredAt, FixedLit, FixedDist, Fits, ClOk;
    ghost var on := BodyAt(input.p, start, b, end) && kind == b.Type() && BlockPossible(out0, b) && |BlockOut(out0, b)| <= cap && !input.bad;
    out, got := out0, Stored([]);
    if kind == 0 {
      ghost var data;
      ok, out, data := ReadStored(input, out0, cap, if on then b.data else []);
      got := Stored(data);
    } else if kind == 1 {
      var lit, dist := BuildFixed();
      ghost var ts;
      ok, out, ts := ReadTokens(lit, FixedLit(), dist, FixedDist(), input, out0, cap, if on then b.ts else [], end);
      got := FixedBlock(ts);
    } else if kind == 2 {
      ghost var h: Header, mid: nat := Header(0, 0, 0, [], [], []), 0;
      if on {
        h := b.h;
        mid :| DynamicAt(input.p, start, h, b.ts, mid, end);
      }
      ghost var header, ts, ll, dl;
      var made, lit, dist;
      made, lit, dist, ll, dl, header := ReadDynamic(input, h, mid);
      if !made {
        return false, out, got;
      }
      ghost var at := input.Pos();
      ok, out, ts := ReadTokens(lit, ll, dist, dl, input, out0, cap, if on then b.ts else [], end);
      got := Dynamic(header, ts);
      assert ok && !input.bad ==> DynamicAt(input.p, start, header, ts, at, input.Pos());
    } else {
      ok := false;
    }
  }

  /** The whole stream: blocks one after another from pos, the last marked final;
      marks are where each starts and where the last one ends. */
  ghost predicate Marked(p: seq<Byte>, pos: nat, bs: seq<Block>, marks: seq<nat>) {
    && |marks| == |bs| + 1 && marks[0] == pos
    && forall i :: 0 <= i < |bs| ==> BlockAt(p, marks[i], i == |bs| - 1, bs[i], marks[i + 1])
  }

  ghost predicate BlocksAt(p: seq<Byte>, pos: nat, bs: seq<Block>) {
    bs != [] && exists marks :: Marked(p, pos, bs, marks)
  }

  ghost predicate BlocksPossible(out: seq<Byte>, bs: seq<Block>)
    decreases |bs|
  {
    bs == [] || (BlockPossible(out, bs[0]) && BlocksPossible(BlockOut(out, bs[0]), bs[1..]))
  }

  ghost function Inflated(out: seq<Byte>, bs: seq<Block>): (r: seq<Byte>)
    requires BlocksPossible(out, bs)
    ensures |r| >= |out|
    decreases |bs|
  {
    if bs == [] then out
    else
      BlockGrows(out, bs[0]);
      Inflated(BlockOut(out, bs[0]), bs[1..])
  }

  lemma BlockGrows(out: seq<Byte>, b: Block)
    requires BlockPossible(out, b)
    ensures |BlockOut(out, b)| >= |out|
  {
    if !b.Stored? {
      ExpandGrows(out, b.ts);
    }
  }

  /** src is a well-formed stream of these blocks, and they expand to at most cap bytes. */
  ghost predicate Compressed(src: seq<Byte>, bs: seq<Block>, cap: nat) {
    BlocksAt(src, 0, bs) && BlocksPossible([], bs) && |Inflated([], bs)| <= cap
  }

  /** inflateRaw: it always ends, reads only inside the source and never outputs
      more than cap. It succeeds exactly on the well-formed streams that fit, and
      then yields the expansion of their blocks. */
  method InflateRaw(src: seq<Byte>, cap: nat, ghost bs: seq<Block>) returns (ok: bool, out: seq<Byte>, ghost got: seq<Block>)
    ensures |out| <= cap
    ensures Compressed(src, bs, cap) ==> ok && out == Inflated([], bs)
    ensures ok ==> Compressed(src, got, cap) && out == Inflated([], got)
  {
    hide Carries, BlockPossible, BlockOut, BlockAt, BodyAt, BlocksAt, BlocksPossible, Inflated, Pow2, BlocksLeft, BlocksRead, Compressed;
    PowSmall();
    var input := new BitIn(src);
    out, got := [], [];
    ghost var on := Compressed(src, bs, cap);
    ghost var rest, goal, marks := bs, [], [0];
    if on {
      goal := PlanAll(src, bs, cap);
    }
    NoBlocks(src);
    while true
      invariant input.Valid() && input.p == src && |out| <= cap
      invariant on ==> !input.bad && BlocksLeft(src, input.Pos(), rest, out, goal) && |goal| <= cap
      invariant !input.bad ==> BlocksRead(src, got, marks, input.Pos(), out)
      decreases 8 * |src| - input.Pos()
    {
      ghost var pos, end, b, was := input.Pos(), 0, Stored([]), out;
      if on {
        end := NextBlock(src, pos, rest, out, goal);
        b := rest[0];
      }
      var fin := input.Take(1);
      var kind := input.Take(2);
      if input.bad {
        return false, out, got;
      }
      ghost var g;
      ok, out, g := ReadBlock(input, kind, out, cap, b, end, pos);
      if !ok {
        return false, out, got;
      }
      if !input.bad {
        BlockMade(src, pos, fin, g, input.Pos());
        BlockRead(src, got, marks, pos, was, fin == 1, g, input.Pos(), cap, |out|);
      }
      got, marks := got + [g], marks + [input.Pos()];
      if fin == 1 {
        ok := !input.bad;
        return;
      }
      PosBound(input);
      if on {
        rest := rest[1..];
      }
    }
  }

  /** The blocks read so far: none of them final. */
  ghost predicate BlocksRead(p: seq<Byte>, bs: seq<Block>, marks: seq<nat>, pos: nat, out: seq<Byte>) {
    && |marks| == |bs| + 1 && marks[0] == 0 && marks[|bs|] == pos
    && (forall i :: 0 <= i < |bs| ==> BlockAt(p, marks[i], false, bs[i], marks[i + 1]))
    && BlocksPossible([], bs) && out == Inflated([], bs)
  }

  lemma NoBlocks(p: seq<Byte>)
    ensures BlocksRead(p, [], [0], 0, [])
  {
  }

  lemma {:induction false} InflatedSnoc(out: seq<Byte>, bs: seq<Block>, b: Block)
    requires BlocksPossible(out, bs) && BlockPossible(Inflated(out, bs), b)
    ensures BlocksPossible(out, bs + [b]) && Inflated(out, bs + [b]) == BlockOut(Inflated(out, bs), b)
    decreases |bs|
  {
    hide BlockPossible, BlockOut;
    if bs == [] {
      assert bs + [b] == [b];
    } else {
      InflatedSnoc(BlockOut(out, bs[0]), bs[1..], b);
      assert (bs + [b])[1..] == bs[1..] + [b];
    }
  }

  /** One more block: the stream ends with it if it is final. */
  lemma BlockRead(p: seq<Byte>, bs: seq<Block>, marks: seq<nat>, pos: nat, out: seq<Byte>, fin: bool, b: Block, end: nat, cap: nat, size: nat)
    requires BlocksRead(p, bs, marks, pos, out) && BlockAt(p, pos, fin, b, end) && BlockPossible(out, b)
    requires size == |BlockOut(out, b)| <= cap
    ensures fin ==> Compressed(p, bs + [b], cap) && BlocksPossible([], bs + [b]) && BlockOut(out, b) == Inflated([], bs + [b])
    ensures !fin ==> BlocksRead(p, bs + [b], marks + [end], end, BlockOut(out, b))
  {
    hide BlockAt, BlockPossible, BlockOut, BlocksPossible, Inflated;
    InflatedSnoc([], bs, b);
    var more, stops := bs + [b], marks + [end];
    forall i | 0 <= i < |more|
      ensures BlockAt(p, stops[i], fin && i == |more| - 1, more[i], stops[i + 1])
    {
      if i < |bs| {
        assert BlockAt(p, marks[i], false, bs[i], marks[i + 1]);
      }
    }
    if fin {
      assert Marked(p, 0, more, stops);
    }
  }

  lemma PlanAll(p: seq<Byte>, bs: seq<Block>, cap: nat) returns (goal: seq<Byte>)
    requires Compressed(p, bs, cap)
    ensures BlocksPossible([], bs) && goal == Inflated([], bs) && |goal| <= cap && BlocksLeft(p, 0, bs, [], goal)
  {
    hide BlocksAt, BlocksPossible, Inflated;
    goal := Inflated([], bs);
  }

  ghost predicate BlocksLeft(p: seq<Byte>, pos: nat, rest: seq<Block>, out: seq<Byte>, goal: seq<Byte>) {
    BlocksAt(p, pos, rest) && BlocksPossible(out, rest) && Inflated(out, rest) == goal
  }

  lemma FirstEnd(p: seq<Byte>, pos: nat, bs: seq<Block>) returns (end: nat)
    requires BlocksAt(p, pos, bs)
    ensures bs != [] && BlockAt(p, pos, |bs| == 1, bs[0], end) && (|bs| > 1 ==> BlocksAt(p, end, bs[1..]))
  {
    hide BlockAt;
    var marks :| Marked(p, pos, bs, marks);
    end := marks[1];
    assert BlockAt(p, marks[0], 0 == |bs| - 1, bs[0], marks[1]);
    if |bs| > 1 {
      forall i | 0 <= i < |bs| - 1
        ensures BlockAt(p, marks[1..][i], i == |bs[1..]| - 1, bs[1..][i], marks[1..][i + 1])
      {
        assert BlockAt(p, marks[i + 1], i + 1 == |bs| - 1, bs[i + 1], marks[i + 2]);
      }
      assert Marked(p, end, bs[1..], marks[1..]);
    }
  }

  /** The next block of a planned stream, its header bits, and what it leaves. */
  lemma NextBlock(p: seq<Byte>, pos: nat, rest: seq<Block>, out: seq<Byte>, goal: seq<Byte>) returns (end: nat)
    requires BlocksLeft(p, pos, rest, out, goal)
    ensures rest != [] && BlockAt(p, pos, |rest| == 1, rest[0], end) && BodyAt(p, pos, rest[0], end)
    ensures pos + 3 <= 8 * |p| && Carries(p, pos, if |rest| == 1 then 1 else 0, 1) && Carries(p, pos + 1, rest[0].Type(), 2)
    ensures BlockPossible(out, rest[0]) && |BlockOut(out, rest[0])| <= |goal|
    ensures |rest| == 1 ==> BlockOut(out, rest[0]) == goal
    ensures |rest| > 1 ==> BlocksLeft(p, end, rest[1..], BlockOut(out, rest[0]), goal)
  {
    hide BlockAt, BlockOut, BlockPossible, Carries, BlocksAt, BodyAt;
    end := FirstEnd(p, pos, rest);
    BlockHeader(p, pos, |rest| == 1, rest[0], end);
    assert Inflated(out, rest) == Inflated(BlockOut(out, rest[0]), rest[1..]);
  }

  lemma BlockMade(p: seq<Byte>, pos: nat, fin: nat, b: Block, end: nat)
    requires Carries(p, pos, fin, 1) && Carries(p, pos + 1, b.Type(), 2) && BodyAt(p, pos, b, end)
    ensures BlockAt(p, pos, fin == 1, b, end)
  {
    hide BodyAt, At;
    assert fin < Pow2(1) == 2;
  }

  lemma BlockHeader(p: seq<Byte>, pos: nat, fin: bool, b: Block, end: nat)
    requires BlockAt(p, pos, fin, b, end)
    ensures pos + 3 <= 8 * |p| && Carries(p, pos, if fin then 1 else 0, 1) && Carries(p, pos + 1, b.Type(), 2) && BodyAt(p, pos, b, end)
  {
    hide BodyAt;
    CarriesRange(p, pos + 1, b.Type(), 2);
  }
}
