// The bit regrouper of the Bech32 key encoder (internal/backup/crypto.go, lines 172-189):
// a wrapping 32-bit accumulator, proved against lists of bits.
module Bech32Regroup {
  import opened Bech32Checksum

  type Bitlist = seq<bool>

  // ---------- shifts by a small variable amount ----------

  function Shl(x: bv32, n: nat): bv32
    requires n <= 16
  {
    x << n
  }

  function Shr(x: bv32, n: nat): bv32
    requires n <= 16
  {
    x >> n
  }

  // A small number as the 8-bit word that holds it.
  function Word(n: nat): bv8
    requires n <= 16
  {
    match n
    case 0 => 0 case 1 => 1 case 2 => 2 case 3 => 3 case 4 => 4 case 5 => 5 case 6 => 6 case 7 => 7 case 8 => 8
    case 9 => 9 case 10 => 10 case 11 => 11 case 12 => 12 case 13 => 13 case 14 => 14 case 15 => 15 case 16 => 16
  }

  lemma ShiftsAreByWords(x: bv32, n: nat)
    requires n <= 16
    ensures Shl(x, n) == x << Word(n) && Shr(x, n) == x >> Word(n)
  {
    if n == 0 {} else if n == 1 {} else if n == 2 {} else if n == 3 {} else if n == 4 {} else if n == 5 {}
    else if n == 6 {} else if n == 7 {} else if n == 8 {} else if n == 9 {} else if n == 10 {} else if n == 11 {}
    else if n == 12 {} else if n == 13 {} else if n == 14 {} else if n == 15 {} else {}
  }

  lemma WordBounds(n: nat, m: nat)
    requires n <= m <= 16
    ensures Word(n) <= Word(m) <= 16
    ensures n < m ==> Word(n) < Word(m)
  {
  }

  predicate IsSum(a: bv8, b: bv8, c: bv8) {
    c == a + b
  }

  lemma WordNext(n: nat)
    requires n < 16
    ensures IsSum(Word(n), 1, Word(n + 1))
  {
  }

  lemma SumNext(a: bv8, b: bv8, c: bv8, d: bv8, e: bv8)
    requires IsSum(a, b, c) && IsSum(c, 1, d) && IsSum(b, 1, e)
    ensures IsSum(a, e, d)
  {
  }

  lemma SumZero(n: nat)
    requires n <= 16
    ensures IsSum(Word(n), Word(0), Word(n))
  {
  }

  lemma {:induction false} WordAdds(n: nat, m: nat)
    requires n + m <= 16
    ensures IsSum(Word(n), Word(m), Word(n + m))
  {
    hide Word, IsSum;
    if m == 0 {
      SumZero(n);
    } else {
      WordAdds(n, m - 1);
      WordNext(n + (m - 1));
      WordNext(m - 1);
      SumNext(Word(n), Word(m - 1), Word(n + (m - 1)), Word(n + m), Word(m));
    }
  }

  // ---------- the bits of a word ----------

  predicate Bit(x: bv32, i: nat)
    requires i <= 16
  {
    Shr(x, i) & 1 == 1
  }

  predicate BitAt(x: bv32, i: bv8)
    requires i < 32
  {
    (x >> i) & 1 == 1
  }

  lemma BitIsAt(x: bv32, i: nat)
    requires i <= 16
    ensures Word(i) <= 16 && Bit(x, i) == BitAt(x, Word(i))
  {
    hide Word, Shr;
    WordBounds(i, 16);
    ShiftsAreByWords(x, i);
  }

  // The low n bits of x, most significant first.
  function Bits(x: bv32, n: nat): (r: Bitlist)
    requires n <= 16
    ensures |r| == n
  {
    if n == 0 then [] else [Bit(x, n - 1)] + Bits(x, n - 1)
  }

  function Wide(v: bv8): bv32 {
    v as bv32
  }

  function GroupBits(g: bv8, w: nat): (r: Bitlist)
    requires w <= 8
    ensures |r| == w
  {
    Bits(Wide(g), w)
  }

  // The bits of a list of w-bit groups.
  function AllBits(groups: Symbols, w: nat): Bitlist
    requires w <= 8
    decreases |groups|
  {
    if groups == [] then [] else AllBits(groups[..|groups| - 1], w) + GroupBits(groups[|groups| - 1], w)
  }

  function NoBits(n: nat): (r: Bitlist)
    ensures |r| == n && forall i :: 0 <= i < n ==> !r[i]
  {
    seq(n, _ => false)
  }

  lemma {:induction false} AllBitsLength(groups: Symbols, w: nat)
    requires w <= 8
    ensures |AllBits(groups, w)| == |groups| * w
    decreases |groups|
  {
    hide GroupBits;
    if groups != [] {
      var k := |groups| - 1;
      AllBitsLength(groups[..k], w);
      assert |AllBits(groups, w)| == k * w + w;
    }
  }

  lemma AllBitsAppend(groups: Symbols, g: bv8, w: nat)
    requires w <= 8
    ensures AllBits(groups + [g], w) == AllBits(groups, w) + GroupBits(g, w)
  {
    hide GroupBits;
    assert (groups + [g])[..|groups|] == groups;
  }

  // ---------- a group is determined by its bits ----------

  // The words below 2^w.
  predicate Narrow(v: bv8, w: nat)
    requires w <= 8
  {
    match w
    case 0 => v == 0
    case 1 => v < 2
    case 2 => v < 4
    case 3 => v < 8
    case 4 => v < 16
    case 5 => v < 32
    case 6 => v < 64
    case 7 => v < 128
    case 8 => true
  }

  predicate NarrowAt(v: bv8, w: bv8)
    requires w <= 8
  {
    v as bv32 <= ((1 as bv32) << w) - 1
  }

  lemma NarrowIsAt(v: bv8, w: nat)
    requires w <= 8
    ensures Word(w) <= 8 && Narrow(v, w) == NarrowAt(v, Word(w))
  {
    if w == 0 {} else if w == 1 {} else if w == 2 {} else if w == 3 {} else if w == 4 {}
    else if w == 5 {} else if w == 6 {} else if w == 7 {} else {}
  }

  predicate AllNarrow(groups: Symbols, w: nat)
    requires w <= 8
  {
    forall i :: 0 <= i < |groups| ==> Narrow(groups[i], w)
  }

  // x and y agree on their low n bits.
  predicate SameLow(x: bv32, y: bv32, n: bv8)
    requires n <= 8
  {
    (x ^ y) & (((1 as bv32) << n) - 1) == 0
  }

  lemma OneMoreBit(x: bv32, y: bv32, n: bv8, m: bv8)
    requires n < 8 && IsSum(n, 1, m) && SameLow(x, y, n) && BitAt(x, n) == BitAt(y, n)
    ensures m <= 8 && SameLow(x, y, m)
  {
  }

  lemma NoBitsToDiffer(x: bv32, y: bv32)
    ensures SameLow(x, y, Word(0))
  {
  }

  lemma {:induction false} BitsDetermine(x: bv32, y: bv32, n: nat)
    requires n <= 8 && Bits(x, n) == Bits(y, n)
    ensures Word(n) <= 8 && SameLow(x, y, Word(n))
  {
    hide Bit, BitAt, Word, SameLow, IsSum;
    if n == 0 {
      WordIsSmall(0);
      NoBitsToDiffer(x, y);
    } else {
      assert Bits(x, n)[0] == Bit(x, n - 1) && Bits(y, n)[0] == Bit(y, n - 1);
      assert Bits(x, n)[1..] == Bits(x, n - 1) && Bits(y, n)[1..] == Bits(y, n - 1);
      BitsDetermine(x, y, n - 1);
      BitIsAt(x, n - 1);
      BitIsAt(y, n - 1);
      WordNext(n - 1);
      WordLess(n - 1, 8);
      OneMoreBit(x, y, Word(n - 1), Word(n));
    }
  }

  lemma WordLess(n: nat, m: nat)
    requires n < m == 8
    ensures Word(n) < 8
  {
  }

  lemma SameLowIsSame(v: bv8, u: bv8, w: bv8)
    requires w <= 8 && NarrowAt(v, w) && NarrowAt(u, w) && SameLow(Wide(v), Wide(u), w)
    ensures v == u
  {
  }

  lemma SameBits(v: bv8, u: bv8, w: nat)
    requires w <= 8 && Narrow(v, w) && Narrow(u, w) && GroupBits(v, w) == GroupBits(u, w)
    ensures v == u
  {
    hide Bits, Word, Narrow, NarrowAt, SameLow, Wide;
    NarrowIsAt(v, w);
    NarrowIsAt(u, w);
    BitsDetermine(Wide(v), Wide(u), w);
    SameLowIsSame(v, u, Word(w));
  }

  lemma AllBitsLast(groups: Symbols, k: nat, w: nat)
    requires w <= 8 && |groups| == k + 1
    ensures AllBits(groups, w) == AllBits(groups[..k], w) + GroupBits(groups[k], w)
  {
    hide GroupBits;
  }

  lemma SplitEqual(a: Bitlist, b: Bitlist, c: Bitlist, d: Bitlist)
    requires |a| == |c| && a + b == c + d
    ensures a == c && b == d
  {
    assert a == (a + b)[..|a|] && b == (a + b)[|a|..];
    assert c == (c + d)[..|c|] && d == (c + d)[|c|..];
  }

  lemma {:induction false} AllBitsInjective(a: Symbols, b: Symbols, w: nat)
    requires w <= 8 && |a| == |b| && AllNarrow(a, w) && AllNarrow(b, w)
    requires AllBits(a, w) == AllBits(b, w)
    ensures a == b
    decreases |a|
  {
    hide GroupBits, Narrow, AllBits;
    if a != [] {
      var k := |a| - 1;
      AllBitsLast(a, k, w);
      AllBitsLast(b, k, w);
      AllBitsLength(a[..k], w);
      AllBitsLength(b[..k], w);
      SplitEqual(AllBits(a[..k], w), GroupBits(a[k], w), AllBits(b[..k], w), GroupBits(b[k], w));
      AllBitsInjective(a[..k], b[..k], w);
      SameBits(a[k], b[k], w);
      assert a == a[..k] + [a[k]] && b == b[..k] + [b[k]];
    }
  }

  // ---------- what the accumulator does to the pending bits ----------

  // acc<<f | v
  function Pushed(acc: bv32, v: bv8, f: nat): bv32
    requires f <= 8
  {
    Shl(acc, f) | (v as bv32)
  }

  predicate PushedAt(r: bv32, acc: bv32, v: bv8, f: bv8) {
    f <= 8 && r == (acc << f) | (v as bv32)
  }

  predicate Below(a: bv8, b: bv8) {
    a < b
  }

  lemma WordsBelow(n: nat, m: nat)
    requires n < m <= 16
    ensures Below(Word(n), Word(m))
  {
  }

  predicate BitIs(x: bv32, i: bv8, b: bool) {
    i <= 16 && BitAt(x, i) == b
  }

  lemma BitAtIs(x: bv32, i: nat)
    requires i <= 16
    ensures BitIs(x, Word(i), Bit(x, i))
  {
    hide Word, Bit, BitAt;
    BitIsAt(x, i);
  }

  lemma BitIsUnique(x: bv32, i: bv8, b: bool, c: bool)
    requires BitIs(x, i, b) && BitIs(x, i, c)
    ensures b == c
  {
  }

  lemma PushedHighAt(acc: bv32, v: bv8, f: bv8, i: bv8, j: bv8, r: bv32, b: bool)
    requires PushedAt(r, acc, v, f) && Below(i, 8) && IsSum(i, f, j) && NarrowAt(v, f) && BitIs(acc, i, b)
    ensures BitIs(r, j, b)
  {
  }

  lemma PushedLowAt(acc: bv32, v: bv8, f: bv8, i: bv8, r: bv32, b: bool)
    requires PushedAt(r, acc, v, f) && Below(i, f) && BitIs(Wide(v), i, b)
    ensures BitIs(r, i, b)
  {
  }

  lemma PushedIsAt(acc: bv32, v: bv8, f: nat)
    requires f <= 8
    ensures PushedAt(Pushed(acc, v, f), acc, v, Word(f))
  {
    hide Word, Shl;
    WordIsSmall(f);
    ShiftsAreByWords(acc, f);
  }

  lemma WordIsSmall(f: nat)
    requires f <= 8
    ensures Word(f) <= 8
  {
  }

  lemma BitPushedHigh(acc: bv32, v: bv8, f: nat, i: nat)
    requires f <= 8 && i < 8 && Narrow(v, f)
    ensures Bit(Pushed(acc, v, f), i + f) == Bit(acc, i)
  {
    hide Word, Pushed, PushedAt, Narrow, NarrowAt, IsSum, Bit, BitIs, Below;
    NarrowIsAt(v, f);
    PushedIsAt(acc, v, f);
    BitAtIs(Pushed(acc, v, f), i + f);
    BitAtIs(acc, i);
    WordAdds(i, f);
    BelowEight(i);
    var r := Pushed(acc, v, f);
    PushedHighAt(acc, v, Word(f), Word(i), Word(i + f), r, Bit(acc, i));
    BitIsUnique(r, Word(i + f), Bit(acc, i), Bit(r, i + f));
  }

  lemma BelowEight(i: nat)
    requires i < 8
    ensures Below(Word(i), 8)
  {
  }

  lemma BitPushedLow(acc: bv32, v: bv8, f: nat, i: nat)
    requires f <= 8 && i < f
    ensures Bit(Pushed(acc, v, f), i) == Bit(Wide(v), i)
  {
    hide *;
    PushedIsAt(acc, v, f);
    var r := Pushed(acc, v, f);
    BitAtIs(r, i);
    BitAtIs(Wide(v), i);
    WordsBelow(i, f);
    PushedLowAt(acc, v, Word(f), Word(i), r, Bit(Wide(v), i));
    BitIsUnique(r, Word(i), Bit(Wide(v), i), Bit(r, i));
  }

  lemma {:induction false} BitsPushedLow(acc: bv32, v: bv8, f: nat, n: nat)
    requires n <= f <= 8
    ensures Bits(Pushed(acc, v, f), n) == Bits(Wide(v), n)
    decreases n
  {
    hide Bit, Pushed, Wide;
    if n != 0 {
      BitPushedLow(acc, v, f, n - 1);
      BitsPushedLow(acc, v, f, n - 1);
    }
  }

  // Shifting a group in appends its bits to the pending ones, although high bits of acc fall off.
  lemma {:induction false} BitsPushed(acc: bv32, v: bv8, f: nat, n: nat)
    requires f <= 8 && n <= 8 && Narrow(v, f)
    ensures Bits(Pushed(acc, v, f), n + f) == Bits(acc, n) + GroupBits(v, f)
    decreases n
  {
    hide Bit, Pushed, Narrow, Wide;
    if n == 0 {
      BitsPushedLow(acc, v, f, f);
    } else {
      BitPushedHigh(acc, v, f, n - 1);
      BitsPushed(acc, v, f, n - 1);
    }
  }

  // byte(1<<t - 1), which wraps to 255 at t == 8
  function Mask(t: nat): bv8
    requires t <= 8
  {
    ((1 as bv8) << t) - 1
  }

  lemma MaskIsAt(t: nat)
    requires t <= 8
    ensures Word(t) <= 8 && Mask(t) == ((1 as bv8) << Word(t)) - 1
  {
    if t == 0 {} else if t == 1 {} else if t == 2 {} else if t == 3 {} else if t == 4 {}
    else if t == 5 {} else if t == 6 {} else if t == 7 {} else {}
  }

  lemma MaskedIsNarrow(x: bv8, t: nat)
    requires t <= 8
    ensures Narrow(x & Mask(t), t)
  {
    if t == 0 {} else if t == 1 {} else if t == 2 {} else if t == 3 {} else if t == 4 {}
    else if t == 5 {} else if t == 6 {} else if t == 7 {} else {}
  }

  // byte(acc>>d) & byte(1<<t - 1)
  function Extracted(acc: bv32, d: nat, t: nat): bv8
    requires d <= 8 && t <= 8
  {
    LowByte(Shr(acc, d)) & Mask(t)
  }

  predicate ExtractedAt(r: bv8, acc: bv32, d: bv8, t: bv8) {
    d <= 8 && t <= 8 && r == LowByte(acc >> d) & (((1 as bv8) << t) - 1)
  }

  lemma ExtractedIsAt(acc: bv32, d: nat, t: nat)
    requires d <= 8 && t <= 8
    ensures ExtractedAt(Extracted(acc, d, t), acc, Word(d), Word(t))
  {
    hide Word, Shr, Mask, LowByte;
    WordIsSmall(d);
    MaskIsAt(t);
    ShiftsAreByWords(acc, d);
  }

  lemma BitExtractedAt(acc: bv32, d: bv8, t: bv8, i: bv8, j: bv8, r: bv8, b: bool)
    requires ExtractedAt(r, acc, d, t) && Below(i, t) && IsSum(i, d, j) && BitIs(acc, j, b)
    ensures BitIs(Wide(r), i, b)
  {
  }

  lemma BitExtracted(acc: bv32, d: nat, t: nat, i: nat)
    requires d <= 8 && i < t <= 8
    ensures Bit(Wide(Extracted(acc, d, t)), i) == Bit(acc, i + d)
  {
    hide *;
    var r := Extracted(acc, d, t);
    ExtractedIsAt(acc, d, t);
    WordsBelow(i, t);
    WordAdds(i, d);
    BitAtIs(acc, i + d);
    BitAtIs(Wide(r), i);
    BitExtractedAt(acc, Word(d), Word(t), Word(i), Word(i + d), r, Bit(acc, i + d));
    BitIsUnique(Wide(r), Word(i), Bit(acc, i + d), Bit(Wide(r), i));
  }

  lemma {:induction false} BitsExtracted(acc: bv32, d: nat, t: nat, n: nat)
    requires d <= 8 && n <= t <= 8
    ensures Bits(acc, n + d) == Bits(Wide(Extracted(acc, d, t)), n) + Bits(acc, d)
    decreases n
  {
    hide Bit, Extracted, Wide;
    if n == 0 {
      assert Bits(Wide(Extracted(acc, d, t)), 0) == [];
    } else {
      BitExtracted(acc, d, t, n - 1);
      BitsExtracted(acc, d, t, n - 1);
    }
  }

  // byte(acc<<d) & byte(1<<t - 1)
  function Padded(acc: bv32, d: nat, t: nat): bv8
    requires d <= 8 && t <= 8
  {
    LowByte(Shl(acc, d)) & Mask(t)
  }

  predicate PaddedAt(r: bv8, acc: bv32, d: bv8, t: bv8) {
    d <= 8 && t <= 8 && r == LowByte(acc << d) & (((1 as bv8) << t) - 1)
  }

  lemma PaddedIsAt(acc: bv32, d: nat, t: nat)
    requires d <= 8 && t <= 8
    ensures PaddedAt(Padded(acc, d, t), acc, Word(d), Word(t))
  {
    hide Word, Shl, Mask, LowByte;
    WordIsSmall(d);
    MaskIsAt(t);
    ShiftsAreByWords(acc, d);
  }

  lemma BitPaddedHighAt(acc: bv32, d: bv8, t: bv8, i: bv8, j: bv8, r: bv8, b: bool)
    requires PaddedAt(r, acc, d, t) && Below(i, 8) && Below(j, t) && IsSum(i, d, j) && BitIs(acc, i, b)
    ensures BitIs(Wide(r), j, b)
  {
  }

  lemma BitPaddedLowAt(acc: bv32, d: bv8, t: bv8, i: bv8, r: bv8)
    requires PaddedAt(r, acc, d, t) && Below(i, d)
    ensures BitIs(Wide(r), i, false)
  {
  }

  lemma BitPaddedHigh(acc: bv32, d: nat, t: nat, i: nat)
    requires i + d < t <= 8
    ensures Bit(Wide(Padded(acc, d, t)), i + d) == Bit(acc, i)
  {
    hide *;
    var r := Padded(acc, d, t);
    PaddedIsAt(acc, d, t);
    WordsBelow(i + d, t);
    BelowEight(i);
    WordAdds(i, d);
    BitAtIs(acc, i);
    BitAtIs(Wide(r), i + d);
    BitPaddedHighAt(acc, Word(d), Word(t), Word(i), Word(i + d), r, Bit(acc, i));
    BitIsUnique(Wide(r), Word(i + d), Bit(acc, i), Bit(Wide(r), i + d));
  }

  lemma BitPaddedLow(acc: bv32, d: nat, t: nat, i: nat)
    requires i < d <= t <= 8
    ensures !Bit(Wide(Padded(acc, d, t)), i)
  {
    hide *;
    var r := Padded(acc, d, t);
    PaddedIsAt(acc, d, t);
    WordsBelow(i, d);
    BitAtIs(Wide(r), i);
    BitPaddedLowAt(acc, Word(d), Word(t), Word(i), r);
    BitIsUnique(Wide(r), Word(i), false, Bit(Wide(r), i));
  }

  lemma {:induction false} BitsPaddedLow(acc: bv32, d: nat, t: nat, n: nat)
    requires n <= d <= t <= 8
    ensures Bits(Wide(Padded(acc, d, t)), n) == NoBits(n)
    decreases n
  {
    hide Bit, Padded, Wide;
    if n != 0 {
      BitPaddedLow(acc, d, t, n - 1);
      BitsPaddedLow(acc, d, t, n - 1);
    }
  }

  lemma {:induction false} BitsPadded(acc: bv32, d: nat, t: nat, n: nat)
    requires n + d <= t <= 8
    ensures Bits(Wide(Padded(acc, d, t)), n + d) == Bits(acc, n) + NoBits(d)
    decreases n
  {
    hide Bit, Padded, Wide;
    if n == 0 {
      BitsPaddedLow(acc, d, t, d);
    } else {
      BitPaddedHigh(acc, d, t, n - 1);
      BitsPadded(acc, d, t, n - 1);
    }
  }

  // ---------- the regrouper ----------

  // `out` holds the bits of `data` in groups of `to`: with padding, all of them followed by fewer than
  // `to` zero bits; without, all but the last fewer than `to`.
  ghost predicate Regrouped(data: Symbols, from: nat, to: nat, pad: bool, out: Symbols)
    requires from <= 8 && 1 <= to <= 8
  {
    AllNarrow(out, to) &&
    if pad then exists k: nat :: k < to && AllBits(out, to) == AllBits(data, from) + NoBits(k)
    else exists rest: Bitlist :: |rest| < to && AllBits(out, to) + rest == AllBits(data, from)
  }

  lemma PushStep(ret: Symbols, acc: bv32, bits: nat, done: Symbols, value: bv8, from: nat, to: nat)
    requires from <= 8 && to <= 8 && bits <= 8 && Narrow(value, from)
    requires AllBits(ret, to) + Bits(acc, bits) == AllBits(done, from)
    ensures AllBits(ret, to) + Bits(Pushed(acc, value, from), bits + from) == AllBits(done + [value], from)
  {
    hide GroupBits, Bits, AllBits, Narrow, Pushed;
    BitsPushed(acc, value, from, bits);
    AllBitsAppend(done, value, from);
  }

  lemma EmitStep(ret: Symbols, acc: bv32, d: nat, to: nat, all: Bitlist)
    requires to <= 8 && d <= 8 && AllBits(ret, to) + Bits(acc, d + to) == all
    ensures AllBits(ret + [Extracted(acc, d, to)], to) + Bits(acc, d) == all
  {
    hide Bits, AllBits, Extracted;
    BitsExtracted(acc, d, to, to);
    AllBitsAppend(ret, Extracted(acc, d, to), to);
  }

  lemma ExtractedIsNarrow(acc: bv32, d: nat, to: nat)
    requires to <= 8 && d <= 8
    ensures Narrow(Extracted(acc, d, to), to)
  {
    hide Narrow, Mask, Shr, LowByte;
    MaskedIsNarrow(LowByte(Shr(acc, d)), to);
  }

  lemma PaddedIsNarrow(acc: bv32, d: nat, to: nat)
    requires d <= to <= 8
    ensures Narrow(Padded(acc, d, to), to)
  {
    hide Narrow, Mask, Shl, LowByte;
    MaskedIsNarrow(LowByte(Shl(acc, d)), to);
  }

  lemma PadStep(ret: Symbols, acc: bv32, bits: nat, to: nat, all: Bitlist)
    requires bits < to <= 8 && AllBits(ret, to) + Bits(acc, bits) == all
    ensures AllBits(ret + [Padded(acc, to - bits, to)], to) == all + NoBits(to - bits)
  {
    hide Bits, AllBits, Padded;
    BitsPadded(acc, to - bits, to, bits);
    AllBitsAppend(ret, Padded(acc, to - bits, to), to);
  }

  lemma NothingPending(acc: bv32, f: nat, t: nat)
    requires f <= 8 && t <= 8
    ensures AllBits([], t) + Bits(acc, 0) == AllBits([], f)
    ensures Bits(acc, 0) == []
  {
  }

  lemma OneGroup(k: int, w: int)
    ensures (k + 1) * w == k * w + w
  {
  }

  // Input symbols are meant to fit the input width; wider ones still give groups that fit, as many of them.
  method ConvertBits(data: Symbols, frombits: nat, tobits: nat, pad: bool) returns (ret: Symbols)
    requires 1 <= frombits <= 8 && 1 <= tobits <= 8
    ensures AllNarrow(ret, tobits)
    ensures var total := |data| * frombits;
      if pad then total <= |ret| * tobits < total + tobits else |ret| * tobits <= total < |ret| * tobits + tobits
    ensures AllNarrow(data, frombits) ==> Regrouped(data, frombits, tobits, pad, ret)
  {
    hide GroupBits, Bits, AllBits, Narrow, LowByte, Pushed, Extracted, Padded;
    ret := [];
    var acc: bv32 := 0;
    var bits: nat := 0;
    ghost var narrow := AllNarrow(data, frombits);
    NothingPending(acc, frombits, tobits);
    for n := 0 to |data|
      invariant bits < tobits && |ret| * tobits + bits == n * frombits
      invariant AllNarrow(ret, tobits)
      invariant narrow ==> AllBits(ret, tobits) + Bits(acc, bits) == AllBits(data[..n], frombits)
    {
      var value := data[n];
      assert data[..n + 1] == data[..n] + [value];
      if narrow {
        PushStep(ret, acc, bits, data[..n], value, frombits, tobits);
      }
      OneGroup(n, frombits);
      acc := Pushed(acc, value, frombits);
      bits := bits + frombits;
      while bits >= tobits
        invariant bits < tobits + 8 && |ret| * tobits + bits == (n + 1) * frombits
        invariant AllNarrow(ret, tobits)
        invariant narrow ==> AllBits(ret, tobits) + Bits(acc, bits) == AllBits(data[..n + 1], frombits)
        decreases bits
      {
        bits := bits - tobits;
        if narrow {
          EmitStep(ret, acc, bits, tobits, AllBits(data[..n + 1], frombits));
        }
        ExtractedIsNarrow(acc, bits, tobits);
        OneGroup(|ret|, tobits);
        ret := ret + [Extracted(acc, bits, tobits)];
      }
    }
    assert data[..|data|] == data;
    if pad && bits > 0 {
      if narrow {
        PadStep(ret, acc, bits, tobits, AllBits(data, frombits));
      }
      PaddedIsNarrow(acc, tobits - bits, tobits);
      OneGroup(|ret|, tobits);
      ret := ret + [Padded(acc, tobits - bits, tobits)];
    } else if pad {
      NothingPending(acc, frombits, tobits);
      assert narrow ==> AllBits(ret, tobits) == AllBits(data, frombits) + NoBits(0);
    }
  }

  // ---------- the groups as one number ----------

  function Pow2(n: nat): (r: nat)
    ensures r > 0
  {
    if n == 0 then 1 else 2 * Pow2(n - 1)
  }

  // The groups as the digits of a number in base 2^w, the first one the highest.
  function BaseValue(groups: Symbols, w: nat): nat
    decreases |groups|
  {
    if groups == [] then 0 else BaseValue(groups[..|groups| - 1], w) * Pow2(w) + groups[|groups| - 1] as int
  }

  function BinaryValue(bits: Bitlist): nat {
    if bits == [] then 0 else (if bits[0] then Pow2(|bits| - 1) else 0) + BinaryValue(bits[1..])
  }

  lemma Doubled(a: int, b: int)
    ensures 2 * (a * b) == (2 * a) * b
  {
  }

  lemma Distributes(a: int, b: int, c: int)
    ensures (a + b) * c == a * c + b * c
  {
  }

  lemma {:induction false} PowersAdd(m: nat, n: nat)
    ensures Pow2(m + n) == Pow2(m) * Pow2(n)
  {
    if m > 0 {
      PowersAdd(m - 1, n);
      assert m + n - 1 == m - 1 + n;
      Doubled(Pow2(m - 1), Pow2(n));
    }
  }

  lemma {:induction false} BinaryConcat(a: Bitlist, b: Bitlist)
    ensures BinaryValue(a + b) == BinaryValue(a) * Pow2(|b|) + BinaryValue(b)
  {
    if a == [] {
      assert a + b == b;
    } else {
      BinaryConcat(a[1..], b);
      PowersAdd(|a| - 1, |b|);
      assert (a + b)[1..] == a[1..] + b && (a + b)[0] == a[0];
      Distributes(if a[0] then Pow2(|a| - 1) else 0, BinaryValue(a[1..]), Pow2(|b|));
    }
  }

  lemma {:induction false} NoBitsAreZero(n: nat)
    ensures BinaryValue(NoBits(n)) == 0
  {
    if n > 0 {
      NoBitsAreZero(n - 1);
      assert NoBits(n)[1..] == NoBits(n - 1);
    }
  }

  // Bit i of a byte, as a mask finds it.
  function Masked(v: bv8, i: nat): bool
    requires i < 8
  {
    match i
    case 0 => v & 1 != 0 case 1 => v & 2 != 0 case 2 => v & 4 != 0 case 3 => v & 8 != 0
    case 4 => v & 16 != 0 case 5 => v & 32 != 0 case 6 => v & 64 != 0 case 7 => v & 128 != 0
  }

  lemma MaskedAt(v: bv8, x: bv32, i: bv8)
    requires x == v as bv32 && i < 8
    ensures BitAt(x, i) <==> (v >> i) & 1 != 0
  {
  }

  lemma MaskedIs(v: bv8, i: nat)
    requires i < 8
    ensures Masked(v, i) <==> (v >> Word(i)) & 1 != 0
  {
    if i == 0 {} else if i == 1 {} else if i == 2 {} else if i == 3 {} else if i == 4 {} else if i == 5 {} else if i == 6 {} else {}
  }

  lemma BitIsMasked(v: bv8, i: nat)
    requires i < 8
    ensures Bit(Wide(v), i) == Masked(v, i)
  {
    hide Bit, BitAt, Masked;
    BitIsAt(Wide(v), i);
    WordBounds(i, 7);
    MaskedAt(v, Wide(v), Word(i));
    MaskedIs(v, i);
  }

  function LowValue(v: bv8, n: nat): nat
    requires n <= 8
  {
    if n == 0 then 0 else (if Masked(v, n - 1) then Pow2(n - 1) else 0) + LowValue(v, n - 1)
  }

  lemma {:induction false} BitsAreLow(v: bv8, n: nat)
    requires n <= 8
    ensures BinaryValue(Bits(Wide(v), n)) == LowValue(v, n)
  {
    hide Bit, Masked;
    if n > 0 {
      BitsAreLow(v, n - 1);
      BitIsMasked(v, n - 1);
      assert Bits(Wide(v), n)[1..] == Bits(Wide(v), n - 1);
    }
  }

  lemma ByteIsSum(v: bv8)
    ensures v as int == (if v & 1 == 0 then 0 else 1) + (if v & 2 == 0 then 0 else 2) + (if v & 4 == 0 then 0 else 4) + (if v & 8 == 0 then 0 else 8)
      + (if v & 16 == 0 then 0 else 16) + (if v & 32 == 0 then 0 else 32) + (if v & 64 == 0 then 0 else 64) + (if v & 128 == 0 then 0 else 128)
  {
  }

  lemma AllEight(v: bv8)
    ensures LowValue(v, 8) == v as int
  {
    ByteIsSum(v);
    LowFour(v);
    assert Pow2(4) == 16 && Pow2(5) == 32 && Pow2(6) == 64 && Pow2(7) == 128 by { assert Pow2(3) == 8; }
    assert LowValue(v, 5) == LowValue(v, 4) + if v & 16 == 0 then 0 else 16;
    assert LowValue(v, 6) == LowValue(v, 5) + if v & 32 == 0 then 0 else 32;
    assert LowValue(v, 7) == LowValue(v, 6) + if v & 64 == 0 then 0 else 64;
  }

  lemma LowFour(v: bv8)
    ensures LowValue(v, 4) == (if v & 1 == 0 then 0 else 1) + (if v & 2 == 0 then 0 else 2) + (if v & 4 == 0 then 0 else 4) + (if v & 8 == 0 then 0 else 8)
  {
    assert LowValue(v, 1) == if v & 1 == 0 then 0 else 1;
    assert LowValue(v, 2) == LowValue(v, 1) + if v & 2 == 0 then 0 else 2;
    assert LowValue(v, 3) == LowValue(v, 2) + if v & 4 == 0 then 0 else 4;
  }

  lemma NarrowHasNoHighBits(v: bv8, w: nat, i: nat)
    requires w <= i < 8 && Narrow(v, w)
    ensures !Masked(v, i)
  {
  }

  lemma {:induction false} NarrowLow(v: bv8, w: nat, n: nat)
    requires w <= n <= 8 && Narrow(v, w)
    ensures LowValue(v, n) == LowValue(v, w)
  {
    hide Masked, Narrow;
    if w < n {
      NarrowHasNoHighBits(v, w, n - 1);
      NarrowLow(v, w, n - 1);
    }
  }

  lemma {:induction false} BitsHaveValue(groups: Symbols, w: nat)
    requires w <= 8 && AllNarrow(groups, w)
    ensures BinaryValue(AllBits(groups, w)) == BaseValue(groups, w)
    decreases |groups|
  {
    hide Narrow, LowValue, Bits;
    if groups != [] {
      var k := |groups| - 1;
      var g := groups[k];
      BitsHaveValue(groups[..k], w);
      BinaryConcat(AllBits(groups[..k], w), GroupBits(g, w));
      BitsAreLow(g, w);
      NarrowLow(g, w, 8);
      AllEight(g);
    }
  }

  // Padded groups read as a number are the input read as a number, shifted left by less than a group.
  lemma RegroupedValue(data: Symbols, from: nat, to: nat, out: Symbols)
    requires 1 <= from <= 8 && 1 <= to <= 8 && AllNarrow(data, from) && Regrouped(data, from, to, true, out)
    ensures |data| * from <= |out| * to < |data| * from + to
    ensures BaseValue(out, to) == BaseValue(data, from) * Pow2(|out| * to - |data| * from)
  {
    hide AllBits, Narrow;
    var k: nat :| k < to && AllBits(out, to) == AllBits(data, from) + NoBits(k);
    AllBitsLength(out, to);
    AllBitsLength(data, from);
    BitsHaveValue(out, to);
    BitsHaveValue(data, from);
    BinaryConcat(AllBits(data, from), NoBits(k));
    NoBitsAreZero(k);
  }
}
