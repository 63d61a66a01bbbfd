// The checksum half of the Bech32 key encoder (internal/backup/crypto.go, lines 113-170).
// Symbols are bytes (bv8) and the running remainder is an unsigned 32-bit word (bv32), as in the source.
module Bech32Checksum {

  type Symbols = seq<bv8>

  predicate FiveBit(v: bv8) {
    v < 32
  }

  predicate AllFiveBit(values: Symbols) {
    forall i :: 0 <= i < |values| ==> FiveBit(values[i])
  }

  // ---------- the remainder as a function of the symbols ----------

  // A generator if the low bit of `bit` is set, otherwise nothing.
  function Pick(bit: bv32, g: bv32): bv32 {
    if bit & 1 == 1 then g else 0
  }

  function Xor(a: bv32, b: bv32): bv32 {
    a ^ b
  }

  function Gen(i: nat): bv32
    requires i < 5
  {
    match i
    case 0 => 0x3b6a57b2
    case 1 => 0x26508e6d
    case 2 => 0x1ea119fa
    case 3 => 0x3d4233dd
    case 4 => 0x2a1462b3
  }

  // Generator n, if bit n of the bits shifted out of the remainder is set.
  function Chosen(top: bv32, n: nat): bv32
    requires n < 5
  {
    Pick(top >> n, Gen(n))
  }

  function SelectedUpTo(top: bv32, n: nat): bv32
    requires n <= 5
  {
    if n == 0 then 0 else Xor(SelectedUpTo(top, n - 1), Chosen(top, n - 1))
  }

  // The generators selected by the five bits shifted out of the remainder.
  function Selected(top: bv32): bv32 {
    SelectedUpTo(top, 5)
  }

  function Mix(chk: bv32, v: bv32, g: bv32): bv32 {
    ((chk & 0x1ffffff) << 5) ^ v ^ g
  }

  function Step(chk: bv32, v: bv8): bv32 {
    Mix(chk, v as bv32, Selected(chk >> 25))
  }

  // The remainder left by a list of symbols, starting from `chk`.
  function Fold(chk: bv32, values: Symbols): bv32
    decreases |values|
  {
    if values == [] then chk else Fold(Step(chk, values[0]), values[1..])
  }

  lemma {:induction false} FoldAppend(chk: bv32, a: Symbols, b: Symbols)
    ensures Fold(chk, a + b) == Fold(Fold(chk, a), b)
    decreases |a|
  {
    hide Step;
    if a == [] {
      assert a + b == b;
    } else {
      assert (a + b)[1..] == a[1..] + b;
      FoldAppend(Step(chk, a[0]), a[1..], b);
    }
  }

  lemma FoldOne(chk: bv32, v: bv8)
    ensures Fold(chk, [v]) == Step(chk, v)
  {
    hide Step;
    assert [v][1..] == [];
  }

  // ---------- the remainder always fits in 30 bits ----------

  predicate Below30(s: bv32) {
    s < 0x40000000
  }

  lemma StepBelow30(chk: bv32, v: bv8)
    ensures Below30(Step(chk, v))
  {
    hide SelectedUpTo, Selected, Step;
    SelectedBelow30(chk >> 25, 5);
    StepIs(chk, v);
  }

  lemma {:induction false} FoldBelow30(chk: bv32, values: Symbols)
    requires Below30(chk)
    ensures Below30(Fold(chk, values))
    decreases |values|
  {
    hide Step;
    if values != [] {
      StepBelow30(chk, values[0]);
      FoldBelow30(Step(chk, values[0]), values[1..]);
    }
  }

  // ---------- a step loses no information ----------

  lemma SelectedUpToNext(top: bv32, n: nat)
    requires n < 5
    ensures SelectedUpTo(top, 0) == 0
    ensures SelectedUpTo(top, n + 1) == Xor(SelectedUpTo(top, n), Chosen(top, n))
  {
    hide Xor, Chosen;
  }

  lemma ChosenIs(top: bv32)
    ensures Chosen(top, 0) == Pick(top, 0x3b6a57b2)
    ensures Chosen(top, 1) == Pick(top >> 1, 0x26508e6d)
    ensures Chosen(top, 2) == Pick(top >> 2, 0x1ea119fa)
    ensures Chosen(top, 3) == Pick(top >> 3, 0x3d4233dd)
    ensures Chosen(top, 4) == Pick(top >> 4, 0x2a1462b3)
  {
    hide Pick;
    assert top >> 0 == top;
  }

  lemma SelectedIs(top: bv32)
    ensures Selected(top) == Xor(Xor(Xor(Xor(Xor(0, Pick(top, 0x3b6a57b2)), Pick(top >> 1, 0x26508e6d)),
                                   Pick(top >> 2, 0x1ea119fa)), Pick(top >> 3, 0x3d4233dd)), Pick(top >> 4, 0x2a1462b3))
  {
    hide Xor, Pick, Chosen, SelectedUpTo;
    ChosenIs(top);
    SelectedUpToNext(top, 0);
    SelectedUpToNext(top, 1);
    SelectedUpToNext(top, 2);
    SelectedUpToNext(top, 3);
    SelectedUpToNext(top, 4);
  }

  // The low five bits of the generators are independent.
  lemma PicksInjective(s: bv32, t: bv32, x: bv32, y: bv32)
    requires s < 32 && t < 32 && x & 31 == y & 31
    requires x == Xor(Xor(Xor(Xor(Xor(0, Pick(s, 0x3b6a57b2)), Pick(s >> 1, 0x26508e6d)),
                            Pick(s >> 2, 0x1ea119fa)), Pick(s >> 3, 0x3d4233dd)), Pick(s >> 4, 0x2a1462b3))
    requires y == Xor(Xor(Xor(Xor(Xor(0, Pick(t, 0x3b6a57b2)), Pick(t >> 1, 0x26508e6d)),
                            Pick(t >> 2, 0x1ea119fa)), Pick(t >> 3, 0x3d4233dd)), Pick(t >> 4, 0x2a1462b3))
    ensures s == t
  {
  }

  lemma XorBelow30(x: bv32, y: bv32)
    requires Below30(x) && Below30(y)
    ensures Below30(Xor(x, y))
  {
  }

  lemma ChosenBelow30(top: bv32, n: nat)
    requires n < 5
    ensures Below30(Chosen(top, n))
  {
  }

  lemma {:induction false} SelectedBelow30(top: bv32, n: nat)
    requires n <= 5
    ensures Below30(SelectedUpTo(top, n))
  {
    hide Xor, Chosen;
    if n != 0 {
      SelectedBelow30(top, n - 1);
      ChosenBelow30(top, n - 1);
      XorBelow30(SelectedUpTo(top, n - 1), Chosen(top, n - 1));
    }
  }

  lemma SelectedInjective(s: bv32, t: bv32)
    requires s < 32 && t < 32
    requires Selected(s) & 31 == Selected(t) & 31
    ensures s == t
  {
    hide SelectedUpTo, Selected, Xor, Pick;
    SelectedIs(s);
    SelectedIs(t);
    PicksInjective(s, t, Selected(s), Selected(t));
  }

  lemma MixLowBits(chk: bv32, v: bv32, g: bv32)
    ensures (Mix(chk, v, g) ^ v) & 31 == g & 31
  {
  }

  lemma MixInjective(s: bv32, t: bv32, v: bv32, g: bv32)
    requires Below30(s) && Below30(t) && s >> 25 == t >> 25
    requires Mix(s, v, g) == Mix(t, v, g)
    ensures s == t
  {
  }

  lemma TopIsFiveBit(s: bv32)
    requires Below30(s)
    ensures s >> 25 < 32
  {
  }

  lemma StepInjective(s: bv32, t: bv32, v: bv8)
    requires Below30(s) && Below30(t)
    requires Step(s, v) == Step(t, v)
    ensures s == t
  {
    hide Below30, Selected, Mix;
    MixLowBits(s, v as bv32, Selected(s >> 25));
    MixLowBits(t, v as bv32, Selected(t >> 25));
    TopIsFiveBit(s);
    TopIsFiveBit(t);
    SelectedInjective(s >> 25, t >> 25);
    MixInjective(s, t, v as bv32, Selected(s >> 25));
  }

  lemma {:induction false} FoldInjective(s: bv32, t: bv32, values: Symbols)
    requires Below30(s) && Below30(t)
    requires Fold(s, values) == Fold(t, values)
    ensures s == t
    decreases |values|
  {
    hide Step, Below30;
    if values != [] {
      StepBelow30(s, values[0]);
      StepBelow30(t, values[0]);
      FoldInjective(Step(s, values[0]), Step(t, values[0]), values[1..]);
      StepInjective(s, t, values[0]);
    }
  }

  // ---------- up to six symbols enter the remainder unreduced ----------

  function Push(x: bv32, v: bv8): bv32 {
    (x << 5) ^ (v as bv32)
  }

  // The symbols as the big-endian digits, base 32, of a word.
  function Packed(c: Symbols): bv32
    decreases |c|
  {
    if c == [] then 0 else Push(Packed(c[..|c| - 1]), c[|c| - 1])
  }

  // The word is one that k five-bit digits can reach.
  predicate Fits(x: bv32, k: nat)
    requires k <= 6
  {
    match k
    case 0 => x == 0
    case 1 => x < 0x20
    case 2 => x < 0x400
    case 3 => x < 0x8000
    case 4 => x < 0x100000
    case 5 => x < 0x2000000
    case 6 => x < 0x40000000
  }

  lemma PushFits(x: bv32, v: bv8, k: nat)
    requires k < 6 && Fits(x, k) && FiveBit(v)
    ensures Fits(Push(x, v), k + 1) && Fits(x, 5)
  {
  }

  lemma ZeroFits()
    ensures Fits(0, 0)
  {
  }

  lemma {:induction false} PackedFits(c: Symbols)
    requires |c| <= 6 && AllFiveBit(c)
    ensures Fits(Packed(c), |c|)
    decreases |c|
  {
    hide Fits, Push, FiveBit;
    if c == [] {
      ZeroFits();
    } else {
      PackedFits(c[..|c| - 1]);
      PushFits(Packed(c[..|c| - 1]), c[|c| - 1], |c| - 1);
    }
  }

  lemma PushInjective(x: bv32, y: bv32, v: bv8, w: bv8)
    requires Fits(x, 5) && Fits(y, 5) && FiveBit(v) && FiveBit(w)
    requires Push(x, v) == Push(y, w)
    ensures x == y && v == w
  {
  }

  lemma {:induction false} PackedInjective(c: Symbols, d: Symbols)
    requires |c| == |d| <= 6 && AllFiveBit(c) && AllFiveBit(d)
    requires Packed(c) == Packed(d)
    ensures c == d
    decreases |c|
  {
    hide Fits, Push, FiveBit;
    if c != [] {
      var n := |c| - 1;
      PackedFits(c[..n]);
      PackedFits(d[..n]);
      PushFits(Packed(c[..n]), c[n], n);
      PushFits(Packed(d[..n]), d[n], n);
      PushInjective(Packed(c[..n]), Packed(d[..n]), c[n], d[n]);
      PackedInjective(c[..n], d[..n]);
      assert c == c[..n] + [c[n]] && d == d[..n] + [d[n]];
    }
  }

  lemma SameTop(s: bv32, d: bv32)
    requires d < 0x2000000
    ensures (s ^ d) >> 25 == s >> 25
  {
  }

  lemma MixShift(s: bv32, d: bv32, v: bv32, g: bv32)
    requires d < 0x2000000
    ensures Mix(s ^ d, v, g) == Mix(s, 0, g) ^ ((d << 5) ^ v)
  {
  }

  lemma StepAt(s: bv32, v: bv8, top: bv32)
    requires s >> 25 == top
    ensures Step(s, v) == Mix(s, v as bv32, Selected(top))
  {
    hide Mix, Selected;
  }

  lemma StepShiftRaw(s: bv32, d: bv32, v: bv8)
    requires d < 0x2000000
    ensures Step(s ^ d, v) == Step(s, 0) ^ ((d << 5) ^ (v as bv32))
  {
    hide *;
    SameTop(s, d);
    StepAt(s ^ d, v, s >> 25);
    StepAt(s, 0, s >> 25);
    MixShift(s, d, v as bv32, Selected(s >> 25));
  }

  // A difference below bit 25 is shifted by a step and not reduced.
  lemma StepShift(s: bv32, d: bv32, v: bv8)
    requires Fits(d, 5)
    ensures Step(Xor(s, d), v) == Xor(Step(s, 0), Push(d, v))
  {
    hide Step;
    StepShiftRaw(s, d, v);
  }

  function Zeros(n: nat): (r: Symbols)
    ensures |r| == n && forall i :: 0 <= i < n ==> r[i] == 0
  {
    seq(n, _ => 0)
  }

  lemma XorZero(s: bv32)
    ensures Xor(s, 0) == s
  {
  }

  lemma {:induction false} FoldUnreduced(s: bv32, c: Symbols)
    requires |c| <= 6 && AllFiveBit(c)
    ensures Fold(s, c) == Xor(Fold(s, Zeros(|c|)), Packed(c))
    decreases |c|
  {
    hide Step, Fits, Push, Xor, FiveBit;
    if c == [] {
      XorZero(s);
    } else {
      var n := |c| - 1;
      var d := Packed(c[..n]);
      var z := Fold(s, Zeros(n));
      FoldUnreduced(s, c[..n]);
      PackedFits(c[..n]);
      PushFits(d, c[n], n);
      StepShift(z, d, c[n]);
      assert c == c[..n] + [c[n]] && Zeros(|c|) == Zeros(n) + [0];
      FoldAppend(s, c[..n], [c[n]]);
      FoldOne(Xor(z, d), c[n]);
      FoldAppend(s, Zeros(n), [0]);
      FoldOne(z, 0);
    }
  }

  // ---------- the checksum ----------

  // Go's byte(x): the low eight bits.
  function LowByte(x: bv32): bv8 {
    (x & 0xff) as bv8
  }

  function Digit(x: bv32): bv8 {
    LowByte(x) & 31
  }

  // The six base-32 digits of a word, most significant first.
  function Digits(mod: bv32): (r: Symbols)
    ensures |r| == 6
  {
    [Digit(mod >> 25), Digit(mod >> 20), Digit(mod >> 15), Digit(mod >> 10), Digit(mod >> 5), Digit(mod)]
  }

  lemma DigitIsFiveBit(x: bv32)
    ensures FiveBit(Digit(x))
  {
  }

  lemma DigitsFiveBit(mod: bv32)
    ensures AllFiveBit(Digits(mod))
  {
    hide Digit, FiveBit;
    DigitIsFiveBit(mod >> 25); DigitIsFiveBit(mod >> 20); DigitIsFiveBit(mod >> 15);
    DigitIsFiveBit(mod >> 10); DigitIsFiveBit(mod >> 5); DigitIsFiveBit(mod);
  }

  lemma PackedAppend(c: Symbols, v: bv8)
    ensures Packed(c + [v]) == Push(Packed(c), v)
  {
    hide Push;
    assert (c + [v])[..|c|] == c;
  }

  lemma PushLowDigit(x: bv32)
    ensures Push(x >> 5, Digit(x)) == x
  {
  }

  // v is the last base-32 digit of x, and `high` holds the digits before it.
  predicate LastDigit(v: bv8, x: bv32, high: bv32) {
    x >> 5 == high && v == Digit(x)
  }

  lemma PushLastDigit(v: bv8, x: bv32, high: bv32)
    requires LastDigit(v, x, high)
    ensures Push(high, v) == x
  {
    hide Digit, Push;
    PushLowDigit(x);
  }

  lemma FirstDigit(mod: bv32)
    requires Below30(mod)
    ensures LastDigit(Digit(mod >> 25), mod >> 25, 0)
  {
    hide Digit;
  }

  lemma OtherDigits(mod: bv32)
    ensures LastDigit(Digit(mod >> 20), mod >> 20, mod >> 25)
    ensures LastDigit(Digit(mod >> 15), mod >> 15, mod >> 20)
    ensures LastDigit(Digit(mod >> 10), mod >> 10, mod >> 15)
    ensures LastDigit(Digit(mod >> 5), mod >> 5, mod >> 10)
    ensures LastDigit(Digit(mod), mod, mod >> 5)
  {
    hide Digit;
  }

  // One more digit, when the digits before it spell `high`.
  lemma PackedOneMore(d: Symbols, k: nat, x: bv32, high: bv32)
    requires k < |d| && Packed(d[..k]) == high && LastDigit(d[k], x, high)
    ensures Packed(d[..k + 1]) == x
  {
    hide LastDigit, Push;
    assert d[..k + 1] == d[..k] + [d[k]];
    PackedAppend(d[..k], d[k]);
    PushLastDigit(d[k], x, high);
  }

  lemma PackedSix(d: Symbols, x0: bv32, x1: bv32, x2: bv32, x3: bv32, x4: bv32, x5: bv32)
    requires |d| == 6 && LastDigit(d[0], x0, 0) && LastDigit(d[1], x1, x0) && LastDigit(d[2], x2, x1)
    requires LastDigit(d[3], x3, x2) && LastDigit(d[4], x4, x3) && LastDigit(d[5], x5, x4)
    ensures Packed(d) == x5
  {
    hide LastDigit, Push;
    PackedOneMore(d, 0, x0, 0);
    PackedOneMore(d, 1, x1, x0);
    PackedOneMore(d, 2, x2, x1);
    PackedOneMore(d, 3, x3, x2);
    PackedOneMore(d, 4, x4, x3);
    PackedOneMore(d, 5, x5, x4);
    assert d[..6] == d;
  }

  lemma PackedDigits(mod: bv32)
    requires Below30(mod)
    ensures Packed(Digits(mod)) == mod
  {
    hide LastDigit, Digit, Below30, Packed;
    FirstDigit(mod);
    OtherDigits(mod);
    PackedSix(Digits(mod), mod >> 25, mod >> 20, mod >> 15, mod >> 10, mod >> 5, mod);
  }

  function HighBits(c: bv8): bv8 {
    c >> 5
  }

  function LowBits(c: bv8): bv8 {
    c & 31
  }

  function HrpExpanded(hrp: Symbols): (r: Symbols)
    ensures |r| == 2 * |hrp| + 1
  {
    seq(|hrp|, i requires 0 <= i < |hrp| => HighBits(hrp[i])) + [0] + seq(|hrp|, i requires 0 <= i < |hrp| => LowBits(hrp[i]))
  }

  function Checksum(hrp: Symbols, data: Symbols): (r: Symbols)
    ensures |r| == 6
  {
    Digits(Xor(Fold(1, HrpExpanded(hrp) + data + Zeros(6)), 1))
  }

  // What the Bech32 format asks of a finished string: the whole list of symbols leaves remainder 1.
  predicate Verifies(hrp: Symbols, data: Symbols, checksum: Symbols) {
    Fold(1, HrpExpanded(hrp) + data + checksum) == 1
  }

  lemma FoldsAre30Bits(hrp: Symbols, data: Symbols)
    ensures Below30(Fold(1, HrpExpanded(hrp) + data))
    ensures Below30(Fold(1, HrpExpanded(hrp) + data + Zeros(6)))
  {
    hide Fold;
    assert Below30(1);
    FoldBelow30(1, HrpExpanded(hrp) + data);
    FoldBelow30(1, HrpExpanded(hrp) + data + Zeros(6));
  }

  lemma FlipLow(s: bv32)
    requires Below30(s)
    ensures Below30(Xor(s, 1)) && Xor(s, Xor(s, 1)) == 1
  {
  }

  lemma FlipUnique(s: bv32, c: bv32)
    requires Xor(s, c) == 1
    ensures c == Xor(s, 1)
  {
  }

  // The checksum verifies, and it is the only list of six 5-bit symbols that does.
  lemma ChecksumIsTheOneThatVerifies(hrp: Symbols, data: Symbols, c: Symbols)
    requires |c| == 6 && AllFiveBit(c)
    ensures Verifies(hrp, data, c) <==> c == Checksum(hrp, data)
  {
    hide Below30, FiveBit, Fits, Push, Packed, Digits, Fold, Xor, HrpExpanded, Zeros;
    var v := HrpExpanded(hrp) + data;
    var s := Fold(1, v + Zeros(6));
    var m := Xor(s, 1);
    FoldsAre30Bits(hrp, data);
    FoldAppend(1, v, c);
    FoldAppend(1, v, Zeros(6));
    FoldUnreduced(Fold(1, v), c);
    FlipLow(s);
    PackedDigits(m);
    DigitsFiveBit(m);
    if Xor(s, Packed(c)) == 1 {
      FlipUnique(s, Packed(c));
      PackedInjective(c, Digits(m));
    }
  }

  lemma ChecksumVerifies(hrp: Symbols, data: Symbols)
    ensures AllFiveBit(Checksum(hrp, data)) && Verifies(hrp, data, Checksum(hrp, data))
  {
    hide FiveBit, Digits, Fold, Xor, HrpExpanded, Zeros, Verifies;
    DigitsFiveBit(Xor(Fold(1, HrpExpanded(hrp) + data + Zeros(6)), 1));
    ChecksumIsTheOneThatVerifies(hrp, data, Checksum(hrp, data));
  }

  // ---------- error detection ----------

  lemma XorCancel(z: bv32, a: bv32, b: bv32)
    requires Xor(z, a) == Xor(z, b)
    ensures a == b
  {
  }

  // Two lists that differ only inside a window of at most six symbols never leave the same remainder,
  // however long the text before and after the window.
  lemma BurstChangesRemainder(before: Symbols, a: Symbols, b: Symbols, after: Symbols)
    requires |a| == |b| <= 6 && AllFiveBit(a) && AllFiveBit(b)
    requires a != b
    ensures Fold(1, before + a + after) != Fold(1, before + b + after)
  {
    hide *;
    var s := Fold(1, before);
    OneBelow30();
    FoldBelow30(1, before);
    FoldBelow30(s, a);
    FoldBelow30(s, b);
    FoldAppend(1, before, a);
    FoldAppend(1, before, b);
    FoldAppend(1, before + a, after);
    FoldAppend(1, before + b, after);
    if Fold(1, before + a + after) == Fold(1, before + b + after) {
      FoldInjective(Fold(s, a), Fold(s, b), after);
      FoldUnreduced(s, a);
      FoldUnreduced(s, b);
      XorCancel(Fold(s, Zeros(|a|)), Packed(a), Packed(b));
      PackedInjective(a, b);
    }
  }

  lemma OneBelow30()
    ensures Below30(1)
  {
  }

  // Changing exactly one 5-bit symbol is always noticed.
  lemma OneSymbolChangesRemainder(values: Symbols, k: nat, v: bv8)
    requires k < |values| && FiveBit(values[k]) && FiveBit(v) && v != values[k]
    ensures Fold(1, values[k := v]) != Fold(1, values)
  {
    hide Fold;
    BurstChangesRemainder(values[..k], [values[k]], [v], values[k + 1..]);
    assert values == values[..k] + [values[k]] + values[k + 1..];
    assert values[k := v] == values[..k] + [v] + values[k + 1..];
  }

  // ---------- the code is linear ----------

  lemma XorSwapRaw(a: bv32, b: bv32, c: bv32, d: bv32, p: bv32, q: bv32, r: bv32, t: bv32, u: bv32, w: bv32)
    requires p == a ^ b && q == c ^ d && r == a ^ c && t == b ^ d
    requires u == p ^ q && w == r ^ t
    ensures u == w
  {
  }

  lemma XorIs(a: bv32, b: bv32)
    ensures Xor(a, b) == a ^ b
  {
  }

  lemma XorSwap(a: bv32, b: bv32, c: bv32, d: bv32)
    ensures Xor(Xor(a, b), Xor(c, d)) == Xor(Xor(a, c), Xor(b, d))
  {
    hide *;
    var p, q, r, t := Xor(a, b), Xor(c, d), Xor(a, c), Xor(b, d);
    XorIs(a, b); XorIs(c, d); XorIs(a, c); XorIs(b, d); XorIs(p, q); XorIs(r, t);
    XorSwapRaw(a, b, c, d, p, q, r, t, Xor(p, q), Xor(r, t));
  }

  lemma PickLinear(x: bv32, y: bv32, z: bv32, g: bv32)
    requires z & 1 == 1 <==> (x & 1 == 1) != (y & 1 == 1)
    ensures Pick(z, g) == Xor(Pick(x, g), Pick(y, g))
  {
    assert g ^ g == 0 && g ^ 0 == g && 0 ^ g == g;
    if x & 1 == 1 {
      if y & 1 == 1 {} else {}
    } else {
      if y & 1 == 1 {} else {}
    }
  }

  lemma Bit0Linear(x: bv32, y: bv32)
    ensures Xor(x, y) & 1 == 1 <==> (x & 1 == 1) != (y & 1 == 1)
  {
  }

  lemma Bit1Linear(x: bv32, y: bv32)
    ensures (Xor(x, y) >> 1) & 1 == 1 <==> ((x >> 1) & 1 == 1) != ((y >> 1) & 1 == 1)
  {
  }

  lemma Bit2Linear(x: bv32, y: bv32)
    ensures (Xor(x, y) >> 2) & 1 == 1 <==> ((x >> 2) & 1 == 1) != ((y >> 2) & 1 == 1)
  {
  }

  lemma Bit3Linear(x: bv32, y: bv32)
    ensures (Xor(x, y) >> 3) & 1 == 1 <==> ((x >> 3) & 1 == 1) != ((y >> 3) & 1 == 1)
  {
  }

  lemma Bit4Linear(x: bv32, y: bv32)
    ensures (Xor(x, y) >> 4) & 1 == 1 <==> ((x >> 4) & 1 == 1) != ((y >> 4) & 1 == 1)
  {
  }

  lemma BitLinear(x: bv32, y: bv32, n: nat)
    requires n < 5
    ensures (Xor(x, y) >> n) & 1 == 1 <==> ((x >> n) & 1 == 1) != ((y >> n) & 1 == 1)
  {
    hide Xor;
    if n == 0 {
      assert x >> 0 == x && y >> 0 == y && Xor(x, y) >> 0 == Xor(x, y);
      Bit0Linear(x, y);
    } else if n == 1 {
      Bit1Linear(x, y);
    } else if n == 2 {
      Bit2Linear(x, y);
    } else if n == 3 {
      Bit3Linear(x, y);
    } else {
      Bit4Linear(x, y);
    }
  }

  lemma ChosenLinear(x: bv32, y: bv32, n: nat)
    requires n < 5
    ensures Chosen(Xor(x, y), n) == Xor(Chosen(x, n), Chosen(y, n))
  {
    hide Xor, Pick, Gen;
    BitLinear(x, y, n);
    PickLinear(x >> n, y >> n, Xor(x, y) >> n, Gen(n));
  }

  lemma {:induction false} SelectedLinear(x: bv32, y: bv32, n: nat)
    requires n <= 5
    ensures SelectedUpTo(Xor(x, y), n) == Xor(SelectedUpTo(x, n), SelectedUpTo(y, n))
  {
    hide Xor, Chosen;
    if n == 0 {
      XorZero(0);
    } else {
      SelectedLinear(x, y, n - 1);
      ChosenLinear(x, y, n - 1);
      XorSwap(SelectedUpTo(x, n - 1), SelectedUpTo(y, n - 1), Chosen(x, n - 1), Chosen(y, n - 1));
    }
  }

  lemma MixLinearRaw(s: bv32, t: bv32, v: bv32, w: bv32, g: bv32, h: bv32, x: bv32, y: bv32, z: bv32)
    requires x == ((s & 0x1ffffff) << 5) ^ v ^ g
    requires y == ((t & 0x1ffffff) << 5) ^ w ^ h
    requires z == (((s ^ t) & 0x1ffffff) << 5) ^ (v ^ w) ^ (g ^ h)
    ensures z == x ^ y
  {
  }

  lemma MixLinear(s: bv32, t: bv32, v: bv32, w: bv32, g: bv32, h: bv32)
    ensures Mix(s ^ t, v ^ w, g ^ h) == Mix(s, v, g) ^ Mix(t, w, h)
  {
    MixLinearRaw(s, t, v, w, g, h, Mix(s, v, g), Mix(t, w, h), Mix(s ^ t, v ^ w, g ^ h));
  }

  lemma MixLinearXor(s: bv32, t: bv32, v: bv32, w: bv32, g: bv32, h: bv32)
    ensures Mix(Xor(s, t), Xor(v, w), Xor(g, h)) == Xor(Mix(s, v, g), Mix(t, w, h))
  {
    hide Mix;
    MixLinear(s, t, v, w, g, h);
  }

  lemma WideLinear(v: bv8, w: bv8)
    ensures (v ^ w) as bv32 == Xor(v as bv32, w as bv32)
  {
  }

  lemma TopLinear(s: bv32, t: bv32)
    ensures Xor(s, t) >> 25 == Xor(s >> 25, t >> 25)
  {
  }

  lemma StepLinear(s: bv32, t: bv32, v: bv8, w: bv8)
    ensures Step(Xor(s, t), v ^ w) == Xor(Step(s, v), Step(t, w))
  {
    hide *;
    StepIs(Xor(s, t), v ^ w);
    StepIs(s, v);
    StepIs(t, w);
    TopLinear(s, t);
    WideLinear(v, w);
    SelectedLinear(s >> 25, t >> 25, 5);
    MixLinearXor(s, t, v as bv32, w as bv32, SelectedUpTo(s >> 25, 5), SelectedUpTo(t >> 25, 5));
  }

  // The symbol-by-symbol difference of two lists.
  function ErrorPattern(a: Symbols, b: Symbols): (r: Symbols)
    requires |a| == |b|
    ensures |r| == |a|
    ensures forall i :: 0 <= i < |a| ==> r[i] == a[i] ^ b[i]
  {
    seq(|a|, i requires 0 <= i < |a| => a[i] ^ b[i])
  }

  lemma {:induction false} FoldLinear(s: bv32, t: bv32, a: Symbols, b: Symbols)
    requires |a| == |b|
    ensures Fold(Xor(s, t), ErrorPattern(a, b)) == Xor(Fold(s, a), Fold(t, b))
    decreases |a|
  {
    hide Step, Xor;
    if a != [] {
      StepLinear(s, t, a[0], b[0]);
      assert ErrorPattern(a, b)[1..] == ErrorPattern(a[1..], b[1..]);
      FoldLinear(Step(s, a[0]), Step(t, b[0]), a[1..], b[1..]);
    }
  }

  // Whether a change of the symbols goes unnoticed depends on the difference alone, not on the symbols.
  lemma DetectionDependsOnErrorPattern(a: Symbols, b: Symbols)
    requires |a| == |b|
    ensures Fold(1, a) == Fold(1, b) <==> Fold(0, ErrorPattern(a, b)) == 0
  {
    hide Fold;
    FoldLinear(1, 1, a, b);
    assert Xor(1, 1) == 0;
    XorIsZero(Fold(1, a), Fold(1, b));
  }

  lemma XorIsZero(s: bv32, t: bv32)
    ensures Xor(s, t) == 0 <==> s == t
  {
    XorWithItself(t);
    XorCommutes(s, t);
    if Xor(s, t) == 0 {
      hide Xor;
      XorCancel(t, s, t);
    }
  }

  lemma XorWithItself(s: bv32)
    ensures Xor(s, s) == 0
  {
  }

  lemma XorCommutes(s: bv32, t: bv32)
    ensures Xor(s, t) == Xor(t, s)
  {
  }

  // ---------- the loops of the source ----------

  lemma OneMorePick(entered: bv32, sel: bv32, bit: bv32, g: bv32, w: bv32)
    requires w == Xor(entered, sel)
    ensures (if bit & 1 == 1 then w ^ g else w) == Xor(entered, Xor(sel, Pick(bit, g)))
  {
    if bit & 1 == 1 {
      assert (entered ^ sel) ^ g == entered ^ (sel ^ g);
    } else {
      assert sel ^ 0 == sel;
    }
  }

  lemma OneMoreChosen(entered: bv32, sel: bv32, top: bv32, i: nat, w: bv32)
    requires i < 5 && w == Xor(entered, sel)
    ensures (if (top >> i) & 1 == 1 then w ^ Gen(i) else w) == Xor(entered, Xor(sel, Chosen(top, i)))
  {
    hide Gen, Xor, Pick;
    OneMorePick(entered, sel, top >> i, Gen(i), w);
  }

  lemma MixEntered(s: bv32, v: bv32, entered: bv32, g: bv32)
    requires entered == ((s & 0x1ffffff) << 5) ^ v
    ensures Xor(entered, g) == Mix(s, v, g)
  {
  }

  lemma StepIs(s: bv32, v: bv8)
    ensures Step(s, v) == Mix(s, v as bv32, SelectedUpTo(s >> 25, 5))
  {
    hide Mix, SelectedUpTo;
  }

  // The body of the outer loop below.
  method Absorb(start: bv32, v: bv8) returns (chk: bv32)
    ensures chk == Step(start, v)
  {
    hide *;
    var top := start >> 25;
    chk := (start & 0x1ffffff) << 5;
    chk := chk ^ (v as bv32);
    ghost var entered := chk;
    var i := 0;
    SelectedUpToNext(top, 0);
    XorZero(entered);
    while i < 5
      invariant 0 <= i <= 5
      invariant chk == Xor(entered, SelectedUpTo(top, i))
    {
      SelectedUpToNext(top, i);
      OneMoreChosen(entered, SelectedUpTo(top, i), top, i, chk);
      if (top >> i) & 1 == 1 {
        chk := chk ^ Gen(i);
      }
      i := i + 1;
    }
    StepIs(start, v);
    MixEntered(start, v as bv32, entered, SelectedUpTo(top, 5));
  }

  method Polymod(values: Symbols) returns (chk: bv32)
    ensures chk == Fold(1, values)
  {
    hide Step;
    chk := 1;
    for n := 0 to |values|
      invariant Fold(1, values) == Fold(chk, values[n..])
    {
      var v := values[n];
      chk := Absorb(chk, v);
      assert values[n..][0] == v && values[n..][1..] == values[n + 1..];
    }
  }
}
