// The Bech32 key encoder (internal/backup/crypto.go, lines 103-155) against a decoder's view of its output.
// Strings are byte sequences, as in the source; case mapping is ASCII.
module Bech32 {
  import opened Bech32Checksum
  import opened Bech32Regroup

  const SEPARATOR: bv8 := 0x31

  // ---------- characters ----------

  // The character of a five-bit symbol: "qpzry9x8gf2tvdw0s3jn54khce6mua7l".
  function Character(v: bv8): bv8 {
    match v
    case 0 => 0x71 case 1 => 0x70 case 2 => 0x7a case 3 => 0x72
    case 4 => 0x79 case 5 => 0x39 case 6 => 0x78 case 7 => 0x38
    case 8 => 0x67 case 9 => 0x66 case 10 => 0x32 case 11 => 0x74
    case 12 => 0x76 case 13 => 0x64 case 14 => 0x77 case 15 => 0x30
    case 16 => 0x73 case 17 => 0x33 case 18 => 0x6a case 19 => 0x6e
    case 20 => 0x35 case 21 => 0x34 case 22 => 0x6b case 23 => 0x68
    case 24 => 0x63 case 25 => 0x65 case 26 => 0x36 case 27 => 0x6d
    case 28 => 0x75 case 29 => 0x61 case 30 => 0x37 case _ => 0x6c
  }

  function Lower(c: bv8): bv8 {
    if 0x41 <= c <= 0x5a then c + 0x20 else c
  }

  function Upper(c: bv8): bv8 {
    if 0x61 <= c <= 0x7a then c - 0x20 else c
  }

  function Characters(values: Symbols): (r: Symbols)
    ensures |r| == |values|
    ensures forall i :: 0 <= i < |values| ==> r[i] == Character(values[i])
  {
    seq(|values|, i requires 0 <= i < |values| => Character(values[i]))
  }

  function ToLower(s: Symbols): (r: Symbols)
    ensures |r| == |s|
    ensures forall i :: 0 <= i < |s| ==> r[i] == Lower(s[i])
  {
    seq(|s|, i requires 0 <= i < |s| => Lower(s[i]))
  }

  function ToUpper(s: Symbols): (r: Symbols)
    ensures |r| == |s|
    ensures forall i :: 0 <= i < |s| ==> r[i] == Upper(s[i])
  {
    seq(|s|, i requires 0 <= i < |s| => Upper(s[i]))
  }

  // The symbol of a character; any symbol for a character outside the alphabet.
  function Value(c: bv8): bv8 {
    match c
    case 0x71 => 0 case 0x70 => 1 case 0x7a => 2 case 0x72 => 3
    case 0x79 => 4 case 0x39 => 5 case 0x78 => 6 case 0x38 => 7
    case 0x67 => 8 case 0x66 => 9 case 0x32 => 10 case 0x74 => 11
    case 0x76 => 12 case 0x64 => 13 case 0x77 => 14 case 0x30 => 15
    case 0x73 => 16 case 0x33 => 17 case 0x6a => 18 case 0x6e => 19
    case 0x35 => 20 case 0x34 => 21 case 0x6b => 22 case 0x68 => 23
    case 0x63 => 24 case 0x65 => 25 case 0x36 => 26 case 0x6d => 27
    case 0x75 => 28 case 0x61 => 29 case 0x37 => 30 case _ => 31
  }

  lemma ValueOfLowCharacter(v: bv8)
    requires v < 16
    ensures Value(Character(v)) == v
  {
    if v == 0 {} else if v == 1 {} else if v == 2 {} else if v == 3 {} else if v == 4 {} else if v == 5 {}
    else if v == 6 {} else if v == 7 {} else if v == 8 {} else if v == 9 {} else if v == 10 {} else if v == 11 {}
    else if v == 12 {} else if v == 13 {} else if v == 14 {} else {}
  }

  lemma ValueOfHighCharacter(v: bv8)
    requires 16 <= v < 24
    ensures Value(Character(v)) == v
  {
    if v == 16 {} else if v == 17 {} else if v == 18 {} else if v == 19 {} else if v == 20 {} else if v == 21 {}
    else if v == 22 {} else {}
  }

  lemma ValueOfLastCharacter(v: bv8)
    requires 24 <= v < 32
    ensures Value(Character(v)) == v
  {
    if v == 24 {} else if v == 25 {} else if v == 26 {} else if v == 27 {}
    else if v == 28 {} else if v == 29 {} else if v == 30 {} else {}
  }

  lemma ValueOfCharacter(v: bv8)
    requires FiveBit(v)
    ensures Value(Character(v)) == v
  {
    hide Value, Character;
    if v < 16 {
      ValueOfLowCharacter(v);
    } else if v < 24 {
      ValueOfHighCharacter(v);
    } else {
      ValueOfLastCharacter(v);
    }
  }

  lemma CharacterInjective(v: bv8, w: bv8)
    requires FiveBit(v) && FiveBit(w) && Character(v) == Character(w)
    ensures v == w
  {
    hide *;
    ValueOfCharacter(v);
    ValueOfCharacter(w);
  }

  lemma CharacterIsLowerAndNoSeparator(v: bv8)
    ensures Character(v) != SEPARATOR && Lower(Character(v)) == Character(v)
  {
  }

  lemma CharactersInjective(a: Symbols, b: Symbols)
    requires AllFiveBit(a) && AllFiveBit(b) && Characters(a) == Characters(b)
    ensures a == b
  {
    hide Character, FiveBit;
    assert |a| == |Characters(a)| == |b|;
    forall i | 0 <= i < |a|
      ensures a[i] == b[i]
    {
      assert Characters(a)[i] == Characters(b)[i];
      CharacterInjective(a[i], b[i]);
    }
  }

  // ---------- what a string encodes ----------

  // The string a byte list is given: prefix, separator, symbols and checksum.
  ghost predicate Encodes(hrp: Symbols, data: Symbols, s: Symbols) {
    exists values :: Regrouped(data, 8, 5, true, values) &&
      s == hrp + [SEPARATOR] + Characters(values + Checksum(hrp, values))
  }

  // A decoder's view: five-bit symbols after a separator leave remainder 1 with the prefix, and regrouping
  // all but the last six into bytes leaves fewer than five bits, all zero.
  ghost predicate DecodesWith(hrp: Symbols, data: Symbols, s: Symbols, values: Symbols, sum: Symbols) {
    |sum| == 6 && AllFiveBit(values) && AllFiveBit(sum) &&
    s == hrp + [SEPARATOR] + Characters(values + sum) &&
    Verifies(hrp, values, sum) &&
    exists k: nat :: k < 5 && AllBits(values, 5) == AllBits(data, 8) + NoBits(k)
  }

  ghost predicate Decodes(hrp: Symbols, data: Symbols, s: Symbols) {
    exists values, sum :: DecodesWith(hrp, data, s, values, sum)
  }

  lemma NarrowIsFiveBit(v: bv8)
    ensures Narrow(v, 5) == FiveBit(v)
  {
  }

  lemma AllNarrowIsAllFiveBit(values: Symbols)
    ensures AllNarrow(values, 5) == AllFiveBit(values)
  {
    hide Narrow, FiveBit;
    forall i | 0 <= i < |values|
      ensures Narrow(values[i], 5) == FiveBit(values[i])
    {
      NarrowIsFiveBit(values[i]);
    }
  }

  lemma BytesAreNarrow(data: Symbols)
    ensures AllNarrow(data, 8)
  {
  }

  // The encoder and the decoder agree on every string.
  lemma DecodesIffEncodes(hrp: Symbols, data: Symbols, s: Symbols)
    ensures Decodes(hrp, data, s) <==> Encodes(hrp, data, s)
  {
    hide AllNarrow, AllFiveBit, AllBits, Checksum, Verifies;
    if Encodes(hrp, data, s) {
      var values :| Regrouped(data, 8, 5, true, values) &&
        s == hrp + [SEPARATOR] + Characters(values + Checksum(hrp, values));
      AllNarrowIsAllFiveBit(values);
      ChecksumVerifies(hrp, values);
      assert DecodesWith(hrp, data, s, values, Checksum(hrp, values));
    }
    if Decodes(hrp, data, s) {
      var values, sum :| DecodesWith(hrp, data, s, values, sum);
      AllNarrowIsAllFiveBit(values);
      ChecksumIsTheOneThatVerifies(hrp, values, sum);
      assert Regrouped(data, 8, 5, true, values);
    }
  }

  // ---------- regrouping is exact and reversible ----------

  lemma Regrouped8To5Length(data: Symbols, values: Symbols)
    requires Regrouped(data, 8, 5, true, values)
    ensures |values| == (8 * |data| + 4) / 5
  {
    hide AllBits, AllNarrow;
    AllBitsLength(values, 5);
    AllBitsLength(data, 8);
  }

  // The leading whole bytes of a bit list are unique.
  lemma BytesUnique(d: Symbols, e: Symbols, x: Bitlist, y: Bitlist)
    requires |x| < 8 && |y| < 8 && AllBits(d, 8) + x == AllBits(e, 8) + y
    ensures d == e
  {
    hide AllBits, AllNarrow;
    AllBitsLength(d, 8);
    AllBitsLength(e, 8);
    assert |AllBits(d, 8) + x| == |AllBits(e, 8) + y|;
    SplitEqual(AllBits(d, 8), x, AllBits(e, 8), y);
    BytesAreNarrow(d);
    BytesAreNarrow(e);
    AllBitsInjective(d, e, 8);
  }

  // Regrouping back with the same routine recovers the bytes and nothing else.
  lemma RegroupBack(data: Symbols, values: Symbols, back: Symbols)
    requires Regrouped(data, 8, 5, true, values)
    ensures Regrouped(values, 5, 8, false, back) <==> back == data
  {
    hide AllBits, AllNarrow;
    var k: nat :| k < 5 && AllBits(values, 5) == AllBits(data, 8) + NoBits(k);
    BytesAreNarrow(data);
    if Regrouped(values, 5, 8, false, back) {
      var rest: Bitlist :| |rest| < 8 && AllBits(back, 8) + rest == AllBits(values, 5);
      BytesUnique(data, back, NoBits(k), rest);
    }
  }

  lemma RegroupedUnique(data: Symbols, a: Symbols, b: Symbols)
    requires Regrouped(data, 8, 5, true, a) && Regrouped(data, 8, 5, true, b)
    ensures a == b
  {
    hide AllBits, AllNarrow;
    Regrouped8To5Length(data, a);
    Regrouped8To5Length(data, b);
    AllBitsLength(a, 5);
    AllBitsLength(b, 5);
    AllBitsLength(data, 8);
    AllBitsInjective(a, b, 5);
  }

  // ---------- a string decodes in one way ----------

  lemma NoSeparatorAfter(h: Symbols, x: Symbols, i: nat)
    requires SEPARATOR !in x && i < |h| + 1 + |x| && (h + [SEPARATOR] + x)[i] == SEPARATOR
    ensures i <= |h|
  {
  }

  lemma LastSeparator(h: Symbols, x: Symbols, g: Symbols, y: Symbols)
    requires SEPARATOR !in x && SEPARATOR !in y
    requires h + [SEPARATOR] + x == g + [SEPARATOR] + y
    ensures h == g && x == y
  {
    var s := h + [SEPARATOR] + x;
    assert s[|g|] == SEPARATOR && s[|h|] == SEPARATOR && |s| == |g| + 1 + |y|;
    NoSeparatorAfter(h, x, |g|);
    NoSeparatorAfter(g, y, |h|);
    assert h == s[..|h|] && g == s[..|g|] && x == s[|h| + 1..] && y == s[|g| + 1..];
  }

  lemma NoSeparatorInside(values: Symbols)
    ensures SEPARATOR !in Characters(values)
  {
    hide Character;
    forall i | 0 <= i < |values|
      ensures Characters(values)[i] != SEPARATOR
    {
      CharacterIsLowerAndNoSeparator(values[i]);
    }
  }

  lemma DecodesUnique(h: Symbols, d: Symbols, g: Symbols, e: Symbols, s: Symbols)
    requires Decodes(h, d, s) && Decodes(g, e, s)
    ensures h == g && d == e
  {
    hide AllBits, AllFiveBit, Verifies, Characters;
    var a, p :| DecodesWith(h, d, s, a, p);
    var b, q :| DecodesWith(g, e, s, b, q);
    NoSeparatorInside(a + p);
    NoSeparatorInside(b + q);
    LastSeparator(h, Characters(a + p), g, Characters(b + q));
    AllFiveBitConcat(a, p);
    AllFiveBitConcat(b, q);
    CharactersInjective(a + p, b + q);
    assert a == (a + p)[..|a + p| - 6] && b == (b + q)[..|b + q| - 6];
    var k: nat :| k < 5 && AllBits(a, 5) == AllBits(d, 8) + NoBits(k);
    var l: nat :| l < 5 && AllBits(b, 5) == AllBits(e, 8) + NoBits(l);
    BytesUnique(d, e, NoBits(k), NoBits(l));
  }

  lemma AllFiveBitConcat(a: Symbols, b: Symbols)
    ensures AllFiveBit(a + b) <==> AllFiveBit(a) && AllFiveBit(b)
  {
    hide FiveBit;
    if AllFiveBit(a + b) {
      assert forall i :: 0 <= i < |a| ==> a[i] == (a + b)[i];
      assert forall i :: 0 <= i < |b| ==> b[i] == (a + b)[|a| + i];
    }
  }

  // Distinct inputs get distinct strings.
  lemma EncodingInjective(h: Symbols, d: Symbols, g: Symbols, e: Symbols, s: Symbols)
    requires Encodes(h, d, s) && Encodes(g, e, s)
    ensures h == g && d == e
  {
    hide Encodes, Decodes;
    DecodesIffEncodes(h, d, s);
    DecodesIffEncodes(g, e, s);
    DecodesUnique(h, d, g, e, s);
  }

  // And a prefix and data have one text only.
  lemma EncodingUnique(hrp: Symbols, data: Symbols, s: Symbols, t: Symbols)
    requires Encodes(hrp, data, s) && Encodes(hrp, data, t)
    ensures s == t
  {
    hide Regrouped, Checksum, Characters;
    var a :| Regrouped(data, 8, 5, true, a) && s == hrp + [SEPARATOR] + Characters(a + Checksum(hrp, a));
    var b :| Regrouped(data, 8, 5, true, b) && t == hrp + [SEPARATOR] + Characters(b + Checksum(hrp, b));
    RegroupedUnique(data, a, b);
  }

  // ---------- mistyped strings ----------

  // Replacing up to six consecutive characters after the separator by other characters of the alphabet
  // gives a string that decodes to nothing.
  lemma TypoDecodesToNothing(hrp: Symbols, data: Symbols, before: Symbols, a: Symbols, after: Symbols, b: Symbols, g: Symbols, e: Symbols)
    requires |a| == |b| <= 6 && a != b && AllFiveBit(before + a + after) && AllFiveBit(b)
    requires Decodes(hrp, data, hrp + [SEPARATOR] + Characters(before + a + after))
    ensures !Decodes(g, e, hrp + [SEPARATOR] + Characters(before + b + after))
  {
    hide AllBits, AllFiveBit, Characters, Fold, HrpExpanded;
    var s := hrp + [SEPARATOR] + Characters(before + a + after);
    var t := hrp + [SEPARATOR] + Characters(before + b + after);
    AllFiveBitConcat(before + a, after);
    AllFiveBitConcat(before, a);
    AllFiveBitConcat(before, b);
    AllFiveBitConcat(before + b, after);
    SymbolsOf(hrp, hrp, data, s, before + a + after);
    if Decodes(g, e, t) {
      SymbolsOf(hrp, g, e, t, before + b + after);
      assert HrpExpanded(hrp) + (before + a + after) == (HrpExpanded(hrp) + before) + a + after;
      assert HrpExpanded(hrp) + (before + b + after) == (HrpExpanded(hrp) + before) + b + after;
      BurstChangesRemainder(HrpExpanded(hrp) + before, a, b, after);
    }
  }

  // The symbols of a decodable string leave remainder 1.
  lemma SymbolsOf(hrp: Symbols, g: Symbols, e: Symbols, s: Symbols, all: Symbols)
    requires AllFiveBit(all) && s == hrp + [SEPARATOR] + Characters(all) && Decodes(g, e, s)
    ensures Fold(1, HrpExpanded(hrp) + all) == 1
  {
    hide AllBits, AllFiveBit, Characters, Fold, HrpExpanded;
    var x, p :| DecodesWith(g, e, s, x, p);
    NoSeparatorInside(all);
    NoSeparatorInside(x + p);
    LastSeparator(hrp, Characters(all), g, Characters(x + p));
    AllFiveBitConcat(x, p);
    CharactersInjective(all, x + p);
    assert HrpExpanded(hrp) + x + p == HrpExpanded(hrp) + all;
  }

  // ---------- the methods ----------

  lemma ByteInTwo(c: bv8)
    ensures InTwo(c, HighBits(c), LowBits(c))
  {
  }

  ghost predicate InTwo(c: bv8, q: bv8, r: bv8) {
    (q as int) < 8 && (r as int) < 32 && 32 * (q as int) + (r as int) == c as int
  }

  // The quotients by 32 of the prefix's bytes, a zero, and the remainders.
  ghost predicate Expansion(hrp: Symbols, ret: Symbols) {
    |ret| == 2 * |hrp| + 1 && ret[|hrp|] == 0 && forall i :: 0 <= i < |hrp| ==> InTwo(hrp[i], ret[i], ret[|hrp| + 1 + i])
  }

  lemma ExpandedIsExpansion(hrp: Symbols)
    ensures Expansion(hrp, HrpExpanded(hrp))
  {
    hide HighBits, LowBits, InTwo;
    var ret := HrpExpanded(hrp);
    forall i | 0 <= i < |hrp|
      ensures InTwo(hrp[i], ret[i], ret[|hrp| + 1 + i])
    {
      ByteInTwo(hrp[i]);
    }
  }

  // Nothing else is.
  lemma ExpansionUnique(hrp: Symbols, a: Symbols, b: Symbols)
    requires Expansion(hrp, a) && Expansion(hrp, b)
    ensures a == b
  {
    hide InTwo;
    var n := |hrp|;
    forall i | 0 <= i < n
      ensures a[..n][i] == b[..n][i]
    {
      InTwoUnique(hrp[i], a[i], a[n + 1 + i], b[i], b[n + 1 + i]);
    }
    var x, y := a[n + 1..], b[n + 1..];
    forall i | 0 <= i < n
      ensures x[i] == y[i]
    {
      InTwoUnique(hrp[i], a[i], a[n + 1 + i], b[i], b[n + 1 + i]);
    }
    assert a == a[..n] + [0] + x && b == b[..n] + [0] + y;
    assert a[..n] == b[..n] && x == y;
  }

  lemma InTwoUnique(c: bv8, q: bv8, r: bv8, q': bv8, r': bv8)
    requires InTwo(c, q, r) && InTwo(c, q', r')
    ensures q == q' && r == r'
  {
    assert q as int == q' as int && r as int == r' as int;
    assert (q as int) as bv8 == q && (q' as int) as bv8 == q' && (r as int) as bv8 == r && (r' as int) as bv8 == r';
  }

  method HrpExpand(hrp: Symbols) returns (ret: Symbols)
    ensures ret == HrpExpanded(hrp)
    ensures Expansion(hrp, ret)
  {
    hide HighBits, LowBits;
    ret := [];
    for i := 0 to |hrp|
      invariant |ret| == i && forall j :: 0 <= j < i ==> ret[j] == HighBits(hrp[j])
    {
      ret := ret + [HighBits(hrp[i])];
    }
    ret := ret + [0];
    ghost var high := ret;
    for i := 0 to |hrp|
      invariant |ret| == |hrp| + 1 + i && ret[..|hrp| + 1] == high
      invariant forall j :: 0 <= j < i ==> ret[|hrp| + 1 + j] == LowBits(hrp[j])
    {
      ret := ret + [LowBits(hrp[i])];
    }
    assert ret == high + ret[|hrp| + 1..];
    ExpandedIsExpansion(hrp);
  }

  // mod>>(5*(5-i))
  function FromDigit(mod: bv32, i: nat): bv32
    requires i < 6
  {
    match i
    case 0 => mod >> 25
    case 1 => mod >> 20
    case 2 => mod >> 15
    case 3 => mod >> 10
    case 4 => mod >> 5
    case 5 => mod
  }

  lemma DigitAtIs(mod: bv32, i: nat)
    requires i < 6
    ensures Digit(FromDigit(mod, i)) == Digits(mod)[i]
  {
    hide Digit;
  }

  method ComputeChecksum(hrp: Symbols, data: Symbols) returns (ret: Symbols)
    ensures ret == Checksum(hrp, data)
  {
    hide Digit, FromDigit, Digits, Fold, HrpExpanded, Xor;
    var values := HrpExpand(hrp);
    values := values + data;
    values := values + [0, 0, 0, 0, 0, 0];
    assert [0, 0, 0, 0, 0, 0] == Zeros(6);
    var remainder := Polymod(values);
    var mod := Xor(remainder, 1);
    ret := [];
    for i := 0 to 6
      invariant |ret| == i && ret == Digits(mod)[..i]
    {
      DigitAtIs(mod, i);
      ret := ret + [Digit(FromDigit(mod, i))];
    }
  }

  // The prefix with capitals made small, then the digit one.
  ghost predicate StartsLowered(hrp: Symbols, out: Symbols) {
    |out| > |hrp| && out[|hrp|] as int == '1' as int && forall i :: 0 <= i < |hrp| ==> IsLowered(hrp[i], out[i])
  }

  ghost predicate IsLowered(c: bv8, r: bv8) {
    r as int == if 'A' as int <= c as int <= 'Z' as int then c as int + 32 else c as int
  }

  lemma LowerIsLowered(c: bv8)
    ensures IsLowered(c, Lower(c))
  {
  }

  method Encode(hrp: Symbols, data: Symbols) returns (out: Symbols)
    ensures Encodes(ToLower(hrp), data, out)
    ensures |out| == |hrp| + 1 + (8 * |data| + 4) / 5 + 6 && StartsLowered(hrp, out)
  {
    hide Character, Checksum, Regrouped, AllNarrow;
    BytesAreNarrow(data);
    var values := ConvertBits(data, 8, 5, true);
    var low := ToLower(hrp);
    var sum := ComputeChecksum(low, values);
    out := low;
    out := out + [SEPARATOR];
    for i := 0 to |values|
      invariant out == low + [SEPARATOR] + Characters(values[..i])
    {
      out := out + [Character(values[i])];
      assert Characters(values[..i + 1]) == Characters(values[..i]) + [Character(values[i])];
    }
    assert values[..|values|] == values;
    for i := 0 to |sum|
      invariant out == low + [SEPARATOR] + Characters(values) + Characters(sum[..i])
    {
      out := out + [Character(sum[i])];
      assert Characters(sum[..i + 1]) == Characters(sum[..i]) + [Character(sum[i])];
    }
    assert sum[..|sum|] == sum;
    assert out == low + [SEPARATOR] + Characters(values + sum);
    Regrouped8To5Length(data, values);
    forall i | 0 <= i < |hrp|
      ensures IsLowered(hrp[i], out[i])
    {
      LowerIsLowered(hrp[i]);
    }
  }

  // "age-secret-key-"
  const AGE_PREFIX: Symbols := [0x61, 0x67, 0x65, 0x2d, 0x73, 0x65, 0x63, 0x72, 0x65, 0x74, 0x2d, 0x6b, 0x65, 0x79, 0x2d]

  // The key is written in capitals; lowering it gives back the encoding of the scalar.
  method EncodeAgeSecretKey(scalar: Symbols) returns (key: Symbols)
    ensures Encodes(AGE_PREFIX, scalar, ToLower(key))
    ensures |key| >= 16 && Spells(key[..16], "AGE-SECRET-KEY-1")
    ensures forall i :: 0 <= i < |key| ==> !('a' as int <= key[i] as int <= 'z' as int)
  {
    hide Encodes, Character;
    var encoded := Encode(AGE_PREFIX, scalar);
    key := ToUpper(encoded);
    PrefixIsLower();
    EncodingIsLower(AGE_PREFIX, scalar, encoded);
    LowerUpper(encoded);
    forall i | 0 <= i < |key|
      ensures !('a' as int <= key[i] as int <= 'z' as int)
    {
      UpperIsNotSmall(encoded[i]);
    }
    assert encoded[..16] == AGE_PREFIX + [SEPARATOR] by { EncodesPrefix(AGE_PREFIX, scalar, encoded); }
    assert key[..16] == ToUpper(AGE_PREFIX + [SEPARATOR]);
    KeyPrefix();
  }

  lemma EncodesPrefix(hrp: Symbols, data: Symbols, s: Symbols)
    requires Encodes(hrp, data, s)
    ensures |s| > |hrp| && s[..|hrp| + 1] == hrp + [SEPARATOR]
  {
    hide Regrouped, Checksum, Characters;
  }

  lemma UpperIsNotSmall(c: bv8)
    ensures !('a' as int <= Upper(c) as int <= 'z' as int)
  {
  }

  // The bytes are the characters of the text.
  ghost predicate Spells(b: Symbols, text: string) {
    |b| == |text| && forall i :: 0 <= i < |b| ==> b[i] as int == text[i] as int
  }

  const KEY_START: Symbols := [0x41, 0x47, 0x45, 0x2d, 0x53, 0x45, 0x43, 0x52, 0x45, 0x54, 0x2d, 0x4b, 0x45, 0x59, 0x2d, 0x31]

  lemma KeyPrefix()
    ensures Spells(ToUpper(AGE_PREFIX + [SEPARATOR]), "AGE-SECRET-KEY-1")
  {
    hide Upper, Spells;
    UpperOfPrefix();
    KeyStartSpells();
    assert ToUpper(AGE_PREFIX + [SEPARATOR]) == KEY_START;
  }

  lemma UpperOfPrefix()
    ensures forall i :: 0 <= i < 16 ==> Upper((AGE_PREFIX + [SEPARATOR])[i]) == KEY_START[i]
  {
    hide Upper;
    UpperSmall();
    assert (AGE_PREFIX + [SEPARATOR])[15] == SEPARATOR;
    assert forall i :: 0 <= i < 15 ==> (AGE_PREFIX + [SEPARATOR])[i] == AGE_PREFIX[i];
    assert forall i :: 0 <= i < 8 ==> Upper(AGE_PREFIX[i]) == KEY_START[i];
    assert forall i :: 8 <= i < 15 ==> Upper(AGE_PREFIX[i]) == KEY_START[i];
  }

  lemma UpperSmall()
    ensures Upper(0x61) == 0x41 && Upper(0x63) == 0x43 && Upper(0x65) == 0x45 && Upper(0x67) == 0x47 && Upper(0x6b) == 0x4b && Upper(0x72) == 0x52
    ensures Upper(0x73) == 0x53 && Upper(0x74) == 0x54 && Upper(0x79) == 0x59 && Upper(0x2d) == 0x2d && Upper(0x31) == 0x31
  {
  }

  lemma KeyStartSpells()
    ensures Spells(KEY_START, "AGE-SECRET-KEY-1")
  {
    hide Spells;
    AgeSpells();
    KeySpells();
    SpellsConcat([0x41, 0x47, 0x45, 0x2d, 0x53, 0x45, 0x43, 0x52], "AGE-SECR", [0x45, 0x54, 0x2d, 0x4b, 0x45, 0x59, 0x2d, 0x31], "ET-KEY-1");
    assert KEY_START == [0x41, 0x47, 0x45, 0x2d, 0x53, 0x45, 0x43, 0x52] + [0x45, 0x54, 0x2d, 0x4b, 0x45, 0x59, 0x2d, 0x31];
    assert "AGE-SECRET-KEY-1" == "AGE-SECR" + "ET-KEY-1";
  }

  lemma AgeSpells()
    ensures Spells([0x41, 0x47, 0x45, 0x2d, 0x53, 0x45, 0x43, 0x52], "AGE-SECR")
  {
  }

  lemma KeySpells()
    ensures Spells([0x45, 0x54, 0x2d, 0x4b, 0x45, 0x59, 0x2d, 0x31], "ET-KEY-1")
  {
  }

  lemma SpellsConcat(a: Symbols, s: string, b: Symbols, t: string)
    requires Spells(a, s) && Spells(b, t)
    ensures Spells(a + b, s + t)
  {
  }

  lemma PrefixIsLower()
    ensures ToLower(AGE_PREFIX) == AGE_PREFIX
  {
  }

  lemma EncodingIsLower(hrp: Symbols, data: Symbols, s: Symbols)
    requires Encodes(hrp, data, s) && ToLower(hrp) == hrp
    ensures ToLower(s) == s
  {
    hide Character, Lower, Regrouped, Checksum;
    var values :| Regrouped(data, 8, 5, true, values) && s == hrp + [SEPARATOR] + Characters(values + Checksum(hrp, values));
    var all := values + Checksum(hrp, values);
    forall i | 0 <= i < |s|
      ensures Lower(s[i]) == s[i]
    {
      if i < |hrp| {
        assert Lower(hrp[i]) == ToLower(hrp)[i];
      } else if i == |hrp| {
        SeparatorIsLower();
      } else {
        CharacterIsLowerAndNoSeparator(all[i - |hrp| - 1]);
      }
    }
  }

  lemma SeparatorIsLower()
    ensures Lower(SEPARATOR) == SEPARATOR
  {
  }

  lemma LowerUpperByte(c: bv8)
    requires Lower(c) == c
    ensures Lower(Upper(c)) == c
  {
  }

  lemma LowerUpper(s: Symbols)
    requires ToLower(s) == s
    ensures ToLower(ToUpper(s)) == s
  {
    hide Lower, Upper;
    forall i | 0 <= i < |s|
      ensures Lower(Upper(s[i])) == s[i]
    {
      assert ToLower(s)[i] == Lower(s[i]);
      LowerUpperByte(s[i]);
    }
  }

  // ---------- two texts of BIP 173 ----------

  lemma AlphabetIs(v: bv8)
    requires v < 32
    ensures Character(v) as int == ("qpzry9x8" + "gf2tvdw0" + "s3jn54kh" + "ce6mua7l")[v as int] as int
  {
    if v < 16 { AlphabetLow(v); } else { AlphabetHigh(v); }
  }

  lemma AlphabetLow(v: bv8)
    requires v < 16
    ensures Character(v) as int == ("qpzry9x8" + "gf2tvdw0")[v as int] as int
  {
    if v == 0 {} else if v == 1 {} else if v == 2 {} else if v == 3 {} else if v == 4 {} else if v == 5 {} else if v == 6 {} else if v == 7 {}
    else if v == 8 {} else if v == 9 {} else if v == 10 {} else if v == 11 {} else if v == 12 {} else if v == 13 {} else if v == 14 {} else {}
  }

  lemma AlphabetHigh(v: bv8)
    requires 16 <= v < 32
    ensures Character(v) as int == ("s3jn54kh" + "ce6mua7l")[v as int - 16] as int
  {
    if v == 16 {} else if v == 17 {} else if v == 18 {} else if v == 19 {} else if v == 20 {} else if v == 21 {} else if v == 22 {} else if v == 23 {}
    else if v == 24 {} else if v == 25 {} else if v == 26 {} else if v == 27 {} else if v == 28 {} else if v == 29 {} else if v == 30 {} else {}
  }

  // The symbols of "a", a zero symbol and those of "2uel5l".
  lemma AFolds()
    ensures Fold(1, [3, 0, 1, 10, 28, 25, 31, 20, 31]) == 1
  {
    hide Step;
    AStepsOne();
    AStepsTwo();
    FoldHead(0x1, 3, [0, 1, 10, 28, 25, 31, 20, 31]);
    FoldHead(0x23, 0, [1, 10, 28, 25, 31, 20, 31]);
    FoldHead(0x460, 1, [10, 28, 25, 31, 20, 31]);
    FoldHead(0x8c01, 10, [28, 25, 31, 20, 31]);
    FoldHead(0x11802a, 28, [25, 31, 20, 31]);
    FoldHead(0x230055c, 25, [31, 20, 31]);
    FoldHead(0x3d6afc2b, 31, [20, 31]);
    FoldHead(0x2f84386, 20, [31]);
    FoldOne(0x24622766, 31);
  }

  lemma AStepsOne()
    ensures Step(0x1, 3) == 0x23 && Step(0x23, 0) == 0x460 && Step(0x460, 1) == 0x8c01 && Step(0x8c01, 10) == 0x11802a && Step(0x11802a, 28) == 0x230055c
  {
    SelectedIs(0x1 >> 25);
    SelectedIs(0x23 >> 25);
    SelectedIs(0x460 >> 25);
    SelectedIs(0x8c01 >> 25);
    SelectedIs(0x11802a >> 25);
  }

  lemma AStepsTwo()
    ensures Step(0x230055c, 25) == 0x3d6afc2b && Step(0x3d6afc2b, 31) == 0x2f84386 && Step(0x2f84386, 20) == 0x24622766 && Step(0x24622766, 31) == 0x1
  {
    SelectedIs(0x230055c >> 25);
    SelectedIs(0x3d6afc2b >> 25);
    SelectedIs(0x2f84386 >> 25);
    SelectedIs(0x24622766 >> 25);
  }

  lemma FoldHead(chk: bv32, v: bv8, rest: Symbols)
    ensures Fold(chk, [v] + rest) == Fold(Step(chk, v), rest)
  {
    hide Step;
    FoldAppend(chk, [v], rest);
    FoldOne(chk, v);
  }

  lemma AExpands()
    ensures HrpExpanded([0x61]) == [3, 0, 1]
  {
    assert HighBits(0x61) == 3 && LowBits(0x61) == 1;
  }

  lemma ACharacters()
    ensures Characters([10, 28, 25, 31, 20, 31]) == [0x32, 0x75, 0x65, 0x6c, 0x35, 0x6c]
  {
  }

  lemma NoDataRegrouped()
    ensures Regrouped([], 8, 5, true, [])
  {
    assert AllBits([], 5) == AllBits([], 8) + NoBits(0);
  }

  lemma AChecksum()
    ensures Checksum([0x61], []) == [10, 28, 25, 31, 20, 31]
  {
    hide Fold, HrpExpanded, Checksum;
    AExpands();
    AFolds();
    var sum: Symbols := [10, 28, 25, 31, 20, 31];
    assert [3, 0, 1] + [] + sum == [3, 0, 1, 10, 28, 25, 31, 20, 31];
    ChecksumIsTheOneThatVerifies([0x61], [], sum);
  }

  const A_TEXT: Symbols := [0x61] + [SEPARATOR] + [0x32, 0x75, 0x65, 0x6c, 0x35, 0x6c]

  lemma AEncodes(values: Symbols)
    requires values == []
    ensures Encodes([0x61], [], A_TEXT)
  {
    hide Characters, Regrouped, Checksum;
    NoDataRegrouped();
    AChecksum();
    ACharacters();
    assert values + Checksum([0x61], values) == Checksum([0x61], values);
    assert Regrouped([], 8, 5, true, values);
  }

  lemma ATextSpells()
    ensures Spells(A_TEXT, "a12uel5l")
  {
    assert A_TEXT == [0x61, 0x31, 0x32, 0x75, 0x65, 0x6c, 0x35, 0x6c];
  }

  // The prefix "a" and no data are written "a12uel5l", the first valid text of BIP 173.
  lemma FirstValidText(s: Symbols)
    requires Encodes([0x61], [], s)
    ensures Spells(s, "a12uel5l")
  {
    hide Encodes, Spells, A_TEXT;
    AEncodes([]);
    EncodingUnique([0x61], [], s, A_TEXT);
    ATextSpells();
  }
}
