// UUID version 7 identifiers (internal/id/id.go, lines 13-63): their order, their layout by section 5.7 of RFC 9562, and what Parse accepts.
// The clock and the random tail are parameters; byte(x >> 8k) is written (x / 256^k) % 256.
module Uuid7 {
  import opened GoText
  import opened SharedTypes

  type byte = x: int | 0 <= x < 256

  // ---------- text ----------

  function Digit(n: int): char
    requires 0 <= n < 16
  {
    "0123456789abcdef"[n]
  }

  // hex.EncodeToString
  function Hex(b: seq<byte>): (h: string)
    ensures |h| == 2 * |b|
  {
    seq(2 * |b|, i requires 0 <= i < 2 * |b| => Digit(if i % 2 == 0 then b[i / 2] / 16 else b[i / 2] % 16))
  }

  function Dashed(h: string): (s: string)
    requires |h| == 32
    ensures |s| == 36
  {
    h[0..8] + "-" + h[8..12] + "-" + h[12..16] + "-" + h[16..20] + "-" + h[20..32]
  }

  function Format(b: seq<byte>): (s: string)
    requires |b| == 16
    ensures |s| == 36
  {
    Dashed(Hex(b))
  }

  predicate IsDash(i: int) { i == 8 || i == 13 || i == 18 || i == 23 }

  // The place in the hexadecimal digits of the character at i.
  function DigitPlace(i: nat): int {
    if i < 8 then i else if i < 13 then i - 1 else if i < 18 then i - 2 else if i < 23 then i - 3 else i - 4
  }

  lemma DashedAt(h: string, i: nat)
    requires |h| == 32 && i < 36
    ensures Dashed(h)[i] == if IsDash(i) then '-' else h[DigitPlace(i)]
  {
  }

  // Go's order on strings.
  ghost predicate Less(a: string, b: string) {
    exists k :: LessFrom(a, b, k)
  }

  ghost predicate LessFrom(a: string, b: string, k: int) {
    0 <= k <= |a| && k < |b| && a[..k] == b[..k] && (k == |a| || a[k] < b[k])
  }

  lemma LessAsymmetric(a: string, b: string)
    requires Less(a, b)
    ensures !Less(b, a)
  {
    var k :| LessFrom(a, b, k);
    forall l
      ensures !LessFrom(b, a, l)
    {
      PrefixAt(a, k, l);
      PrefixAt(b, k, l);
      PrefixAt(a, l, k);
      PrefixAt(b, l, k);
    }
  }

  lemma PrefixAt(a: string, n: int, i: int)
    ensures 0 <= i < n <= |a| ==> a[..n][i] == a[i]
  {
  }

  // ---------- numbers and their bytes ----------

  // The big-endian value.
  function Number(b: seq<byte>): nat {
    if b == [] then 0 else 256 * Number(b[..|b| - 1]) + b[|b| - 1]
  }

  // The first byte in which two lists differ decides the order of their values, and the other way round.
  lemma {:induction false} FirstDifference(a: seq<byte>, b: seq<byte>) returns (k: nat)
    requires |a| == |b| && Number(a) < Number(b)
    ensures k < |a| && a[..k] == b[..k] && a[k] < b[k]
  {
    var n := |a| - 1;
    if Number(a[..n]) < Number(b[..n]) {
      k := FirstDifference(a[..n], b[..n]);
      assert a[..k] == a[..n][..k] && b[..k] == b[..n][..k];
    } else {
      k := n;
      NumberInjective(a[..n], b[..n]);
    }
  }

  lemma {:induction false} NumberInjective(a: seq<byte>, b: seq<byte>)
    requires |a| == |b| && Number(a) == Number(b)
    ensures a == b
  {
    if a != [] {
      var n := |a| - 1;
      NumberInjective(a[..n], b[..n]);
      assert a == a[..n] + [a[n]] && b == b[..n] + [b[n]];
    }
  }

  lemma HexAt(b: seq<byte>, i: nat)
    requires i < |b|
    ensures Hex(b)[2 * i] == Digit(b[i] / 16) && Hex(b)[2 * i + 1] == Digit(b[i] % 16)
  {
    assert (2 * i) / 2 == i && (2 * i + 1) / 2 == i;
  }

  lemma DigitsOrdered(m: int, n: int)
    requires 0 <= m < 16 && 0 <= n < 16
    ensures m < n ==> Digit(m) < Digit(n)
  {
  }

  lemma HexLess(a: seq<byte>, b: seq<byte>, k: nat) returns (d: nat)
    requires |a| == |b| && k < |a| && a[..k] == b[..k] && a[k] < b[k]
    ensures d < 2 * |a| && Hex(a)[..d] == Hex(b)[..d] && Hex(a)[d] < Hex(b)[d]
  {
    hide Hex, Digit;
    d := if a[k] / 16 < b[k] / 16 then 2 * k else 2 * k + 1;
    forall i | 0 <= i < d
      ensures Hex(a)[i] == Hex(b)[i]
    {
      HexAt(a, i / 2);
      HexAt(b, i / 2);
      assert i / 2 < k ==> a[i / 2] == a[..k][i / 2] && b[i / 2] == b[..k][i / 2];
    }
    HexAt(a, k);
    HexAt(b, k);
    DigitsOrdered(a[k] / 16, b[k] / 16);
    DigitsOrdered(a[k] % 16, b[k] % 16);
  }

  lemma DashedLess(g: string, h: string, d: nat)
    requires |g| == |h| == 32 && d < 32 && g[..d] == h[..d] && g[d] < h[d]
    ensures Less(Dashed(g), Dashed(h))
  {
    hide Dashed;
    var p := if d < 8 then d else if d < 12 then d + 1 else if d < 16 then d + 2 else if d < 20 then d + 3 else d + 4;
    assert DigitPlace(p) == d && !IsDash(p);
    forall i | 0 <= i < p
      ensures Dashed(g)[i] == Dashed(h)[i]
    {
      DashedAt(g, i);
      DashedAt(h, i);
      PrefixAt(g, d, DigitPlace(i));
      PrefixAt(h, d, DigitPlace(i));
    }
    DashedAt(g, p);
    DashedAt(h, p);
    assert LessFrom(Dashed(g), Dashed(h), p);
  }

  // Formatting keeps the order of the bytes.
  lemma FormatLess(a: seq<byte>, b: seq<byte>, k: nat)
    requires |a| == |b| == 16 && k < 16 && a[..k] == b[..k] && a[k] < b[k]
    ensures Less(Format(a), Format(b))
  {
    var d := HexLess(a, b, k);
    DashedLess(Hex(a), Hex(b), d);
  }

  // ---------- identifiers ----------

  const MS_LIMIT := 0x1_0000_0000_0000

  function Stamp(ms: nat, s: nat): (b: seq<byte>)
    ensures |b| == 8
  {
    [ms / 0x100_0000_0000 % 256, ms / 0x1_0000_0000 % 256, ms / 0x100_0000 % 256, ms / 0x1_0000 % 256, ms / 0x100 % 256, ms % 256,
     0x70 + s / 256 % 16, s % 256]
  }

  function Tail(random: seq<byte>): (b: seq<byte>)
    requires |random| == 8
    ensures |b| == 8
  {
    random[0 := 0x80 + random[0] % 64]
  }

  function Id(ms: nat, s: nat, random: seq<byte>): (id: string)
    requires |random| == 8
    ensures |id| == 36
  {
    Format(Stamp(ms, s) + Tail(random))
  }

  // The state behind New: the last millisecond and the 16-bit counter within it.
  class Generator {
    var last: nat
    var counter: nat

    predicate Valid()
      reads this
    {
      counter < 0x1_0000
    }

    constructor ()
      ensures Valid() && last == 0 && counter == 0
    {
      last, counter := 0, 0;
    }

    method New(ms: nat, random: seq<byte>) returns (id: string)
      requires Valid() && |random| == 8
      modifies this
      ensures Valid() && last == ms && counter == Counter(old(last), old(counter), ms)
      ensures id == Id(ms, counter, random)
    {
      if ms == last {
        counter := (counter + 1) % 0x1_0000;
      } else {
        last := ms;
        counter := 0;
      }
      var b := Bytes(ms, counter, random);
      id := Format(b[..]);
    }
  }

  method Bytes(ms: nat, s: nat, random: seq<byte>) returns (b: array<byte>)
    requires |random| == 8
    ensures fresh(b) && b.Length == 16 && b[..] == Stamp(ms, s) + Tail(random)
  {
    b := new byte[16](_ => 0);
    WriteStamp(b, ms, s);
    for i := 8 to 16
      invariant b[..8] == Stamp(ms, s) && b[8..i] == random[..i - 8]
    {
      b[i] := random[i - 8];
    }
    assert b[8..16] == random;
    assert b[8] == random[0];
    b[8] := b[8] % 64 + 0x80;
    assert b[..] == b[..8] + b[8..16];
  }

  method WriteStamp(b: array<byte>, ms: nat, s: nat)
    requires b.Length == 16
    modifies b
    ensures b[..8] == Stamp(ms, s)
  {
    b[0] := ms / 0x100_0000_0000 % 256;
    b[1] := ms / 0x1_0000_0000 % 256;
    b[2] := ms / 0x100_0000 % 256;
    b[3] := ms / 0x1_0000 % 256;
    b[4] := ms / 0x100 % 256;
    b[5] := ms % 256;
    b[6] := 0x70 + s / 256 % 16;
    b[7] := s % 256;
  }

  function Counter(last: nat, s: nat, ms: nat): nat {
    if ms == last then (s + 1) % 0x1_0000 else 0
  }

  lemma StampValue(ms: nat, s: nat)
    requires ms < MS_LIMIT
    ensures Number(Stamp(ms, s)) == ms * 0x1_0000 + 0x7000 + s % 0x1000
  {
    var b := Stamp(ms, s);
    EightBytes(b);
    MsDigits(ms);
    CounterDigits(s);
  }

  lemma NumberAppend(b: seq<byte>, x: byte)
    ensures Number(b + [x]) == 256 * Number(b) + x
  {
    assert (b + [x])[..|b|] == b;
  }

  lemma EightBytes(b: seq<byte>)
    requires |b| == 8
    ensures Number(b) ==
      256 * (256 * (256 * (256 * (256 * (256 * (256 * (b[0] as int) + b[1]) + b[2]) + b[3]) + b[4]) + b[5]) + b[6]) + b[7]
  {
    hide Number;
    FourMore(b, 0);
    FourMore(b, 4);
    NumberOfNone(b);
    assert b[..8] == b;
  }

  lemma FourMore(b: seq<byte>, k: nat)
    requires k + 4 <= |b|
    ensures Number(b[..k + 4]) == 256 * (256 * (256 * (256 * Number(b[..k]) + b[k]) + b[k + 1]) + b[k + 2]) + b[k + 3]
  {
    hide Number;
    NumberStep(b, k + 1);
    NumberStep(b, k + 2);
    NumberStep(b, k + 3);
    NumberStep(b, k + 4);
  }

  lemma NumberOfNone(b: seq<byte>)
    ensures Number(b[..0]) == 0
  {
  }

  lemma NumberStep(b: seq<byte>, k: nat)
    requires 0 < k <= |b|
    ensures Number(b[..k]) == 256 * Number(b[..k - 1]) + b[k - 1]
  {
    NumberAppend(b[..k - 1], b[k - 1]);
    assert b[..k] == b[..k - 1] + [b[k - 1]];
  }

  lemma MsDigits(ms: nat)
    requires ms < MS_LIMIT
    ensures ms == ((((ms / 0x100_0000_0000 % 256 * 256 + ms / 0x1_0000_0000 % 256) * 256 + ms / 0x100_0000 % 256) * 256 + ms / 0x1_0000 % 256) * 256
                   + ms / 0x100 % 256) * 256 + ms % 256
  {
    NextDigit(ms, 1);
    NextDigit(ms, 0x100);
    NextDigit(ms, 0x1_0000);
    NextDigit(ms, 0x100_0000);
    NextDigit(ms, 0x1_0000_0000);
  }

  lemma NextDigit(x: nat, d: nat)
    requires d > 0
    ensures x / d == x / (d * 256) * 256 + x / d % 256
  {
    var q, r := x / d, x % d;
    var a, b := q / 256, q % 256;
    assert q == 256 * a + b;
    Distributes(d, a, b);
    MulGrows(d, 255 - b);
    assert x == d * q + r;
    Quotient(x, d * 256, a, d * b + r);
  }

  lemma Distributes(d: int, a: int, b: int)
    ensures d * (256 * a + b) == d * 256 * a + d * b
    ensures d * (255 - b) == d * 255 - d * b
  {
  }

  lemma MulGrows(m: int, e: int)
    requires m >= 0
    ensures e >= 0 ==> m * e >= 0
    ensures e >= 1 ==> m * e >= m
    ensures e <= -1 ==> m * e <= -m
  {
  }

  lemma Quotient(x: nat, m: nat, a: nat, r: nat)
    requires x == m * a + r && r < m
    ensures x / m == a
  {
    var e := x / m - a;
    assert x == m * (x / m) + x % m;
    assert m * e == m * (x / m) - m * a;
    MulGrows(m, e);
  }

  lemma CounterDigits(s: nat)
    ensures s / 256 % 16 * 256 + s % 256 == s % 0x1000
  {
  }

  // What orders two identifiers: the millisecond, then the twelve low bits of the counter.
  function Key(ms: nat, s: nat): nat { ms * 0x1000 + s % 0x1000 }

  // Whatever the random tails, identifiers are ordered as their keys.
  lemma IdLess(ms: nat, s: nat, random: seq<byte>, ms': nat, s': nat, random': seq<byte>)
    requires ms < MS_LIMIT && ms' < MS_LIMIT && |random| == |random'| == 8 && Key(ms, s) < Key(ms', s')
    ensures Less(Id(ms, s, random), Id(ms', s', random'))
  {
    hide Number, Stamp, Tail, Format;
    StampValue(ms, s);
    StampValue(ms', s');
    var a, b := Stamp(ms, s), Stamp(ms', s');
    var k := FirstDifference(a, b);
    assert (a + Tail(random))[..k] == a[..k] && (b + Tail(random'))[..k] == b[..k];
    FormatLess(a + Tail(random), b + Tail(random'), k);
  }

  // Two calls in a row, on a clock that does not go back: the second identifier is greater exactly when the clock has moved on
  // or the counter's low bits do not wrap.
  lemma NextIsGreaterIff(ms: nat, s: nat, random: seq<byte>, ms': nat, random': seq<byte>)
    requires ms <= ms' < MS_LIMIT && s < 0x1_0000 && |random| == |random'| == 8
    ensures Less(Id(ms, s, random), Id(ms', Counter(ms, s, ms'), random')) <==> ms < ms' || s % 0x1000 != 0xfff
  {
    hide Id, Less;
    var s' := Counter(ms, s, ms');
    if ms < ms' || s % 0x1000 != 0xfff {
      IdLess(ms, s, random, ms', s', random');
    } else {
      IdLess(ms', s', random', ms, s, random);
      LessAsymmetric(Id(ms', s', random'), Id(ms, s, random));
    }
  }

  // ---------- a run of calls ----------

  ghost predicate Clock(ts: seq<nat>) {
    (forall i :: 0 <= i < |ts| ==> 0 < ts[i] < MS_LIMIT) && forall i, j :: 0 <= i < j < |ts| ==> ts[i] <= ts[j]
  }

  // How many of the calls just before the i-th were made in the same millisecond.
  function Earlier(ts: seq<nat>, i: nat): (n: nat)
    requires i < |ts|
    ensures n <= i
  {
    if i > 0 && ts[i - 1] == ts[i] then Earlier(ts, i - 1) + 1 else 0
  }

  // The counter New uses in the i-th call, from the state of a new process.
  function CounterAt(ts: seq<nat>, i: nat): nat
    requires i < |ts|
  {
    if i == 0 then Counter(0, 0, ts[0]) else Counter(ts[i - 1], CounterAt(ts, i - 1), ts[i])
  }

  function IdAt(ts: seq<nat>, random: nat -> seq<byte>, i: nat): string
    requires i < |ts| && |random(i)| == 8
  {
    Id(ts[i], CounterAt(ts, i), random(i))
  }

  lemma {:induction false} CounterIsEarlier(ts: seq<nat>, i: nat)
    requires Clock(ts) && i < |ts|
    ensures CounterAt(ts, i) == Earlier(ts, i) % 0x1_0000
  {
    if i > 0 {
      CounterIsEarlier(ts, i - 1);
    }
  }

  lemma NextKey(ts: seq<nat>, j: nat)
    requires Clock(ts) && 0 < j < |ts| && Earlier(ts, j) < 0x1000
    ensures Key(ts[j - 1], CounterAt(ts, j - 1)) < Key(ts[j], CounterAt(ts, j))
  {
    hide CounterAt;
    CounterIsEarlier(ts, j - 1);
    CounterIsEarlier(ts, j);
    assert ts[j - 1] <= ts[j];
  }

  lemma {:induction false} KeysGrow(ts: seq<nat>, i: nat, j: nat)
    requires Clock(ts) && i < j < |ts| && forall k :: 0 <= k < |ts| ==> Earlier(ts, k) < 0x1000
    ensures Key(ts[i], CounterAt(ts, i)) < Key(ts[j], CounterAt(ts, j))
    decreases j
  {
    hide Key, CounterAt, Clock;
    NextKey(ts, j);
    if i < j - 1 {
      KeysGrow(ts, i, j - 1);
    }
  }

  // If one millisecond sees more than 4096 calls, then some call is the one just after the 4096th.
  lemma {:induction false} AtTheWrap(ts: seq<nat>, i: nat) returns (k: nat)
    requires i < |ts| && Earlier(ts, i) >= 0x1000
    ensures 0 < k < |ts| && ts[k - 1] == ts[k] && Earlier(ts, k) == 0x1000 && Earlier(ts, k - 1) == 0xfff
  {
    if Earlier(ts, i) == 0x1000 {
      k := i;
    } else {
      k := AtTheWrap(ts, i - 1);
    }
  }

  // Over any run on a clock that does not go back, every identifier is greater than all before it, whatever the random tails,
  // exactly when no millisecond sees more than 4096 calls.
  lemma IncreasingIff(ts: seq<nat>, random: nat -> seq<byte>)
    requires Clock(ts) && forall i :: |random(i)| == 8
    ensures (forall i, j :: 0 <= i < j < |ts| ==> Less(IdAt(ts, random, i), IdAt(ts, random, j))) <==>
            (forall i :: 0 <= i < |ts| ==> Earlier(ts, i) < 0x1000)
  {
    hide Id, Less, Key;
    if forall i :: 0 <= i < |ts| ==> Earlier(ts, i) < 0x1000 {
      forall i, j | 0 <= i < j < |ts|
        ensures Less(IdAt(ts, random, i), IdAt(ts, random, j))
      {
        KeysGrow(ts, i, j);
        IdLess(ts[i], CounterAt(ts, i), random(i), ts[j], CounterAt(ts, j), random(j));
      }
    } else {
      var i :| 0 <= i < |ts| && Earlier(ts, i) >= 0x1000;
      var k := AtTheWrap(ts, i);
      CounterIsEarlier(ts, k - 1);
      NextIsGreaterIff(ts[k - 1], CounterAt(ts, k - 1), random(k - 1), ts[k], random(k));
      assert !Less(IdAt(ts, random, k - 1), IdAt(ts, random, k));
    }
  }

  // ---------- Parse ----------

  predicate IsHex(c: char) { '0' <= c <= '9' || 'a' <= c <= 'f' || 'A' <= c <= 'F' }

  // strings.ReplaceAll(s, "-", "")
  function WithoutDashes(s: string): string {
    if s == "" then "" else (if s[0] == '-' then "" else [s[0]]) + WithoutDashes(s[1..])
  }

  // hex.DecodeString succeeds.
  predicate Decodes(h: string) { |h| % 2 == 0 && forall c :: c in h ==> IsHex(c) }

  function Parse(s: string): Option<string> {
    var t := ToLower(TrimSpace(s));
    if |t| != 36 then None
    else if t[8] != '-' || t[13] != '-' || t[18] != '-' || t[23] != '-' then None
    else if !Decodes(WithoutDashes(t)) then None
    else Some(t)
  }

  function Dashes(s: string): nat { if s == "" then 0 else (if s[0] == '-' then 1 else 0) + Dashes(s[1..]) }

  predicate HexOrDash(s: string) { forall c :: c in s ==> IsHex(c) || c == '-' }

  // 32 lower-case hexadecimal digits in five groups.
  predicate IsUuid(s: string) {
    |s| == 36 && forall i :: 0 <= i < 36 ==> if IsDash(i) then s[i] == '-' else '0' <= s[i] <= '9' || 'a' <= s[i] <= 'f'
  }

  lemma {:induction false} DashesRemoved(s: string)
    ensures |WithoutDashes(s)| + Dashes(s) == |s|
    ensures forall c :: c in WithoutDashes(s) <==> c in s && c != '-'
  {
    if s != "" {
      DashesRemoved(s[1..]);
      assert s == [s[0]] + s[1..];
    }
  }

  // Exactly what is accepted: after trimming and lowering, 36 characters with the four dashes in place, the others hexadecimal digits
  // or further dashes, an even number of them.
  lemma ParseIff(s: string, t: string)
    ensures Parse(s) == Some(t) <==>
      t == ToLower(TrimSpace(s)) && |t| == 36 && t[8] == '-' && t[13] == '-' && t[18] == '-' && t[23] == '-' &&
      HexOrDash(t) && Dashes(t) % 2 == 0
  {
    DashesRemoved(ToLower(TrimSpace(s)));
  }

  lemma {:induction false} TrimKeepsSolid(s: string)
    requires forall c :: c in s ==> !IsSpace(c)
    ensures TrimSpace(s) == s
  {
  }

  lemma LowerKeeps(s: string)
    requires forall c :: c in s ==> !('A' <= c <= 'Z')
    ensures ToLower(s) == s
  {
    assert forall i :: 0 <= i < |s| ==> s[i] in s;
  }

  // What Parse gives back it accepts unchanged.
  lemma ParseStable(s: string)
    requires Parse(s).Some?
    ensures Parse(Parse(s).value) == Parse(s)
  {
    var t := Parse(s).value;
    ParseIff(s, t);
    ParseIff(t, t);
    assert forall c :: c in t ==> !('A' <= c <= 'Z');
    TrimKeepsSolid(t);
    LowerKeeps(t);
  }

  lemma IdCharacters(b: seq<byte>)
    requires |b| == 16
    ensures IsUuid(Format(b))
  {
    hide Hex, Dashed;
    forall i | 0 <= i < 36
      ensures if IsDash(i) then Format(b)[i] == '-' else '0' <= Format(b)[i] <= '9' || 'a' <= Format(b)[i] <= 'f'
    {
      DashedAt(Hex(b), i);
      if !IsDash(i) {
        HexAt(b, DigitPlace(i) / 2);
      }
    }
  }

  lemma VersionAndVariant(ms: nat, s: nat, random: seq<byte>)
    requires |random| == 8
    ensures var b := Stamp(ms, s) + Tail(random); b[6] / 16 == 7 && 8 <= b[8] / 16 <= 11
  {
  }

  lemma {:induction false} DashesOfParts(a: string, b: string)
    ensures Dashes(a + b) == Dashes(a) + Dashes(b)
  {
    if a == "" {
      assert a + b == b;
    } else {
      DashesOfParts(a[1..], b);
      assert (a + b)[1..] == a[1..] + b;
    }
  }

  lemma {:induction false} NoDashes(s: string)
    ensures Dashes(s) == 0 <==> '-' !in s
  {
    if s != "" {
      NoDashes(s[1..]);
      assert s == [s[0]] + s[1..];
    }
  }

  // The five groups between the four dashes.
  lemma DashesByGroup(s: string)
    requires |s| == 36 && s[8] == '-' && s[13] == '-' && s[18] == '-' && s[23] == '-'
    ensures Dashes(s) == 4 + Dashes(s[..8]) + Dashes(s[9..13]) + Dashes(s[14..18]) + Dashes(s[19..23]) + Dashes(s[24..])
  {
    hide Dashes;
    DashGroup(s, 8);
    DashGroup(s[9..], 4);
    DashGroup(s[14..], 4);
    DashGroup(s[19..], 4);
    Slices(s, 9);
    Slices(s, 14);
    Slices(s, 19);
  }

  lemma Slices(s: string, k: nat)
    requires k + 5 <= |s|
    ensures s[k..][..4] == s[k..k + 4] && s[k..][5..] == s[k + 5..]
  {
  }

  lemma DashGroup(s: string, k: nat)
    requires k < |s| && s[k] == '-'
    ensures Dashes(s) == Dashes(s[..k]) + 1 + Dashes(s[k + 1..])
  {
    assert s == s[..k] + s[k..] && s[k..][1..] == s[k + 1..];
    DashesOfParts(s[..k], s[k..]);
  }

  lemma UuidDashes(s: string)
    requires |s| == 36 && s[8] == '-' && s[13] == '-' && s[18] == '-' && s[23] == '-'
    ensures Dashes(s) == 4 <==> forall i :: 0 <= i < 36 && !IsDash(i) ==> s[i] != '-'
  {
    DashesByGroup(s);
    NoDashes(s[..8]);
    NoDashes(s[9..13]);
    NoDashes(s[14..18]);
    NoDashes(s[19..23]);
    NoDashes(s[24..]);
    forall i | 0 <= i < 36 && !IsDash(i)
      ensures s[i] == if i < 8 then s[..8][i] else if i < 13 then s[9..13][i - 9] else if i < 18 then s[14..18][i - 14]
                      else if i < 23 then s[19..23][i - 19] else s[24..][i - 24]
    {
    }
  }

  lemma {:induction false} TrimKeepsDashes(s: string)
    ensures Dashes(TrimSpace(s)) == Dashes(s)
    decreases |s|
  {
    if s != "" {
      if IsSpace(s[0]) {
        TrimKeepsDashes(s[1..]);
      } else if IsSpace(s[|s| - 1]) {
        var k := |s| - 1;
        TrimKeepsDashes(s[..k]);
        DashesOfParts(s[..k], [s[k]]);
        NoDashes([s[k]]);
        assert s == s[..k] + [s[k]];
      }
    }
  }

  lemma {:induction false} LowerKeepsDashes(s: string)
    ensures Dashes(ToLower(s)) == Dashes(s)
  {
    if s != "" {
      LowerKeepsDashes(s[1..]);
      assert ToLower(s)[1..] == ToLower(s[1..]);
    }
  }

  lemma HexOrDashIsUuidIff(t: string)
    requires |t| == 36 && t[8] == '-' && t[13] == '-' && t[18] == '-' && t[23] == '-' && HexOrDash(t)
    requires forall i :: 0 <= i < |t| ==> !('A' <= t[i] <= 'Z')
    ensures IsUuid(t) <==> Dashes(t) == 4
  {
    UuidDashes(t);
    forall i | 0 <= i < 36
      ensures '0' <= t[i] <= '9' || 'a' <= t[i] <= 'f' || t[i] == '-'
    {
      assert t[i] in t;
    }
  }

  // A text that Parse accepts is an identifier exactly when it has four dashes.
  lemma AcceptedIsUuidIff(s: string)
    requires Parse(s).Some?
    ensures IsUuid(Parse(s).value) <==> Dashes(s) == 4
  {
    hide Dashes, ToLower, TrimSpace, IsUuid, HexOrDash, Parse;
    ParseIff(s, Parse(s).value);
    TrimKeepsDashes(s);
    LowerKeepsDashes(TrimSpace(s));
    LowerHasNoCapitals(TrimSpace(s));
    HexOrDashIsUuidIff(Parse(s).value);
  }

  lemma LowerHasNoCapitals(s: string)
    ensures forall i :: 0 <= i < |ToLower(s)| ==> !('A' <= ToLower(s)[i] <= 'Z')
  {
  }

  // It accepts other text too.
  lemma DashesAreAccepted()
    ensures var s := seq(36, _ => '-'); Parse(s) == Some(s) && !IsUuid(s)
  {
    var s := seq(36, _ => '-');
    AllDashes(s);
    TrimKeepsSolid(s);
    LowerKeeps(s);
    ParseIff(s, s);
    assert s[0] == '-';
  }

  lemma {:induction false} AllDashes(s: string)
    requires forall i :: 0 <= i < |s| ==> s[i] == '-'
    ensures Dashes(s) == |s|
  {
    if s != "" {
      AllDashes(s[1..]);
    }
  }

  // The layout of section 5.7 of RFC 9562 in text: version 7, variant 10 in binary, and Parse takes the identifier as it is.
  lemma IdIsUuid7(ms: nat, s: nat, random: seq<byte>)
    requires |random| == 8
    ensures var id := Id(ms, s, random); IsUuid(id) && id[14] == '7' && id[19] in "89ab" && Parse(id) == Some(id)
  {
    hide Hex, Dashed, Parse, Stamp, Tail;
    var b := Stamp(ms, s) + Tail(random);
    var id := Id(ms, s, random);
    IdCharacters(b);
    DashedAt(Hex(b), 14);
    DashedAt(Hex(b), 19);
    HexAt(b, 6);
    HexAt(b, 8);
    VersionAndVariant(ms, s, random);
    UuidDashes(id);
    ParseIff(id, id);
    assert forall c :: c in id ==> !('A' <= c <= 'Z') && !IsSpace(c);
    TrimKeepsSolid(id);
    LowerKeeps(id);
  }

  // ---------- one identifier in full ----------

  lemma AllDigits()
    ensures forall n :: 0 <= n < 10 ==> Digit(n) as int == '0' as int + n
    ensures forall n :: 10 <= n < 16 ==> Digit(n) as int == 'a' as int + n - 10
  {
  }

  lemma FirstHalf()
    ensures Stamp(0x0123456789ab, 0x0cde) == [0x01, 0x23, 0x45, 0x67, 0x89, 0xab, 0x7c, 0xde]
  {
  }

  // The millisecond and the counter stand in the first three groups, the random bytes behind the variant.
  lemma SomeIdentifier()
    ensures Id(0x0123456789ab, 0x0cde, [0xff, 0x01, 0x23, 0x45, 0x67, 0x89, 0xab, 0xcd]) == "01234567" + "-" + "89ab" + "-" + "7cde" + "-" + "bf01" + "-" + "23456789abcd"
  {
    hide Hex, Digit, Stamp;
    FirstHalf();
    var b: seq<byte> := [0x01, 0x23, 0x45, 0x67, 0x89, 0xab, 0x7c, 0xde] + [0xbf, 0x01, 0x23, 0x45, 0x67, 0x89, 0xab, 0xcd];
    assert Tail([0xff, 0x01, 0x23, 0x45, 0x67, 0x89, 0xab, 0xcd]) == [0xbf, 0x01, 0x23, 0x45, 0x67, 0x89, 0xab, 0xcd];
    HexConcat([0x01, 0x23, 0x45, 0x67, 0x89, 0xab, 0x7c, 0xde], [0xbf, 0x01, 0x23, 0x45, 0x67, 0x89, 0xab, 0xcd]);
    HexFirst();
    HexSecond();
    DashedHalves("0123456789ab7cde", "bf0123456789abcd");
  }

  lemma HexConcat(a: seq<byte>, b: seq<byte>)
    ensures Hex(a + b) == Hex(a) + Hex(b)
  {
    hide Digit;
  }

  lemma HexFirst()
    ensures Hex([0x01, 0x23, 0x45, 0x67, 0x89, 0xab, 0x7c, 0xde]) == "0123456789ab7cde"
  {
  }

  lemma HexSecond()
    ensures Hex([0xbf, 0x01, 0x23, 0x45, 0x67, 0x89, 0xab, 0xcd]) == "bf0123456789abcd"
  {
  }

  lemma DashedHalves(g: string, h: string)
    requires g == "0123456789ab7cde" && h == "bf0123456789abcd"
    ensures Dashed(g + h) == "01234567" + "-" + "89ab" + "-" + "7cde" + "-" + "bf01" + "-" + "23456789abcd"
  {
    FirstGroups(g);
    LastGroups(h);
    var x := g + h;
    assert x[0..8] == g[0..8] && x[8..12] == g[8..12] && x[12..16] == g[12..16] && x[16..20] == h[0..4] && x[20..32] == h[4..16];
  }

  lemma FirstGroups(g: string)
    requires g == "0123456789ab7cde"
    ensures g[0..8] == "01234567" && g[8..12] == "89ab" && g[12..16] == "7cde"
  {
  }

  lemma LastGroups(h: string)
    requires h == "bf0123456789abcd"
    ensures h[0..4] == "bf01" && h[4..16] == "23456789abcd"
  {
  }
}
