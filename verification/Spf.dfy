// Replacing private addresses in SPF text (internal/netaddr/ip.go, lines 61-103): a scan that rewrites the string it is scanning.
module Spf {
  import opened GoText
  import opened SharedTypes

  // ---------- addresses ----------

  predicate IsDigit(c: char) { '0' <= c <= '9' }
  predicate IsAddressChar(c: char) { c == '.' || IsDigit(c) }

  function Decimal(s: string): int {
    if s == "" then 0 else 10 * Decimal(s[..|s| - 1]) + (s[|s| - 1] as int - '0' as int)
  }

  // One field of net.ParseIP's dotted decimal: no leading zero, at most 255.
  predicate IsOctet(s: string) {
    1 <= |s| <= 3 && (forall i :: 0 <= i < |s| ==> IsDigit(s[i])) && (s[0] == '0' ==> |s| == 1) && Decimal(s) <= 255
  }

  // Up to the first dot, and what follows it.
  function BeforeDot(s: string): (n: nat)
    ensures n <= |s|
  {
    if s == "" || s[0] == '.' then 0 else 1 + BeforeDot(s[1..])
  }

  // The fields of n dotted decimal octets that make up s.
  function Octets(s: string, n: nat): Option<seq<int>>
  {
    if n == 0 then None
    else
      var k := BeforeDot(s);
      if !IsOctet(s[..k]) then None
      else if n == 1 then if k == |s| then Some([Decimal(s)]) else None
      else if k == |s| then None
      else match Octets(s[k + 1..], n - 1) case None => None case Some(rest) => Some([Decimal(s[..k])] + rest)
  }

  function ParseIPv4(s: string): Option<seq<int>> { Octets(s, 4) }

  // Private, loopback, link-local, unspecified or multicast.
  predicate IsPrivateIPv4(ip: seq<int>)
    requires |ip| >= 2
  {
    ip[0] == 10 || (ip[0] == 172 && 16 <= ip[1] < 32) || (ip[0] == 192 && ip[1] == 168) || ip[0] == 127 ||
    (ip[0] == 169 && ip[1] == 254) || (forall i :: 0 <= i < |ip| ==> ip[i] == 0) || 224 <= ip[0] < 240
  }

  // 100.64.0.0/10, the addresses of carrier-grade NAT.
  predicate IsCarrierGrade(ip: seq<int>)
    requires |ip| >= 2
  {
    ip[0] == 100 && 64 <= ip[1] < 128
  }

  // The list in the comment on IsPrivateIPv4: loopback, link-local, unspecified, multicast, RFC 1918 and carrier-grade NAT.
  predicate IsDocumentedPrivate(ip: seq<int>)
    requires |ip| == 4
  {
    ip[0] == 127 || (ip[0] == 169 && ip[1] == 254) || ip == [0, 0, 0, 0] || ip[0] / 16 == 14 ||
    ip[0] == 10 || (ip[0] == 172 && ip[1] / 16 == 1) || (ip[0] == 192 && ip[1] == 168) || IsCarrierGrade(ip)
  }

  // The code agrees with the list exactly outside the carrier-grade addresses, all of which it takes for public.
  lemma PrivateAsDocumentedIff(ip: seq<int>)
    requires |ip| == 4 && forall i :: 0 <= i < 4 ==> 0 <= ip[i] < 256
    ensures (IsPrivateIPv4(ip) <==> IsDocumentedPrivate(ip)) <==> !IsCarrierGrade(ip)
    ensures IsCarrierGrade(ip) ==> !IsPrivateIPv4(ip)
  {
    if forall i :: 0 <= i < |ip| ==> ip[i] == 0 {
      assert ip == [0, 0, 0, 0];
    }
  }

  lemma {:induction false} OctetCount(s: string, n: nat)
    ensures Octets(s, n).Some? ==> |Octets(s, n).value| == n
  {
    if n > 1 && BeforeDot(s) < |s| {
      OctetCount(s[BeforeDot(s) + 1..], n - 1);
    }
  }

  predicate IsPrivateIPv4String(s: string) {
    var ip := ParseIPv4(TrimSpace(s));
    OctetCount(TrimSpace(s), 4);
    ip.Some? && IsPrivateIPv4(ip.value)
  }

  // ---------- the text as parts ----------

  const PREFIX := "ip4:"

  // A character, or the prefix with the run of digits and dots behind it.
  datatype Part = Text(c: char) | Token(address: string)

  function AddressLength(s: string): (n: nat)
    ensures n <= |s| && (forall i :: 0 <= i < n ==> IsAddressChar(s[i])) && (n < |s| ==> !IsAddressChar(s[n]))
  {
    if s == "" || !IsAddressChar(s[0]) then 0 else 1 + AddressLength(s[1..])
  }

  function Parts(s: string): seq<Part>
    decreases |s|
  {
    if s == "" then []
    else if HasPrefix(s, PREFIX) then
      var n := AddressLength(s[4..]);
      [Token(s[4..][..n])] + Parts(s[4..][n..])
    else [Text(s[0])] + Parts(s[1..])
  }

  function Written(p: Part): string { match p case Text(c) => [c] case Token(a) => PREFIX + a }

  function Join(ps: seq<Part>): string { if ps == [] then "" else Written(ps[0]) + Join(ps[1..]) }

  predicate MustGo(address: string, pub: string) { IsPrivateIPv4String(address) && address != pub }

  function Swap(p: Part, pub: string): Part { if p.Token? && MustGo(p.address, pub) then Token(pub) else p }

  function SwapAll(ps: seq<Part>, pub: string): (r: seq<Part>)
    ensures |r| == |ps| && forall i :: 0 <= i < |ps| ==> r[i] == Swap(ps[i], pub)
  {
    if ps == [] then [] else [Swap(ps[0], pub)] + SwapAll(ps[1..], pub)
  }

  // The text with every private token replaced.
  function Swapped(s: string, pub: string): string { Join(SwapAll(Parts(s), pub)) }

  predicate Usable(pub: string) { pub != "" && !IsPrivateIPv4String(pub) }

  lemma JoinCons(p: Part, ps: seq<Part>)
    ensures Join([p] + ps) == Written(p) + Join(ps)
  {
    assert ([p] + ps)[1..] == ps;
  }

  lemma {:induction false} JoinParts(s: string)
    ensures Join(Parts(s)) == s
    decreases |s|
  {
    hide AddressLength, Join, Parts;
    if s == "" {
      NothingJoined(s);
    } else if HasPrefix(s, PREFIX) {
      var n := AddressLength(s[4..]);
      PartsAtPrefix(s);
      JoinParts(s[4..][n..]);
      JoinCons(Token(s[4..][..n]), Parts(s[4..][n..]));
      assert s == PREFIX + s[4..] && s[4..] == s[4..][..n] + s[4..][n..];
    } else {
      PartsOfPlain(s[0], s[1..]);
      assert [s[0]] + s[1..] == s;
      JoinParts(s[1..]);
      JoinCons(Text(s[0]), Parts(s[1..]));
    }
  }

  lemma NothingJoined(s: string)
    requires s == ""
    ensures Join(Parts(s)) == s
  {
  }

  // ---------- the scan ----------

  predicate StartsAt(s: string, i: nat) { i <= |s| && HasPrefix(s[i..], PREFIX) }

  // strings.Index for the prefix: the first place it starts at, from start on.
  method Index(s: string, start: nat) returns (i: int)
    requires start <= |s|
    ensures i == -1 || start <= i
    ensures i >= 0 ==> i + 4 <= |s| && StartsAt(s, i) && forall k: nat :: start <= k < i ==> !StartsAt(s, k)
    ensures i < 0 ==> forall k: nat :: start <= k ==> !StartsAt(s, k)
  {
    i := start;
    while i < |s|
      invariant start <= i <= |s| && forall k: nat :: start <= k < i ==> !StartsAt(s, k)
    {
      if StartsAt(s, i) {
        return;
      }
      i := i + 1;
    }
    i := -1;
  }

  lemma PlainStep(s: string, pub: string)
    requires s != "" && !HasPrefix(s, PREFIX)
    ensures Swapped(s, pub) == [s[0]] + Swapped(s[1..], pub)
  {
    var ps := Parts(s);
    assert ps[1..] == Parts(s[1..]);
    assert SwapAll(ps, pub) == [Text(s[0])] + SwapAll(ps[1..], pub);
  }

  // Up to the next prefix the text stays as it is.
  lemma {:induction false} PlainRun(s: string, pub: string, start: nat, i: nat)
    requires start <= i <= |s| && forall k: nat :: start <= k < i ==> !StartsAt(s, k)
    ensures Swapped(s[start..], pub) == s[start..i] + Swapped(s[i..], pub)
    decreases i - start
  {
    hide Swapped;
    if start < i {
      assert !StartsAt(s, start);
      PlainStep(s[start..], pub);
      PlainRun(s, pub, start + 1, i);
      assert s[start..][1..] == s[start + 1..] && s[start..i] == [s[start]] + s[start + 1..i];
    } else {
      assert s[start..i] == "";
    }
  }

  lemma TokenStep(s: string, pub: string)
    requires HasPrefix(s, PREFIX)
    ensures var n := AddressLength(s[4..]);
      Swapped(s, pub) == PREFIX + (if MustGo(s[4..][..n], pub) then pub else s[4..][..n]) + Swapped(s[4..][n..], pub)
  {
    var n := AddressLength(s[4..]);
    var ps := Parts(s);
    assert ps[1..] == Parts(s[4..][n..]);
    assert SwapAll(ps, pub) == [Swap(ps[0], pub)] + SwapAll(ps[1..], pub);
  }

  lemma LengthOfRun(s: string, n: nat)
    requires n <= |s| && (forall i :: 0 <= i < n ==> IsAddressChar(s[i])) && (n < |s| ==> !IsAddressChar(s[n]))
    ensures AddressLength(s) == n
  {
  }

  method RewritePrivateIP4Tokens(content: string, pub: string) returns (out: string)
    ensures out == if Usable(pub) then Swapped(content, pub) else content
  {
    hide Swapped, IsPrivateIPv4String, AddressLength, StartsAt, IsAddressChar;
    if pub == "" || IsPrivateIPv4String(pub) {
      return content;
    }
    out := content;
    var start: nat := 0;
    assert out[..0] + Swapped(out[0..], pub) == Swapped(content, pub) by { assert out[0..] == content; }
    while true
      invariant start <= |out|
      invariant out[..start] + Swapped(out[start..], pub) == Swapped(content, pub)
      decreases |out| - start
    {
      var at := Index(out, start);
      if at < 0 {
        PlainRun(out, pub, start, |out|);
        NothingLeft(out, pub);
        assert out[..start] + out[start..|out|] == out;
        return;
      }
      var i := at + 4;
      var j: nat := i;
      while j < |out| && IsAddressChar(out[j])
        invariant i <= j <= |out| && forall k :: i <= k < j ==> IsAddressChar(out[k])
      {
        j := j + 1;
      }
      ScanStep(out, pub, start, at, j);
      var token := out[i..j];
      if IsPrivateIPv4String(token) && token != pub {
        Spliced(out, i, pub, j);
        out := out[..i] + pub + out[j..];
        start := i + |pub|;
      } else {
        assert out[..j] == out[..i] + token;
        start := j;
      }
    }
  }

  lemma Spliced(s: string, i: nat, pub: string, j: nat)
    requires i <= j <= |s|
    ensures var later := s[..i] + pub + s[j..]; later[..i + |pub|] == s[..i] + pub && later[i + |pub|..] == s[j..]
  {
  }

  // One turn of the scan.
  lemma ScanStep(s: string, pub: string, start: nat, at: nat, j: nat)
    requires start <= at && at + 4 <= j <= |s| && StartsAt(s, at) && forall k: nat :: start <= k < at ==> !StartsAt(s, k)
    requires (forall k :: at + 4 <= k < j ==> IsAddressChar(s[k])) && (j < |s| ==> !IsAddressChar(s[j]))
    ensures s[..start] + Swapped(s[start..], pub) ==
      s[..at + 4] + (if MustGo(s[at + 4..j], pub) then pub else s[at + 4..j]) + Swapped(s[j..], pub)
  {
    hide Swapped, MustGo;
    PlainRun(s, pub, start, at);
    TokenAt(s, pub, at, j);
    assert s[..at + 4] == s[..start] + s[start..at] + PREFIX;
  }

  lemma NothingLeft(s: string, pub: string)
    ensures Swapped(s[|s|..], pub) == ""
  {
  }

  lemma TokenAt(s: string, pub: string, at: nat, j: nat)
    requires StartsAt(s, at) && at + 4 <= j <= |s|
    requires (forall k :: at + 4 <= k < j ==> IsAddressChar(s[k])) && (j < |s| ==> !IsAddressChar(s[j]))
    ensures Swapped(s[at..], pub) == PREFIX + (if MustGo(s[at + 4..j], pub) then pub else s[at + 4..j]) + Swapped(s[j..], pub)
    ensures s[at..at + 4] == PREFIX
  {
    hide Swapped, IsPrivateIPv4String, AddressLength;
    var tail := s[at..];
    assert tail[4..] == s[at + 4..];
    LengthOfRun(tail[4..], j - (at + 4));
    TokenStep(tail, pub);
    assert tail[4..][..j - (at + 4)] == s[at + 4..j] && tail[4..][j - (at + 4)..] == s[j..];
  }

  // ---------- what the scan did ----------

  predicate AddressText(s: string) { s != "" && forall i :: 0 <= i < |s| ==> IsAddressChar(s[i]) }

  // A word without an 'i' is at the front of the text after the replacement just when it was before.
  lemma {:induction false} SameFront(s: string, pub: string, w: string)
    requires 'i' !in w
    ensures HasPrefix(Swapped(s, pub), w) <==> HasPrefix(s, w)
    decreases |w|
  {
    hide Swapped, MustGo;
    if w != "" {
      if s == "" {
        NothingLeft(s, pub);
        assert s[|s|..] == s;
      } else if HasPrefix(s, PREFIX) {
        TokenStep(s, pub);
        assert w[0] in w && Swapped(s, pub)[0] == 'i' && s[0] == 'i';
        FrontDiffers(s, w);
        FrontDiffers(Swapped(s, pub), w);
      } else {
        PlainStep(s, pub);
        SameFront(s[1..], pub, w[1..]);
        FrontStep(s, w);
        FrontStep(Swapped(s, pub), w);
        assert Swapped(s, pub)[1..] == Swapped(s[1..], pub);
      }
    }
  }

  lemma FrontDiffers(s: string, w: string)
    requires s != "" && w != "" && s[0] != w[0]
    ensures !HasPrefix(s, w)
  {
    assert |w| <= |s| ==> s[..|w|][0] == s[0];
  }

  lemma FrontStep(s: string, w: string)
    requires s != "" && w != ""
    ensures HasPrefix(s, w) <==> s[0] == w[0] && HasPrefix(s[1..], w[1..])
  {
    if |w| <= |s| {
      assert s[..|w|] == [s[0]] + s[1..][..|w| - 1] && w == [w[0]] + w[1..];
    }
  }

  // The first character stays, unless it belongs to an address.
  lemma FirstStays(s: string, pub: string)
    ensures s == "" <==> Swapped(s, pub) == ""
    ensures s != "" && Swapped(s, pub) != "" ==> Swapped(s, pub)[0] == s[0]
  {
    hide Swapped, MustGo;
    if s == "" {
      NothingLeft(s, pub);
      assert s[|s|..] == s;
    } else if HasPrefix(s, PREFIX) {
      TokenStep(s, pub);
      assert s[..4][0] == s[0];
    } else {
      PlainStep(s, pub);
    }
  }

  lemma PartsOfPlain(c: char, rest: string)
    requires !HasPrefix([c] + rest, PREFIX)
    ensures Parts([c] + rest) == [Text(c)] + Parts(rest)
  {
    assert ([c] + rest)[1..] == rest;
  }

  lemma AfterPrefix(address: string, rest: string)
    ensures var s := PREFIX + address + rest;
      HasPrefix(s, PREFIX) && s[4..] == address + rest && (address + rest)[..|address|] == address && (address + rest)[|address|..] == rest
  {
    assert (PREFIX + address + rest)[..4] == PREFIX;
  }

  lemma PartsAtPrefix(s: string)
    requires HasPrefix(s, PREFIX)
    ensures var n := AddressLength(s[4..]); Parts(s) == [Token(s[4..][..n])] + Parts(s[4..][n..])
  {
    hide AddressLength;
  }

  lemma PartsOfToken(address: string, rest: string)
    requires forall i :: 0 <= i < |address| ==> IsAddressChar(address[i])
    requires rest != "" ==> !IsAddressChar(rest[0])
    ensures Parts(PREFIX + address + rest) == [Token(address)] + Parts(rest)
  {
    hide AddressLength, IsAddressChar;
    var s := PREFIX + address + rest;
    AfterPrefix(address, rest);
    LengthOfRun(address + rest, |address|);
    PartsAtPrefix(s);
  }

  // ---------- any replacement ----------

  // The parts with each private token replaced by what the replacement reads as.
  function Expand(ps: seq<Part>, pub: string): seq<Part> {
    if ps == [] then []
    else (if ps[0].Token? && MustGo(ps[0].address, pub) then Parts(PREFIX + pub) else [ps[0]]) + Expand(ps[1..], pub)
  }

  // The replacement ends in a part of the prefix that text behind it can complete.
  predicate EndsOpen(pub: string) { HasSuffix(pub, "i") || HasSuffix(pub, "ip4") }

  // Nothing is read across the border of a and b.
  predicate Seam(a: string, b: string) {
    (b == "" || !IsAddressChar(b[0])) && !(HasSuffix(a, "i") && HasPrefix(b, "p4:")) && !(HasSuffix(a, "ip4") && HasPrefix(b, ":"))
  }

  lemma SuffixOfTail(s: string, k: nat, w: string)
    requires k <= |s| && HasSuffix(s[k..], w)
    ensures HasSuffix(s, w)
  {
    assert s[k..][|s[k..]| - |w|..] == s[|s| - |w|..];
  }

  lemma SeamOfTail(a: string, k: nat, b: string)
    requires k <= |a| && Seam(a, b)
    ensures Seam(a[k..], b)
  {
    if HasSuffix(a[k..], "i") {
      SuffixOfTail(a, k, "i");
    }
    if HasSuffix(a[k..], "ip4") {
      SuffixOfTail(a, k, "ip4");
    }
  }

  lemma SplitPrefix(a: string, b: string)
    requires HasPrefix(a + b, PREFIX)
    ensures if |a| < 4 then a == PREFIX[..|a|] && HasPrefix(b, PREFIX[|a|..]) else HasPrefix(a, PREFIX)
  {
    var k := |a|;
    if k < 4 {
      assert (a + b)[..4][..k] == a && (a + b)[..4][k..] == b[..4 - k];
    } else {
      assert (a + b)[..4] == a[..4];
    }
  }

  // Text that does not begin with the prefix is not given one by what follows it.
  lemma NoPrefixAcross(a: string, b: string)
    requires Seam(a, b) && a != "" && !HasPrefix(a, PREFIX)
    ensures !HasPrefix(a + b, PREFIX)
  {
    hide HasPrefix, HasSuffix;
    if HasPrefix(a + b, PREFIX) {
      SplitPrefix(a, b);
      PrefixPieces();
      EndsInItself(a);
      StartsWithFour(b);
    }
  }

  lemma EndsInItself(a: string)
    ensures HasSuffix(a, a)
  {
  }

  lemma StartsWithFour(b: string)
    ensures HasPrefix(b, "4:") ==> b != "" && IsAddressChar(b[0])
  {
    if b != "" {
      FrontStep(b, "4:");
    }
  }

  lemma PrefixPieces()
    ensures PREFIX[..1] == "i" && PREFIX[1..] == "p4:" && PREFIX[2..] == "4:" && PREFIX[..3] == "ip4" && PREFIX[3..] == ":"
  {
  }

  lemma RunAcross(a: string, b: string, n: nat)
    requires (b == "" || !IsAddressChar(b[0])) && n == AddressLength(a)
    ensures AddressLength(a + b) == n && (a + b)[..n] == a[..n] && (a + b)[n..] == a[n..] + b
  {
    LengthOfRun(a + b, n);
  }

  lemma TokenAcross(a: string, b: string)
    requires Seam(a, b) && HasPrefix(a, PREFIX)
    ensures |a| >= 4
    ensures var n := AddressLength(a[4..]);
      Parts(a) == [Token(a[4..][..n])] + Parts(a[4 + n..]) && Parts(a + b) == [Token(a[4..][..n])] + Parts(a[4 + n..] + b)
  {
    hide AddressLength, Parts, IsAddressChar;
    var n := AddressLength(a[4..]);
    SeamStart(a, b);
    RunAcross(a[4..], b, n);
    assert (a + b)[4..] == a[4..] + b && (a + b)[..4] == a[..4];
    PartsAtPrefix(a);
    PartsAtPrefix(a + b);
    assert a[4..][n..] == a[4 + n..];
  }

  lemma PlainAcross(a: string, b: string)
    requires Seam(a, b) && a != "" && !HasPrefix(a, PREFIX)
    ensures Parts(a) == [Text(a[0])] + Parts(a[1..]) && Parts(a + b) == [Text(a[0])] + Parts(a[1..] + b)
  {
    hide Seam, Parts, HasPrefix;
    NoPrefixAcross(a, b);
    assert [a[0]] + a[1..] == a && [a[0]] + (a[1..] + b) == a + b;
    PartsOfPlain(a[0], a[1..]);
    PartsOfPlain(a[0], a[1..] + b);
  }

  lemma OneMore(p: Part, ps: seq<Part>, qs: seq<Part>)
    ensures [p] + (ps + qs) == [p] + ps + qs
  {
  }

  lemma {:induction false} PartsConcat(a: string, b: string)
    requires Seam(a, b)
    ensures Parts(a + b) == Parts(a) + Parts(b)
    decreases |a|
  {
    hide Seam, AddressLength, Parts, IsAddressChar, HasPrefix;
    if a == "" {
      NoParts();
      assert a + b == b && [] + Parts(b) == Parts(b);
    } else if HasPrefix(a, PREFIX) {
      TokenAcross(a, b);
      var n := AddressLength(a[4..]);
      SeamOfTail(a, 4 + n, b);
      PartsConcat(a[4 + n..], b);
      OneMore(Token(a[4..][..n]), Parts(a[4 + n..]), Parts(b));
    } else {
      PlainAcross(a, b);
      SeamOfTail(a, 1, b);
      PartsConcat(a[1..], b);
      OneMore(Text(a[0]), Parts(a[1..]), Parts(b));
    }
  }

  lemma SeamStart(a: string, b: string)
    requires Seam(a, b)
    ensures b == "" || !IsAddressChar(b[0])
  {
  }

  // Behind a replacement that does not end open there is a seam.
  lemma SeamBehind(pub: string, b: string)
    requires pub != "" && !EndsOpen(pub) && (b == "" || !IsAddressChar(b[0]))
    ensures Seam(PREFIX + pub, b)
  {
    if HasSuffix(PREFIX + pub, "i") {
      SuffixBehind(pub, "i");
    }
    if HasSuffix(PREFIX + pub, "ip4") {
      SuffixBehind(pub, "ip4");
    }
  }

  lemma ColonInside(pub: string, w: string)
    requires HasSuffix(PREFIX + pub, w) && |w| > |pub|
    ensures ':' in w
  {
    var u := PREFIX + pub;
    assert w[|w| - |pub| - 1] == u[3];
  }

  lemma SuffixBehind(pub: string, w: string)
    requires pub != "" && ':' !in w && HasSuffix(PREFIX + pub, w)
    ensures HasSuffix(pub, w)
  {
    var u := PREFIX + pub;
    if |w| <= |pub| {
      assert u[|u| - |w|..] == pub[|pub| - |w|..];
    } else {
      ColonInside(pub, w);
    }
  }

  lemma ExpandCons(p: Part, ps: seq<Part>, pub: string)
    ensures Expand([p] + ps, pub) == (if p.Token? && MustGo(p.address, pub) then Parts(PREFIX + pub) else [p]) + Expand(ps, pub)
  {
    assert ([p] + ps)[1..] == ps;
  }

  // Read again, the text has the same parts in the same order, but for the private addresses, each of which has become the parts of
  // the replacement.
  lemma {:induction false} PartsAfterAny(s: string, pub: string)
    requires pub != "" && !EndsOpen(pub)
    ensures Parts(Swapped(s, pub)) == Expand(Parts(s), pub)
    decreases |s|
  {
    hide Swapped, MustGo, Expand, AddressLength, EndsOpen;
    if s == "" {
      FirstStays(s, pub);
      ExpandNothing(pub);
    } else if HasPrefix(s, PREFIX) {
      var n := AddressLength(s[4..]);
      var token, rest := s[4..][..n], s[4..][n..];
      PartsAfterAny(rest, pub);
      TokenStep(s, pub);
      FirstStays(rest, pub);
      ExpandCons(Token(token), Parts(rest), pub);
      if MustGo(token, pub) {
        SeamBehind(pub, Swapped(rest, pub));
        PartsConcat(PREFIX + pub, Swapped(rest, pub));
      } else {
        PartsOfToken(token, Swapped(rest, pub));
      }
    } else {
      var rest := s[1..];
      PartsAfterAny(rest, pub);
      PlainStep(s, pub);
      NoNewPrefix(s, pub);
      PartsOfPlain(s[0], Swapped(rest, pub));
      ExpandCons(Text(s[0]), Parts(rest), pub);
    }
  }

  lemma ExpandNothing(pub: string)
    ensures Expand([], pub) == []
  {
  }

  // In digits and dots the replacement is one token.
  lemma {:induction false} ExpandIsSwap(ps: seq<Part>, pub: string)
    requires Parts(PREFIX + pub) == [Token(pub)]
    ensures Expand(ps, pub) == SwapAll(ps, pub)
  {
    hide Parts, MustGo;
    if ps != [] {
      ExpandIsSwap(ps[1..], pub);
    }
  }

  lemma AddressTextIsOneToken(pub: string)
    requires AddressText(pub)
    ensures !EndsOpen(pub) && Parts(PREFIX + pub) == [Token(pub)]
  {
    PartsOfToken(pub, "");
    NoParts();
    assert PREFIX + pub + "" == PREFIX + pub;
    if EndsOpen(pub) {
      assert pub[|pub| - 1] == 'i' || pub[|pub| - 3] == 'i' by { assert "ip4"[0] == 'i' && "i"[0] == 'i'; }
    }
  }

  lemma PartsAfter(s: string, pub: string)
    requires AddressText(pub)
    ensures Parts(Swapped(s, pub)) == SwapAll(Parts(s), pub)
  {
    AddressTextIsOneToken(pub);
    PartsAfterAny(s, pub);
    ExpandIsSwap(Parts(s), pub);
  }

  lemma NoNewPrefix(s: string, pub: string)
    requires s != "" && !HasPrefix(s, PREFIX)
    ensures !HasPrefix([s[0]] + Swapped(s[1..], pub), PREFIX)
  {
    hide Swapped;
    SameFront(s[1..], pub, "p4:");
    FrontStep(s, PREFIX);
    FrontStep([s[0]] + Swapped(s[1..], pub), PREFIX);
    assert ([s[0]] + Swapped(s[1..], pub))[1..] == Swapped(s[1..], pub) && PREFIX[1..] == "p4:";
  }

  predicate IsPublicPart(p: Part) { p.Token? ==> !IsPrivateIPv4String(p.address) }

  // No private address stands behind a prefix.
  predicate Clean(s: string) { forall p :: p in Parts(s) ==> IsPublicPart(p) }

  lemma {:induction false} ExpandIsPublic(ps: seq<Part>, pub: string)
    requires Usable(pub) && Clean(PREFIX + pub)
    ensures forall p :: p in Expand(ps, pub) ==> IsPublicPart(p)
  {
    hide IsPrivateIPv4String, Parts;
    if ps != [] {
      ExpandIsPublic(ps[1..], pub);
    }
  }

  // Whatever the text, no private address is left behind a prefix: exactly for the replacements that hold none themselves behind
  // the prefix and do not end in a part of it that text behind them can complete.
  lemma NoPrivateLeftIff(pub: string)
    requires Usable(pub)
    ensures (forall s :: Clean(Swapped(s, pub))) <==> Clean(PREFIX + pub) && !EndsOpen(pub)
  {
    hide IsPrivateIPv4String, EndsOpen, Clean, Swapped;
    if Clean(PREFIX + pub) && !EndsOpen(pub) {
      forall s
        ensures Clean(Swapped(s, pub))
      {
        CleanAfter(s, pub);
      }
    }
    TenIsReplaced(pub);
    if EndsOpen(pub) {
      var s := OpenEndCompletes(pub);
      assert !Clean(Swapped(s, pub));
    }
    assert !Clean(PREFIX + pub) ==> !Clean(Swapped(PREFIX + TEN, pub));
  }

  lemma CleanAfter(s: string, pub: string)
    requires Usable(pub) && Clean(PREFIX + pub) && !EndsOpen(pub)
    ensures Clean(Swapped(s, pub))
  {
    PartsAfterAny(s, pub);
    ExpandIsPublic(Parts(s), pub);
  }

  const TEN := "10.0.0.1"

  // A private address with text behind it that holds no prefix.
  lemma TenBefore(rest: string, pub: string)
    requires Usable(pub) && 'i' !in rest && (rest != "" ==> !IsAddressChar(rest[0]))
    ensures Swapped(PREFIX + TEN + rest, pub) == PREFIX + pub + rest
  {
    hide IsPrivateIPv4String, Swapped, AddressLength, IsAddressChar;
    var s := PREFIX + TEN + rest;
    TenIsPrivate();
    TenIsAddress();
    AfterPrefix(TEN, rest);
    LengthOfRun(TEN + rest, |TEN|);
    TokenStep(s, pub);
    PlainText(rest, pub);
  }

  lemma TenIsAddress()
    ensures forall i :: 0 <= i < |TEN| ==> IsAddressChar(TEN[i])
  {
  }

  lemma PlainText(s: string, pub: string)
    requires 'i' !in s
    ensures Swapped(s, pub) == s
  {
    hide Swapped;
    forall k: nat | 0 <= k < |s|
      ensures !StartsAt(s, k)
    {
      assert s[k] in s;
      FrontDiffers(s[k..], PREFIX);
    }
    PlainRun(s, pub, 0, |s|);
    NothingLeft(s, pub);
    assert s[0..] == s && s[0..|s|] == s;
  }

  lemma TenIsReplaced(pub: string)
    requires Usable(pub)
    ensures Swapped(PREFIX + TEN, pub) == PREFIX + pub
  {
    hide Swapped, IsPrivateIPv4String;
    TenBefore("", pub);
    assert PREFIX + TEN + "" == PREFIX + TEN && PREFIX + pub + "" == PREFIX + pub;
  }

  // Text behind a replacement that ends open completes a prefix with a private address.
  lemma OpenEndCompletes(pub: string) returns (s: string)
    requires Usable(pub) && EndsOpen(pub)
    ensures !Clean(Swapped(s, pub))
  {
    hide Clean, Swapped, Usable, HasSuffix;
    var w := if HasSuffix(pub, "i") then "i" else "ip4";
    var rest := if w == "i" then "p4:" + TEN else ":" + TEN;
    s := PREFIX + TEN + rest;
    assert w + rest == PREFIX + TEN;
    Completes(pub, w, rest);
  }

  lemma Completes(pub: string, w: string, rest: string)
    requires Usable(pub) && HasSuffix(pub, w) && w + rest == PREFIX + TEN
    requires 'i' !in rest && rest != "" && !IsAddressChar(rest[0])
    ensures !Clean(Swapped(PREFIX + TEN + rest, pub))
  {
    hide IsPrivateIPv4String, Swapped, Parts, IsAddressChar, Clean;
    TenBefore(rest, pub);
    var q := pub[..|pub| - |w|];
    assert PREFIX + pub + rest == (PREFIX + q) + (PREFIX + TEN) by { assert pub == q + w; }
    TenBehind(PREFIX + q);
  }

  lemma TenBehind(a: string)
    ensures !Clean(a + (PREFIX + TEN))
  {
    hide IsPrivateIPv4String, Parts;
    var b := PREFIX + TEN;
    FrontDiffers(b, "p4:");
    FrontDiffers(b, ":");
    PartsConcat(a, b);
    TenStands("");
    assert b + "" == b;
    TenIsPrivate();
    assert Token(TEN) in Parts(a + b);
  }

  lemma TenStands(rest: string)
    requires rest != "" ==> !IsAddressChar(rest[0])
    ensures Token(TEN) in Parts(PREFIX + TEN + rest) && !Clean(PREFIX + TEN + rest)
  {
    hide IsPrivateIPv4String, IsAddressChar, Parts;
    TenIsPrivate();
    TenIsAddress();
    PartsOfToken(TEN, rest);
  }

  // A second pass changes nothing.
  lemma SwappedTwice(s: string, pub: string)
    requires AddressText(pub)
    ensures Swapped(Swapped(s, pub), pub) == Swapped(s, pub)
  {
    PartsAfter(s, pub);
    var ps := SwapAll(Parts(s), pub);
    assert SwapAll(ps, pub) == ps;
  }

  // The text is left alone exactly when nothing in it had to go.
  lemma UnchangedIff(s: string, pub: string)
    requires AddressText(pub)
    ensures Swapped(s, pub) == s <==> forall i :: 0 <= i < |Parts(s)| && Parts(s)[i].Token? ==> !MustGo(Parts(s)[i].address, pub)
  {
    hide MustGo;
    var ps := Parts(s);
    PartsAfter(s, pub);
    JoinParts(s);
    if forall i :: 0 <= i < |ps| && ps[i].Token? ==> !MustGo(ps[i].address, pub) {
      assert SwapAll(ps, pub) == ps;
    }
    if Swapped(s, pub) == s {
      forall i | 0 <= i < |ps| && ps[i].Token?
        ensures !MustGo(ps[i].address, pub)
      {
        assert Swap(ps[i], pub) == ps[i];
        NotItself(ps[i].address, pub);
      }
    }
  }

  lemma NotItself(address: string, pub: string)
    ensures MustGo(address, pub) ==> address != pub
  {
  }

  lemma {:induction false} FirstDot(a: string, rest: string)
    requires '.' !in a
    ensures BeforeDot(a + "." + rest) == |a| && BeforeDot(a) == |a|
  {
    if a == "" {
      assert a + "." + rest == "." + rest;
    } else {
      FirstDot(a[1..], rest);
      assert (a + "." + rest)[1..] == a[1..] + "." + rest && a[0] in a;
    }
  }

  // How a dotted address is read.
  lemma OctetsCons(a: string, rest: string, n: nat)
    requires IsOctet(a) && n > 1 && Octets(rest, n - 1).Some?
    ensures Octets(a + "." + rest, n) == Some([Decimal(a)] + Octets(rest, n - 1).value)
  {
    var s := a + "." + rest;
    FirstDot(a, rest);
    assert s[..|a|] == a && s[|a| + 1..] == rest;
  }

  lemma LastOctet(a: string)
    requires IsOctet(a)
    ensures Octets(a, 1) == Some([Decimal(a)])
  {
    FirstDot(a, "");
    assert a[..|a|] == a;
  }

  lemma Solid(s: string)
    requires s != "" && !IsSpace(s[0]) && !IsSpace(s[|s| - 1])
    ensures TrimSpace(s) == s
  {
  }

  lemma ZeroDotOne()
    ensures Octets("0.0.1", 3) == Some([0, 0, 1])
  {
    hide Octets;
    assert Decimal("0") == 0 && Decimal("1") == 1 by { assert "0"[..0] == "" && "1"[..0] == ""; }
    LastOctet("1");
    OctetsCons("0", "1", 2);
    assert "0" + "." + "1" == "0.1" && [0] + [1] == [0, 1];
    OctetsCons("0", "0.1", 3);
    assert "0" + "." + "0.1" == "0.0.1" && [0] + [0, 1] == [0, 0, 1];
  }

  lemma TenIsPrivate()
    ensures IsPrivateIPv4String("10.0.0.1")
  {
    hide Octets, TrimSpace;
    ZeroDotOne();
    assert Decimal("10") == 10 by { assert "10"[..1] == "1" && "1"[..0] == ""; }
    OctetsCons("10", "0.0.1", 4);
    assert "10" + "." + "0.0.1" == "10.0.0.1";
    Solid("10.0.0.1");
  }

  lemma NoParts()
    ensures Parts("") == []
  {
  }

  // An address with a mask is taken for a replacement, and brings its address in.
  lemma MaskedAddressIsNotClean()
    ensures Usable("10.0.0.1/24") && !Clean(Swapped(PREFIX + TEN, "10.0.0.1/24"))
  {
    hide IsPrivateIPv4String, Swapped, Clean;
    MaskIsNotOctet();
    TenIsReplaced("10.0.0.1/24");
    TenStands("/24");
    assert PREFIX + TEN + "/24" == PREFIX + "10.0.0.1/24";
  }

  lemma MaskIsNotOctet()
    ensures !IsPrivateIPv4String("10.0.0.1/24")
  {
    hide TrimSpace, Octets;
    Solid("10.0.0.1/24");
    LongLast("1/24");
    NoOctetsAfter("0", "1/24", 2);
    assert "0" + "." + "1/24" == "0.1/24";
    NoOctetsAfter("0", "0.1/24", 3);
    assert "0" + "." + "0.1/24" == "0.0.1/24";
    NoOctetsAfter("10", "0.0.1/24", 4);
    assert "10" + "." + "0.0.1/24" == "10.0.0.1/24";
  }

  lemma LongLast(s: string)
    requires '.' !in s && |s| > 3
    ensures Octets(s, 1) == None
  {
    FirstDot(s, "");
  }

  lemma NoOctetsAfter(a: string, rest: string, n: nat)
    requires '.' !in a && n > 1 && Octets(rest, n - 1) == None
    ensures Octets(a + "." + rest, n) == None
  {
    FirstDot(a, rest);
    assert (a + "." + rest)[|a| + 1..] == rest;
  }

  // ---------- addresses and tokens in full ----------

  function DigitChar(n: nat): char
    requires n < 10
  {
    ('0' as int + n) as char
  }

  // A number up to 255 in decimal, without leading zeros.
  function DecimalText(n: nat): string
    requires n < 256
  {
    if n < 10 then [DigitChar(n)]
    else if n < 100 then [DigitChar(n / 10), DigitChar(n % 10)]
    else [DigitChar(n / 100), DigitChar(n / 10 % 10), DigitChar(n % 10)]
  }

  lemma OctetOfDecimal(n: nat)
    requires n < 256
    ensures IsOctet(DecimalText(n)) && Decimal(DecimalText(n)) == n
  {
    var t := DecimalText(n);
    if n < 10 {
      assert t[..0] == "";
    } else if n < 100 {
      assert t[..1] == [t[0]] && [t[0]][..0] == "";
      assert Decimal([t[0]]) == n / 10;
    } else {
      assert t[..2] == [t[0], t[1]] && [t[0], t[1]][..1] == [t[0]] && [t[0]][..0] == "";
      assert Decimal([t[0]]) == n / 100;
      assert Decimal([t[0], t[1]]) == n / 100 * 10 + n / 10 % 10;
    }
  }

  // Four numbers up to 255 with dots between are read as those numbers.
  lemma DottedIsRead(a: nat, b: nat, c: nat, d: nat)
    requires a < 256 && b < 256 && c < 256 && d < 256
    ensures ParseIPv4(DecimalText(a) + "." + (DecimalText(b) + "." + (DecimalText(c) + "." + DecimalText(d)))) == Some([a, b, c, d])
  {
    hide DecimalText, Decimal, IsOctet, Octets;
    OctetOfDecimal(a);
    OctetOfDecimal(b);
    OctetOfDecimal(c);
    OctetOfDecimal(d);
    LastOctet(DecimalText(d));
    OctetsCons(DecimalText(c), DecimalText(d), 2);
    OctetsCons(DecimalText(b), DecimalText(c) + "." + DecimalText(d), 3);
    OctetsCons(DecimalText(a), DecimalText(b) + "." + (DecimalText(c) + "." + DecimalText(d)), 4);
    assert [c as int] + [d as int] == [c, d] && [b as int] + [c as int, d as int] == [b, c, d] && [a as int] + [b as int, c as int, d as int] == [a, b, c, d];
  }

  // A text with one token: what follows ip4: up to the first character that is no digit or dot is replaced if it is a private address and
  // not the public one itself, and all else stays.
  lemma OneToken(before: string, address: string, behind: string, pub: string)
    requires 'i' !in before && 'i' !in behind && (forall i :: 0 <= i < |address| ==> address[i] == '.' || '0' <= address[i] <= '9')
    requires behind != "" ==> behind[0] != '.' && !('0' <= behind[0] <= '9')
    ensures Swapped(before + ("ip4:" + address + behind), pub) ==
      before + ("ip4:" + (if IsPrivateIPv4String(address) && address != pub then pub else address) + behind)
  {
    hide IsPrivateIPv4String, Swapped, AddressLength;
    var s := before + ("ip4:" + address + behind);
    forall k: nat | k < |before|
      ensures !StartsAt(s, k)
    {
      assert s[k] == before[k] && before[k] in before;
      FrontDiffers(s[k..], PREFIX);
    }
    PlainRun(s, pub, 0, |before|);
    assert s[0..] == s && s[|before|..] == "ip4:" + address + behind && s[0..|before|] == before;
    AfterPrefix(address, behind);
    LengthOfRun(address + behind, |address|);
    TokenStep("ip4:" + address + behind, pub);
    PlainText(behind, pub);
  }

  // An octet is the decimal text of its value.
  lemma OctetIsDecimal(t: string)
    requires IsOctet(t)
    ensures 0 <= Decimal(t) < 256 && t == DecimalText(Decimal(t))
  {
    if |t| == 1 {
      assert t[..0] == "";
    } else if |t| == 2 {
      assert t[..1] == [t[0]] && [t[0]][..0] == "";
      assert Decimal([t[0]]) == t[0] as int - '0' as int;
    } else {
      assert t[..2] == [t[0], t[1]] && [t[0], t[1]][..1] == [t[0]] && [t[0]][..0] == "";
      assert Decimal([t[0]]) == t[0] as int - '0' as int;
      assert Decimal([t[0], t[1]]) == 10 * (t[0] as int - '0' as int) + (t[1] as int - '0' as int);
    }
  }

  // The text of the numbers with dots between.
  function Dotted(ip: seq<int>): string
    requires ip != [] && forall i :: 0 <= i < |ip| ==> 0 <= ip[i] < 256
  {
    if |ip| == 1 then DecimalText(ip[0]) else DecimalText(ip[0]) + "." + Dotted(ip[1..])
  }

  lemma {:induction false} OctetsAreDotted(s: string, n: nat)
    requires Octets(s, n).Some?
    ensures var ip := Octets(s, n).value; |ip| == n > 0 && (forall i :: 0 <= i < |ip| ==> 0 <= ip[i] < 256) && s == Dotted(ip)
  {
    hide DecimalText, Decimal, IsOctet;
    var k := BeforeDot(s);
    OctetIsDecimal(s[..k]);
    if n == 1 {
      assert s[..k] == s;
    } else {
      DotStands(s);
      OctetsAreDotted(s[k + 1..], n - 1);
      var rest := Octets(s[k + 1..], n - 1).value;
      assert ([Decimal(s[..k])] + rest)[1..] == rest;
      assert s == s[..k] + "." + s[k + 1..];
    }
  }

  lemma {:induction false} DotStands(s: string)
    ensures BeforeDot(s) < |s| ==> s[BeforeDot(s)] == '.'
  {
    if s != "" && s[0] != '.' {
      DotStands(s[1..]);
    }
  }

  // A text is read as an address exactly if it is the dotted text of four numbers up to 255, and then as those.
  lemma AddressIsReadIff(s: string, a: nat, b: nat, c: nat, d: nat)
    requires a < 256 && b < 256 && c < 256 && d < 256
    ensures ParseIPv4(s) == Some([a, b, c, d]) <==> s == DecimalText(a) + "." + (DecimalText(b) + "." + (DecimalText(c) + "." + DecimalText(d)))
  {
    hide DecimalText, Octets;
    DottedIsRead(a, b, c, d);
    if ParseIPv4(s) == Some([a, b, c, d]) {
      OctetsAreDotted(s, 4);
      FourDotted(a, b, c, d);
    }
  }

  lemma FourDotted(a: nat, b: nat, c: nat, d: nat)
    requires a < 256 && b < 256 && c < 256 && d < 256
    ensures Dotted([a, b, c, d]) == DecimalText(a) + "." + (DecimalText(b) + "." + (DecimalText(c) + "." + DecimalText(d)))
  {
    hide DecimalText;
    assert [a as int, b as int, c as int, d as int][1..] == [b, c, d] && [b as int, c as int, d as int][1..] == [c, d] && [c as int, d as int][1..] == [d];
    assert Dotted([d]) == DecimalText(d);
    assert Dotted([c, d]) == DecimalText(c) + "." + Dotted([d]);
  }
}
