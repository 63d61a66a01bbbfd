// The sliding-window limiter (internal/httpserver/api.go, lines 4111-4135): a slice of hit times per key, compacted in place
// on every call. Times are integers and the caller's clock is a parameter.
module Limiter {

  function Kept(times: seq<int>, t: int, keep: bool): (r: seq<int>)
    ensures |r| <= |times| + 1
  {
    if keep then times + [t] else times
  }

  // The times less than window before now, in order.
  function Fresh(hits: seq<int>, now: int, window: int): (f: seq<int>)
    ensures |f| <= |hits|
  {
    if hits == [] then [] else
      var k := |hits| - 1;
      Kept(Fresh(hits[..k], now, window), hits[k], now - hits[k] < window)
  }

  // What one call leaves for its key.
  function Left(hits: seq<int>, n: int, window: int, now: int): seq<int> {
    var f := Fresh(hits, now, window);
    if |f| >= n then f else f + [now]
  }

  // A Go slice that starts at its backing array's first element: its capacity is buf.Length.
  datatype Slice = Slice(buf: array<int>, len: nat)

  class Limiter {
    var n: map<string, Slice>

    ghost function Buffers(): set<object>
      reads this
    {
      set k | k in n :: n[k].buf
    }

    // No two keys share a backing array.
    ghost predicate Valid()
      reads this
    {
      (forall k :: k in n ==> n[k].len <= n[k].buf.Length) && forall k, l :: k in n && l in n && k != l ==> n[k].buf != n[l].buf
    }

    ghost function Hits(key: string): seq<int>
      requires Valid()
      reads this, Buffers()
    {
      if key in n then n[key].buf[..n[key].len] else []
    }

    constructor ()
      ensures Valid() && Buffers() == {} && forall key :: Hits(key) == []
    {
      n := map[];
    }

    method Allow(key: string, limit: int, window: int, now: int) returns (ok: bool)
      requires Valid()
      modifies this, Buffers()
      ensures Valid() && fresh(Buffers() - old(Buffers()))
      ensures ok <==> |Fresh(old(Hits(key)), now, window)| < limit
      ensures Hits(key) == Left(old(Hits(key)), limit, window, now)
      ensures forall other :: other != key ==> Hits(other) == old(Hits(other))
    {
      hide Fresh, Kept;
      var hits := Look(key);
      var left;
      left, ok := CompactAndAppend(hits, limit, window, now);
      n := n[key := left];
    }

    // hits := l.n[key]; a key without an entry has an empty slice.
    method Look(key: string) returns (hits: Slice)
      requires Valid()
      ensures hits.len <= hits.buf.Length && hits.buf[..hits.len] == Hits(key)
      ensures if key in n then hits == n[key] else fresh(hits.buf)
    {
      if key in n {
        hits := n[key];
      } else {
        var none := new int[0];
        hits := Slice(none, 0);
      }
    }
  }

  // The slice that is stored back.
  method CompactAndAppend(hits: Slice, limit: int, window: int, now: int) returns (left: Slice, ok: bool)
    requires hits.len <= hits.buf.Length
    modifies hits.buf
    ensures left.len <= left.buf.Length && (left.buf == hits.buf || fresh(left.buf))
    ensures ok <==> |Fresh(old(hits.buf[..hits.len]), now, window)| < limit
    ensures left.buf[..left.len] == Left(old(hits.buf[..hits.len]), limit, window, now)
  {
    hide Fresh;
    var kept := Compact(hits, window, now);
    ok := kept < limit;
    left := Slice(hits.buf, kept);
    if ok {
      left := Append(left, now);
    }
  }

  // fresh := hits[:0], then each fresh time is appended into the array it is read from.
  method Compact(hits: Slice, window: int, now: int) returns (kept: nat)
    requires hits.len <= hits.buf.Length
    modifies hits.buf
    ensures kept <= hits.len && hits.buf[..kept] == Fresh(old(hits.buf[..hits.len]), now, window)
  {
    kept := 0;
    var b := hits.buf;
    ghost var was := b[..hits.len];
    for i := 0 to hits.len
      invariant kept <= i && b[..kept] == Fresh(was[..i], now, window)
      invariant forall j :: i <= j < hits.len ==> b[j] == was[j]
    {
      assert was[..i + 1][..i] == was[..i];
      if now - b[i] < window {
        b[kept] := b[i];
        kept := kept + 1;
      }
    }
    assert was[..hits.len] == was;
  }

  // Go's append: in place while the capacity lasts, into a larger array after that.
  method Append(s: Slice, t: int) returns (r: Slice)
    requires s.len <= s.buf.Length
    modifies s.buf
    ensures r.len == s.len + 1 <= r.buf.Length && r.buf[..r.len] == old(s.buf[..s.len]) + [t]
    ensures r.buf == s.buf || fresh(r.buf)
  {
    if s.len < s.buf.Length {
      s.buf[s.len] := t;
      return Slice(s.buf, s.len + 1);
    }
    var capacity: nat :| capacity > s.len;
    var larger := new int[capacity];
    for i := 0 to s.len
      invariant s.buf[..] == old(s.buf[..]) && larger[..i] == s.buf[..i]
    {
      larger[i] := s.buf[i];
    }
    larger[s.len] := t;
    r := Slice(larger, s.len + 1);
  }

  // ---------- one key over a run ----------

  ghost predicate NonDecreasing(ts: seq<int>) {
    forall i, j :: 0 <= i < j < |ts| ==> ts[i] <= ts[j]
  }

  // What the limiter holds for a key after calls at ts.
  function Held(ts: seq<int>, n: int, window: int): seq<int> {
    if ts == [] then [] else Left(Held(ts[..|ts| - 1], n, window), n, window, ts[|ts| - 1])
  }

  // The answer to the last of the calls at ts.
  predicate Allows(ts: seq<int>, n: int, window: int)
    requires ts != []
  {
    |Fresh(Held(ts[..|ts| - 1], n, window), ts[|ts| - 1], window)| < n
  }

  // The times of all calls among ts that were allowed, never compacted.
  function Allowed(ts: seq<int>, n: int, window: int): seq<int> {
    if ts == [] then [] else
      Kept(Allowed(ts[..|ts| - 1], n, window), ts[|ts| - 1], Allows(ts, n, window))
  }

  lemma {:induction false} FreshTwice(hits: seq<int>, early: int, late: int, window: int)
    requires early <= late
    ensures Fresh(Fresh(hits, early, window), late, window) == Fresh(hits, late, window)
  {
    if hits != [] {
      var k := |hits| - 1;
      var f := Fresh(hits[..k], early, window);
      FreshTwice(hits[..k], early, late, window);
      FreshAppend(f, hits[k], late, window);
    }
  }

  lemma FreshAppend(hits: seq<int>, t: int, now: int, window: int)
    ensures Fresh(hits + [t], now, window) == Kept(Fresh(hits, now, window), t, now - t < window)
  {
    assert (hits + [t])[..|hits|] == hits;
  }

  lemma EarlierTimes(ts: seq<int>)
    requires NonDecreasing(ts) && ts != []
    ensures NonDecreasing(ts[..|ts| - 1]) && (|ts| > 1 ==> ts[..|ts| - 1][|ts| - 2] <= ts[|ts| - 1])
  {
  }

  // Compaction forgets nothing a later call would count.
  lemma {:induction false} HeldIsFreshAllowed(ts: seq<int>, n: int, window: int, now: int)
    requires NonDecreasing(ts) && (ts != [] ==> ts[|ts| - 1] <= now)
    ensures Fresh(Held(ts, n, window), now, window) == Fresh(Allowed(ts, n, window), now, window)
    decreases |ts|
  {
    if ts != [] {
      var k := |ts| - 1;
      var h, a, t := Held(ts[..k], n, window), Allowed(ts[..k], n, window), ts[k];
      hide Fresh;
      EarlierTimes(ts);
      HeldIsFreshAllowed(ts[..k], n, window, now);
      FreshTwice(h, t, now, window);
      FreshAppend(Fresh(h, t, window), t, now, window);
      FreshAppend(a, t, now, window);
    }
  }

  // A call is allowed exactly when fewer than n of all earlier calls were allowed less than window before it.
  lemma AllowsIff(ts: seq<int>, n: int, window: int)
    requires NonDecreasing(ts) && ts != []
    ensures Allows(ts, n, window) <==> |Fresh(Allowed(ts[..|ts| - 1], n, window), ts[|ts| - 1], window)| < n
  {
    EarlierTimes(ts);
    HeldIsFreshAllowed(ts[..|ts| - 1], n, window, ts[|ts| - 1]);
  }

  // How many of the times lie in lo <= t < hi.
  function Within(times: seq<int>, lo: int, hi: int): nat {
    if times == [] then 0 else
      var k := |times| - 1;
      Within(times[..k], lo, hi) + if lo <= times[k] < hi then 1 else 0
  }

  lemma {:induction false} WithinAtMostFresh(times: seq<int>, lo: int, window: int, now: int)
    requires lo <= now < lo + window
    ensures Within(times, lo, lo + window) <= |Fresh(times, now, window)|
  {
    if times != [] {
      WithinAtMostFresh(times[..|times| - 1], lo, window, now);
    }
  }

  // No interval of length window holds more than n allowed calls.
  lemma {:induction false} AtMostNPerWindow(ts: seq<int>, n: nat, window: int, lo: int)
    requires NonDecreasing(ts)
    ensures Within(Allowed(ts, n, window), lo, lo + window) <= n
    decreases |ts|
  {
    if ts != [] {
      var k := |ts| - 1;
      var a, t := Allowed(ts[..k], n, window), ts[k];
      EarlierTimes(ts);
      AtMostNPerWindow(ts[..k], n, window, lo);
      assert (a + [t])[..|a|] == a;
      hide Fresh;
      hide Held;
      assert Allowed(ts, n, window) == Kept(a, t, Allows(ts, n, window));
      if Allows(ts, n, window) && lo <= t < lo + window {
        AllowsIff(ts, n, window);
        WithinAtMostFresh(a, lo, window, t);
      }
    }
  }

  // ---------- many keys over a run ----------

  datatype Call = Call(key: string, now: int)
  datatype Rule = Rule(n: int, window: int)

  // What the limiter holds after the calls, each key under its own rule.
  function After(calls: seq<Call>, rules: string -> Rule): map<string, seq<int>> {
    if calls == [] then map[] else
      var before, c := After(calls[..|calls| - 1], rules), calls[|calls| - 1];
      before[c.key := Left(HeldFor(before, c.key), rules(c.key).n, rules(c.key).window, c.now)]
  }

  function TimesOf(calls: seq<Call>, key: string): seq<int> {
    if calls == [] then [] else
      var c := calls[|calls| - 1];
      Kept(TimesOf(calls[..|calls| - 1], key), c.now, c.key == key)
  }

  function HeldFor(m: map<string, seq<int>>, key: string): seq<int> { if key in m then m[key] else [] }

  // Keys do not disturb each other: what is held for one is what its own calls alone leave.
  lemma {:induction false} KeysAreIndependent(calls: seq<Call>, rules: string -> Rule, key: string)
    ensures HeldFor(After(calls, rules), key) == Held(TimesOf(calls, key), rules(key).n, rules(key).window)
  {
    hide Left;
    if calls != [] {
      var rest, c := calls[..|calls| - 1], calls[|calls| - 1];
      KeysAreIndependent(rest, rules, key);
      if c.key == key {
        HeldAppend(TimesOf(rest, key), c.now, rules(key).n, rules(key).window);
      }
    }
  }

  lemma HeldAppend(ts: seq<int>, t: int, n: int, window: int)
    ensures Held(ts + [t], n, window) == Left(Held(ts, n, window), n, window, t)
  {
    assert (ts + [t])[..|ts|] == ts;
  }

  // ---------- the window in plain numbers ----------

  lemma {:induction false} FreshIsWithin(times: seq<int>, now: int, window: int)
    requires forall i :: 0 <= i < |times| ==> times[i] <= now
    ensures |Fresh(times, now, window)| == Within(times, now - window + 1, now + 1)
  {
    if times != [] {
      FreshIsWithin(times[..|times| - 1], now, window);
    }
  }

  lemma {:induction false} AllowedAreEarlier(ts: seq<int>, n: int, window: int, now: int)
    requires forall i :: 0 <= i < |ts| ==> ts[i] <= now
    ensures forall i :: 0 <= i < |Allowed(ts, n, window)| ==> Allowed(ts, n, window)[i] <= now
    decreases |ts|
  {
    hide Allows;
    if ts != [] {
      AllowedAreEarlier(ts[..|ts| - 1], n, window, now);
    }
  }

  // A call at a time is allowed exactly when fewer than n calls were allowed in the window's length up to that time, the call that is
  // exactly a window old not counted.
  lemma AllowedIffFewerInWindow(ts: seq<int>, n: int, window: int)
    requires NonDecreasing(ts) && ts != []
    ensures var k := |ts| - 1; Allows(ts, n, window) <==> Within(Allowed(ts[..k], n, window), ts[k] - window + 1, ts[k] + 1) < n
  {
    hide Allows, Allowed, Fresh, Within;
    var k := |ts| - 1;
    AllowsIff(ts, n, window);
    AllowedAreEarlier(ts[..k], n, window, ts[k]);
    FreshIsWithin(Allowed(ts[..k], n, window), ts[k], window);
  }

  // The allowed calls are those calls, in order.
  lemma AllowedNext(ts: seq<int>, t: int, n: int, window: int)
    ensures Allowed(ts + [t], n, window) == if Allows(ts + [t], n, window) then Allowed(ts, n, window) + [t] else Allowed(ts, n, window)
  {
    assert (ts + [t])[..|ts|] == ts;
  }
}
