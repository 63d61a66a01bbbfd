// The functions of Go's strings package that several parts use. Letter case is ASCII only.
module GoText {

  // unicode.IsSpace
  predicate IsSpace(c: char) {
    '\t' <= c <= '\r' || c == ' ' || c == '\U{85}' || c == '\U{a0}' || c == '\U{1680}' || '\U{2000}' <= c <= '\U{200a}' ||
    c == '\U{2028}' || c == '\U{2029}' || c == '\U{202f}' || c == '\U{205f}' || c == '\U{3000}'
  }

  function TrimSpace(s: string): string
    decreases |s|
  {
    if s == "" then s
    else if IsSpace(s[0]) then TrimSpace(s[1..])
    else if IsSpace(s[|s| - 1]) then TrimSpace(s[..|s| - 1])
    else s
  }

  function ToLower(s: string): string {
    seq(|s|, i requires 0 <= i < |s| => if 'A' <= s[i] <= 'Z' then s[i] - 'A' + 'a' else s[i])
  }

  // strings.Split on one character.
  function Split(s: string, c: char): (r: seq<string>)
    ensures |r| > 0
  {
    if s == "" then [""]
    else
      var rest := Split(s[1..], c);
      if s[0] == c then [""] + rest else [[s[0]] + rest[0]] + rest[1..]
  }

  // strings.HasPrefix, HasSuffix, Contains and ReplaceAll
  predicate HasPrefix(s: string, p: string) { |p| <= |s| && s[..|p|] == p }
  predicate HasSuffix(s: string, p: string) { |p| <= |s| && s[|s| - |p|..] == p }
  predicate Contains(s: string, p: string) { HasPrefix(s, p) || (s != "" && Contains(s[1..], p)) }

  function ReplaceAll(s: string, old_: string, new_: string): string
    requires old_ != ""
  {
    if s == "" then "" else if HasPrefix(s, old_) then new_ + ReplaceAll(s[|old_|..], old_, new_)
    else [s[0]] + ReplaceAll(s[1..], old_, new_)
  }

  // ---------- what they give ----------

  // t is s from i to j, with only spaces before and after it and none at its ends.
  ghost predicate IsTrim(s: string, t: string, i: nat, j: nat) {
    i <= j <= |s| && t == s[i..j] && (forall k :: 0 <= k < i || j <= k < |s| ==> IsSpace(s[k])) &&
    (i < j ==> !IsSpace(s[i]) && !IsSpace(s[j - 1]))
  }

  // Trimming takes spaces from both ends, and all of them.
  lemma {:induction false} TrimSpaceIs(s: string) returns (i: nat, j: nat)
    ensures IsTrim(s, TrimSpace(s), i, j)
    decreases |s|
  {
    hide IsTrim, IsSpace;
    i, j := 0, |s|;
    if s == "" || (!IsSpace(s[0]) && !IsSpace(s[|s| - 1])) {
      TrimmedIs(s);
    } else if IsSpace(s[0]) {
      i, j := TrimSpaceIs(s[1..]);
      SpaceBefore(s, TrimSpace(s[1..]), i, j);
      i, j := i + 1, j + 1;
    } else {
      i, j := TrimSpaceIs(s[..|s| - 1]);
      SpaceBehind(s, TrimSpace(s[..|s| - 1]), i, j);
    }
  }

  lemma TrimmedIs(s: string)
    requires s == "" || (!IsSpace(s[0]) && !IsSpace(s[|s| - 1]))
    ensures IsTrim(s, s, 0, |s|)
  {
    hide IsSpace;
    assert s[0..|s|] == s;
  }

  lemma SpaceBefore(s: string, t: string, i: nat, j: nat)
    requires s != "" && IsSpace(s[0]) && IsTrim(s[1..], t, i, j)
    ensures IsTrim(s, t, i + 1, j + 1)
  {
    hide IsSpace;
    assert s[1..][i..j] == s[i + 1..j + 1];
    assert forall k :: 1 <= k < |s| ==> s[k] == s[1..][k - 1];
  }

  lemma SpaceBehind(s: string, t: string, i: nat, j: nat)
    requires s != "" && IsSpace(s[|s| - 1]) && IsTrim(s[..|s| - 1], t, i, j)
    ensures IsTrim(s, t, i, j)
  {
    hide IsSpace;
    assert s[..|s| - 1][i..j] == s[i..j];
    assert forall k :: 0 <= k < |s| - 1 ==> s[k] == s[..|s| - 1][k];
  }

  lemma ToLowerIs(s: string)
    ensures |ToLower(s)| == |s|
    ensures forall i :: 0 <= i < |s| ==>
      (ToLower(s)[i] as int == if 65 <= s[i] as int <= 90 then s[i] as int + 32 else s[i] as int)
  {
  }

  // The part before the first separator, and the parts of the rest.
  lemma {:induction false} SplitAt(part: string, c: char, rest: string)
    requires c !in part
    ensures Split(part + [c] + rest, c) == [part] + Split(rest, c)
  {
    var s := part + [c] + rest;
    if part == "" {
      assert s == [c] + rest && s[1..] == rest;
    } else {
      SplitAt(part[1..], c, rest);
      assert s[1..] == part[1..] + [c] + rest && s[0] == part[0] && part[0] in part;
      assert [part[0]] + part[1..] == part;
    }
  }

  lemma {:induction false} SplitNone(s: string, c: char)
    requires c !in s
    ensures Split(s, c) == [s]
  {
    if s != "" {
      assert s[0] in s && s == [s[0]] + s[1..];
      SplitNone(s[1..], c);
    }
  }

  // p stands in s at i.
  predicate StandsAt(s: string, p: string, i: nat) { i + |p| <= |s| && s[i..i + |p|] == p }

  lemma {:induction false} ContainsIff(s: string, p: string)
    ensures Contains(s, p) <==> exists i: nat :: StandsAt(s, p, i)
  {
    assert HasPrefix(s, p) <==> StandsAt(s, p, 0);
    if s != "" {
      ContainsIff(s[1..], p);
      if i: nat :| StandsAt(s[1..], p, i) {
        assert s[1..][i..i + |p|] == s[i + 1..i + 1 + |p|];
        assert StandsAt(s, p, i + 1);
      }
      if i: nat :| StandsAt(s, p, i) {
        if i > 0 {
          assert s[1..][i - 1..i - 1 + |p|] == s[i..i + |p|];
          assert StandsAt(s[1..], p, i - 1);
        }
      }
    }
  }

  lemma ReplaceStep(s: string, old_: string, new_: string)
    requires old_ != "" && s != "" && !HasPrefix(s, old_)
    ensures ReplaceAll(s, old_, new_) == [s[0]] + ReplaceAll(s[1..], old_, new_)
  {
  }

  // The first occurrence is replaced, and what follows it is treated alike.
  lemma {:induction false} ReplaceFirst(before: string, old_: string, rest: string, new_: string)
    requires old_ != "" && forall i: nat :: i < |before| ==> !StandsAt(before + old_ + rest, old_, i)
    ensures ReplaceAll(before + old_ + rest, old_, new_) == before + new_ + ReplaceAll(rest, old_, new_)
  {
    var s := before + old_ + rest;
    if before == "" {
      assert s == old_ + rest && s[..|old_|] == old_ && s[|old_|..] == rest;
    } else {
      hide ReplaceAll;
      var tail := before[1..];
      assert s[1..] == tail + old_ + rest && !StandsAt(s, old_, 0);
      forall i: nat | i < |tail|
        ensures !StandsAt(tail + old_ + rest, old_, i)
      {
        assert !StandsAt(s, old_, i + 1);
        assert i + |old_| <= |s[1..]| ==> s[1..][i..i + |old_|] == s[i + 1..i + 1 + |old_|];
      }
      ReplaceFirst(tail, old_, rest, new_);
      ReplaceStep(s, old_, new_);
      assert [before[0]] + (tail + new_ + ReplaceAll(rest, old_, new_)) == before + new_ + ReplaceAll(rest, old_, new_);
    }
  }

  lemma {:induction false} ReplaceNone(s: string, old_: string, new_: string)
    requires old_ != "" && forall i: nat :: !StandsAt(s, old_, i)
    ensures ReplaceAll(s, old_, new_) == s
  {
    ContainsIff(s, old_);
    NotContained(s, old_, new_);
  }

  lemma {:induction false} NotContained(s: string, old_: string, new_: string)
    requires old_ != "" && !Contains(s, old_)
    ensures ReplaceAll(s, old_, new_) == s
  {
    if s != "" {
      NotContained(s[1..], old_, new_);
    }
  }
}
