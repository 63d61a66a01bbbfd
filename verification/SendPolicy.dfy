// The answers to the mail server's policy requests (internal/mail/policy.go, lines 40-104) and the counter files behind them. Days are
// given as text, as the directory of the counter is named.
module SendPolicy {
  import opened GoText
  import opened SharedTypes
  import opened SendLimitsFile

  // ---------- the daily counters ----------

  datatype CountKey = CountKey(day: string, account: string)
  datatype Action = Dunno | Reject
  // How counting ends early: before the file is touched, or between emptying and writing it.
  datatype Fault = NoFault | Refused | Emptied

  // The first row whose address is the sender or the login.
  function Lookup(rows: seq<LimitRow>, sender: string, sasl: string): Option<LimitRow> {
    if rows == [] then None
    else if rows[0].address == ToLower(TrimSpace(sender)) || rows[0].address == ToLower(TrimSpace(sasl)) then Some(rows[0])
    else Lookup(rows[1..], sender, sasl)
  }

  method LookupLimit(rows: seq<LimitRow>, sender: string, sasl: string) returns (row: Option<LimitRow>)
    ensures row == Lookup(rows, sender, sasl)
  {
    var from, login := ToLower(TrimSpace(sender)), ToLower(TrimSpace(sasl));
    for i := 0 to |rows|
      invariant Lookup(rows[i..], sender, sasl) == Lookup(rows, sender, sasl)
    {
      assert rows[i..][1..] == rows[i + 1..];
      if rows[i].address == from || rows[i].address == login {
        return Some(rows[i]);
      }
    }
    row := None;
  }

  // What a counter file holds; a file that cannot be read as a number counts from zero.
  function Held(content: string): int {
    match Atoi(TrimSpace(Split(content, '\n')[0])) case None => 0 case Some(n) => n
  }

  lemma HeldBack(n: int)
    ensures Held(Itoa(n) + "\n") == n
  {
    var s := Itoa(n);
    AtoiItoa(n);
    SplitLine(s, "");
    assert s + "\n" + "" == s + "\n";
    WordIsTrimmed(s);
  }

  lemma WordIsTrimmed(s: string)
    requires IsWord(s)
    ensures TrimSpace(s) == s
  {
    assert s[0] in s && s[|s| - 1] in s;
  }

  class Policy {
    var limits: Option<string>
    var counts: map<CountKey, string>

    function Used(key: CountKey): int
      reads this
    {
      if key in counts then Held(counts[key]) else 0
    }

    method BumpCount(key: CountKey, fault: Fault) returns (n: Option<int>)
      modifies this`counts
      ensures fault == NoFault ==> n == Some(old(Used(key)) + 1) && Used(key) == old(Used(key)) + 1
      ensures fault != NoFault ==> n == None && Used(key) == if fault == Refused then old(Used(key)) else 0
      ensures forall other :: other != key ==> Used(other) == old(Used(other))
    {
      hide Held;
      if fault == Refused {
        return None;
      }
      var held := if key in counts then Held(counts[key]) else 0;
      counts := counts[key := ""];
      if fault == Emptied {
        BlankHoldsNothing();
        return None;
      }
      counts := counts[key := Itoa(held + 1) + "\n"];
      HeldBack(held + 1);
      n := Some(held + 1);
    }

    method Decide(sender: string, sasl: string, day: string, fault: Fault) returns (action: Action, failed: bool)
      modifies this`counts
      ensures Hits(limits, Message(sender, sasl, day)).None? ==> action == Dunno && !failed && counts == old(counts)
      ensures Hits(limits, Message(sender, sasl, day)).Some? ==>
        var hit := Hits(limits, Message(sender, sasl, day)).value;
        failed == (fault != NoFault) && (action == Reject <==> !failed && old(Used(hit.key)) >= hit.limit) &&
        Used(hit.key) == (match fault case NoFault => old(Used(hit.key)) + 1 case Refused => old(Used(hit.key)) case Emptied => 0) &&
        forall other :: other != hit.key ==> Used(other) == old(Used(other))
    {
      hide Lookup, ParsedLines, Split, Held;
      if limits.None? {
        NoRows(Message(sender, sasl, day));
        return Dunno, false;
      }
      var rows := ParseSendLimits(limits.value);
      var row := LookupLimit(rows, sender, sasl);
      if row.None? || row.value.limit <= 0 {
        return Dunno, false;
      }
      var used := BumpCount(CountKey(day, row.value.account), fault);
      if used.None? {
        return Dunno, true;
      }
      if used.value > row.value.limit {
        return Reject, false;
      }
      return Dunno, false;
    }
  }

  lemma BlankHoldsNothing()
    ensures Held("") == 0
  {
    assert Split("", '\n') == [""];
  }

  // ---------- a run of messages ----------

  datatype Message = Message(sender: string, sasl: string, day: string)
  datatype Hit = Hit(key: CountKey, limit: int)

  // The counter and the limit a message falls under.
  function Limited(rows: seq<LimitRow>, m: Message): Option<Hit> {
    var row := Lookup(rows, m.sender, m.sasl);
    if row.None? || row.value.limit <= 0 then None else Some(Hit(CountKey(m.day, row.value.account), row.value.limit))
  }

  // The same, from the limits file; None is no such file.
  function RowsIn(limits: Option<string>): seq<LimitRow> {
    if limits.None? then [] else ParsedLines(Split(limits.value, '\n'))
  }

  function Hits(limits: Option<string>, m: Message): Option<Hit> { Limited(RowsIn(limits), m) }

  lemma NoRows(m: Message)
    ensures Limited([], m) == None
  {
  }

  function UsedIn(used: map<CountKey, int>, key: CountKey): int { if key in used then used[key] else 0 }

  // The counters after the messages, as Decide moves them.
  function After(rows: seq<LimitRow>, ms: seq<Message>): map<CountKey, int> {
    if ms == [] then map[] else
      var k := |ms| - 1;
      var used, hit := After(rows, ms[..k]), Limited(rows, ms[k]);
      if hit.None? then used else used[hit.value.key := UsedIn(used, hit.value.key) + 1]
  }

  // Whether the last message is rejected.
  predicate Rejected(rows: seq<LimitRow>, ms: seq<Message>)
    requires ms != []
  {
    var k := |ms| - 1;
    var hit := Limited(rows, ms[k]);
    hit.Some? && UsedIn(After(rows, ms[..k]), hit.value.key) >= hit.value.limit
  }

  predicate Falls(rows: seq<LimitRow>, m: Message, key: CountKey) {
    Limited(rows, m).Some? && Limited(rows, m).value.key == key
  }

  // How many messages fell under the counter, and how many of those were let through.
  function Tally(rows: seq<LimitRow>, ms: seq<Message>, key: CountKey): nat {
    if ms == [] then 0 else Tally(rows, ms[..|ms| - 1], key) + if Falls(rows, ms[|ms| - 1], key) then 1 else 0
  }

  function Passed(rows: seq<LimitRow>, ms: seq<Message>, key: CountKey): nat {
    if ms == [] then 0 else
      Passed(rows, ms[..|ms| - 1], key) + if Falls(rows, ms[|ms| - 1], key) && !Rejected(rows, ms) then 1 else 0
  }

  lemma {:induction false} UsedIsTally(rows: seq<LimitRow>, ms: seq<Message>, key: CountKey)
    ensures UsedIn(After(rows, ms), key) == Tally(rows, ms, key)
  {
    hide Limited;
    if ms != [] {
      UsedIsTally(rows, ms[..|ms| - 1], key);
    }
  }

  // A message is rejected exactly when the messages before it that fell under its counter already make up the limit.
  lemma RejectedIff(rows: seq<LimitRow>, ms: seq<Message>)
    requires ms != []
    ensures var m, before := ms[|ms| - 1], ms[..|ms| - 1]; var hit := Limited(rows, m);
      Rejected(rows, ms) <==> hit.Some? && Tally(rows, before, hit.value.key) >= hit.value.limit
  {
    hide Limited, Tally, After;
    var hit := Limited(rows, ms[|ms| - 1]);
    if hit.Some? {
      UsedIsTally(rows, ms[..|ms| - 1], hit.value.key);
    }
  }

  lemma {:induction false} LookupIsRow(rows: seq<LimitRow>, sender: string, sasl: string)
    ensures Lookup(rows, sender, sasl).Some? ==> Lookup(rows, sender, sasl).value in rows
  {
    if rows != [] {
      LookupIsRow(rows[1..], sender, sasl);
    }
  }

  // Over any run, an account whose rows all carry one limit gets exactly that many messages through in a day, or all if there are fewer.
  lemma {:induction false} PassedIsCapped(rows: seq<LimitRow>, ms: seq<Message>, key: CountKey, limit: nat)
    requires forall r :: r in rows && r.account == key.account ==> r.limit == limit
    ensures Passed(rows, ms, key) == if Tally(rows, ms, key) <= limit then Tally(rows, ms, key) else limit
  {
    hide Lookup, Rejected;
    if ms != [] {
      var m := ms[|ms| - 1];
      PassedIsCapped(rows, ms[..|ms| - 1], key, limit);
      RejectedIff(rows, ms);
      LookupIsRow(rows, m.sender, m.sasl);
    }
  }

  // What one more message does to the run's counters, and whether it is rejected.
  lemma RunStep(rows: seq<LimitRow>, ms: seq<Message>, i: nat)
    requires i < |ms|
    ensures var used, hit := After(rows, ms[..i]), Limited(rows, ms[i]);
      (Rejected(rows, ms[..i + 1]) <==> hit.Some? && UsedIn(used, hit.value.key) >= hit.value.limit) &&
      After(rows, ms[..i + 1]) == if hit.None? then used else used[hit.value.key := UsedIn(used, hit.value.key) + 1]
  {
    hide Limited;
    assert ms[..i + 1][..i] == ms[..i] && ms[..i + 1][i] == ms[i];
  }

  lemma NothingUsed(rows: seq<LimitRow>, ms: seq<Message>)
    ensures After(rows, ms[..0]) == map[]
  {
  }

  // From no counters on, the policy answers one message after another: the answers are those of the run, and so are the counters.
  method DecideAll(policy: Policy, ms: seq<Message>) returns (answers: seq<Action>)
    requires policy.counts == map[]
    modifies policy`counts
    ensures |answers| == |ms|
    ensures forall i :: 0 <= i < |ms| ==> (answers[i] == Reject <==> Rejected(RowsIn(policy.limits), ms[..i + 1]))
    ensures forall key :: policy.Used(key) == Tally(RowsIn(policy.limits), ms, key)
  {
    hide Limited, RowsIn, Rejected, After, Tally, Held;
    ghost var rows := RowsIn(policy.limits);
    answers := [];
    NothingUsed(rows, ms);
    for i := 0 to |ms|
      invariant |answers| == i
      invariant forall j :: 0 <= j < i ==> (answers[j] == Reject <==> Rejected(rows, ms[..j + 1]))
      invariant forall key :: policy.Used(key) == UsedIn(After(rows, ms[..i]), key)
    {
      RunStep(rows, ms, i);
      assert Message(ms[i].sender, ms[i].sasl, ms[i].day) == ms[i];
      var action, failed := policy.Decide(ms[i].sender, ms[i].sasl, ms[i].day, NoFault);
      answers := answers + [action];
    }
    assert ms[..|ms|] == ms;
    forall key
      ensures policy.Used(key) == Tally(rows, ms, key)
    {
      UsedIsTally(rows, ms, key);
    }
  }

  // ---------- the row that decides ----------

  // The row's address is the sender or the login, trimmed and in small letters.
  predicate IsFor(row: LimitRow, sender: string, sasl: string) {
    row.address == ToLower(TrimSpace(sender)) || row.address == ToLower(TrimSpace(sasl))
  }

  // The row found is the first that is for the sender or the login; there is none exactly if no row is.
  lemma {:induction false} LookupIsFirst(rows: seq<LimitRow>, sender: string, sasl: string)
    ensures Lookup(rows, sender, sasl) == None <==> forall i :: 0 <= i < |rows| ==> !IsFor(rows[i], sender, sasl)
    ensures forall i :: 0 <= i < |rows| && IsFor(rows[i], sender, sasl) && (forall j :: 0 <= j < i ==> !IsFor(rows[j], sender, sasl)) ==>
      Lookup(rows, sender, sasl) == Some(rows[i])
  {
    if rows != [] {
      LookupIsFirst(rows[1..], sender, sasl);
      forall i | 0 <= i < |rows| && IsFor(rows[i], sender, sasl) && (forall j :: 0 <= j < i ==> !IsFor(rows[j], sender, sasl))
        ensures Lookup(rows, sender, sasl) == Some(rows[i])
      {
        if i > 0 {
          assert !IsFor(rows[0], sender, sasl) && rows[1..][i - 1] == rows[i];
          assert forall j :: 0 <= j < i - 1 ==> rows[1..][j] == rows[j + 1];
        }
      }
      if forall i :: 0 <= i < |rows| ==> !IsFor(rows[i], sender, sasl) {
        assert !IsFor(rows[0], sender, sasl) && forall i :: 0 <= i < |rows| - 1 ==> rows[1..][i] == rows[i + 1];
      }
    }
  }

  // A message is limited by the first row for it if that row's limit is positive, on the counter of its day and the row's account.
  lemma LimitedIs(rows: seq<LimitRow>, m: Message, i: nat)
    requires i < |rows| && IsFor(rows[i], m.sender, m.sasl) && forall j :: 0 <= j < i ==> !IsFor(rows[j], m.sender, m.sasl)
    ensures Limited(rows, m) == if rows[i].limit > 0 then Some(Hit(CountKey(m.day, rows[i].account), rows[i].limit)) else None
  {
    LookupIsFirst(rows, m.sender, m.sasl);
  }

  // Of the same message sent again and again, one more is rejected exactly if it is above the limit.
  lemma FirstOverTheLimit(row: LimitRow, m: Message, ms: seq<Message>)
    requires row.limit > 0 && IsFor(row, m.sender, m.sasl) && ms != [] && forall i :: 0 <= i < |ms| ==> ms[i] == m
    ensures Rejected([row], ms) <==> |ms| > row.limit
  {
    LimitedIs([row], m, 0);
    RejectedIff([row], ms);
    SameMessages([row], m, ms[..|ms| - 1], CountKey(m.day, row.account));
  }

  lemma {:induction false} SameMessages(rows: seq<LimitRow>, m: Message, ms: seq<Message>, key: CountKey)
    requires Falls(rows, m, key) && forall i :: 0 <= i < |ms| ==> ms[i] == m
    ensures Tally(rows, ms, key) == |ms|
    decreases |ms|
  {
    if ms != [] {
      SameMessages(rows, m, ms[..|ms| - 1], key);
    }
  }
}
