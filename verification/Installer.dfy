// The resumable installer (installer/phases/runner.go, lines 23-125; installer/phases/phases.go, lines 41-113) under failures and stops
// at any point: a state file that claims no more than what was done.
module Installer {
  import opened SharedTypes

  // The strings "running", "complete" and "failed".
  datatype Status = Running | Complete | Failed

  datatype State = State(phases: map<string, Status>, fingerprints: map<string, string>, attempts: map<string, nat>)

  const EMPTY := State(map[], map[], map[])

  // How a call into a phase or the log ends; Stops is the process ending in or right after it.
  datatype Step = Done | Fails | Stops
  // How writing the state file ends: before or after the rename that replaces it.
  datatype Save = Saved | NotSaved | SavedThenFails | StopsBefore | StopsAfter
  // What one visit to a phase meets.
  datatype Luck = Luck(held: Step, noted: Step, runningSave: Save, started: Step, check: Step, apply: Step, verify: Step,
                       completeSave: Save, completed: Step, failedSave: Save)

  datatype Outcome = Success | Error | Stopped

  datatype Event = Checked(name: string, ok: bool)
                 | Applied(name: string, fingerprint: string, ok: bool)
                 | Verified(name: string, fingerprint: string, ok: bool)

  // What the state file records of a phase.
  datatype Entry = Entry(status: Option<Status>, fingerprint: Option<string>, attempts: nat)

  function Get<T>(m: map<string, T>, name: string): Option<T> { if name in m then Some(m[name]) else None }

  function EntryOf(st: State, name: string): Entry {
    Entry(Get(st.phases, name), Get(st.fingerprints, name), if name in st.attempts then st.attempts[name] else 0)
  }

  function Loaded(disk: Option<State>): State { if disk.None? then EMPTY else disk.value }

  predicate CompleteWith(st: State, name: string, fingerprint: string) {
    EntryOf(st, name).status == Some(Complete) && EntryOf(st, name).fingerprint == Some(fingerprint)
  }

  // ---------- what the state file vouches for ----------

  // At i the phase was applied with success, right after a check, at j verified with success, and it was never applied again.
  ghost predicate Proof(log: seq<Event>, name: string, fingerprint: string, i: nat, j: nat) {
    0 < i < j < |log| && log[i - 1] == Checked(name, true) && log[i] == Applied(name, fingerprint, true) &&
    log[j] == Verified(name, fingerprint, true) && forall k :: i < k < |log| ==> !(log[k].Applied? && log[k].name == name)
  }

  ghost predicate Proved(log: seq<Event>, name: string, fingerprint: string) {
    exists i: nat, j: nat :: Proof(log, name, fingerprint, i, j)
  }

  function Applications(log: seq<Event>, name: string): nat {
    if log == [] then 0 else
      var e := log[|log| - 1];
      Applications(log[..|log| - 1], name) + if e.Applied? && e.name == name then 1 else 0
  }

  ghost predicate Vouched(st: State, log: seq<Event>, name: string) {
    var e := EntryOf(st, name);
    Applications(log, name) <= e.attempts &&
    (e.status == Some(Complete) ==> e.fingerprint.Some? && Proved(log, name, e.fingerprint.value))
  }

  // Every phase recorded as complete was last applied, then verified, under the recorded fingerprint; and no application went uncounted.
  ghost predicate Honest(disk: Option<State>, log: seq<Event>) {
    forall name :: Vouched(Loaded(disk), log, name)
  }

  lemma LongerLog(st: State, log: seq<Event>, e: Event, name: string)
    requires Vouched(st, log, name)
    requires e.Applied? ==> e.name != name
    ensures Vouched(st, log + [e], name)
  {
    var longer := log + [e];
    assert longer[..|log|] == log;
    if EntryOf(st, name).status == Some(Complete) {
      var f := EntryOf(st, name).fingerprint.value;
      var i: nat, j: nat :| Proof(log, name, f, i, j);
      assert Proof(longer, name, f, i, j);
    }
  }

  // An event that applies nothing, or applies a phase that is recorded as running and counted.
  lemma HonestLonger(disk: Option<State>, log: seq<Event>, e: Event)
    requires Honest(disk, log)
    requires e.Applied? ==>
      var entry := EntryOf(Loaded(disk), e.name);
      entry.status != Some(Complete) && Applications(log, e.name) < entry.attempts
    ensures Honest(disk, log + [e])
  {
    forall name
      ensures Vouched(Loaded(disk), log + [e], name)
    {
      assert Vouched(Loaded(disk), log, name);
      if e.Applied? && e.name == name {
        assert (log + [e])[..|log|] == log;
      } else {
        LongerLog(Loaded(disk), log, e, name);
      }
    }
  }

  // Replacing the record of one phase keeps what is vouched for the others.
  lemma HonestRecord(disk: Option<State>, st: State, log: seq<Event>, name: string)
    requires Honest(disk, log) && Vouched(st, log, name)
    requires forall other :: other != name ==> EntryOf(st, other) == EntryOf(Loaded(disk), other)
    ensures Honest(Some(st), log)
  {
    forall other
      ensures Vouched(st, log, other)
    {
      assert Vouched(Loaded(disk), log, other);
    }
  }

  lemma ThreeEvents(log: seq<Event>, name: string, fingerprint: string)
    ensures var l := log + [Checked(name, true)] + [Applied(name, fingerprint, true)] + [Verified(name, fingerprint, true)];
      Proved(l, name, fingerprint)
  {
    var l := log + [Checked(name, true)] + [Applied(name, fingerprint, true)] + [Verified(name, fingerprint, true)];
    assert Proof(l, name, fingerprint, |log| + 1, |log| + 2);
  }

  // ---------- the runner ----------

  class Installation {
    var disk: Option<State>
    ghost var log: seq<Event>

    ghost predicate Valid()
      reads this
    {
      Honest(disk, log)
    }

    constructor ()
      ensures Valid() && disk == None && log == []
    {
      disk, log := None, [];
    }

    // State.Save writes a temporary file and renames it.
    method SaveState(st: State, save: Save) returns (r: Step)
      modifies this`disk
      ensures disk == if save == NotSaved || save == StopsBefore then old(disk) else Some(st)
      ensures r == if save == Saved then Done else if save == StopsBefore || save == StopsAfter then Stops else Fails
    {
      if save == StopsBefore {
        return Stops;
      }
      if save == NotSaved {
        return Fails;
      }
      disk := Some(st);
      r := if save == Saved then Done else if save == StopsAfter then Stops else Fails;
    }

    method FailPhase(st: State, name: string, save: Save) returns (r: Outcome)
      requires Valid() && disk == Some(st) && EntryOf(st, name).status != Some(Complete)
      modifies this`disk
      ensures Valid() && r != Success
      ensures disk == Some(if Writes(save) then st.(phases := st.phases[name := Failed]) else st)
    {
      var failed := st.(phases := st.phases[name := Failed]);
      assert Vouched(Loaded(disk), log, name);
      HonestRecord(disk, failed, log, name);
      var saved := SaveState(failed, save);
      r := if saved == Stops then Stopped else Error;
    }

    // luck(i) is what the visit to the i-th phase meets; opens says whether the state and the log could be opened. at is the phase the
    // run ended in.
    method Run(names: seq<string>, fingerprint: string -> string, opens: bool, luck: nat -> Luck) returns (r: Outcome, ghost at: nat)
      requires Valid()
      modifies this
      ensures Valid() && at <= |names| && (r == Success <==> opens && at == |names|)
      ensures !opens ==> disk == old(disk) && log == old(log)
      ensures forall i :: 0 <= i < at && (at < |names| ==> names[i] != names[at]) ==> CompleteWith(Loaded(disk), names[i], fingerprint(names[i]))
      ensures forall name :: name !in names[..at] && (at < |names| ==> name != names[at]) ==>
        EntryOf(Loaded(disk), name) == EntryOf(Loaded(old(disk)), name)
      ensures opens && AllHold(Loaded(old(disk)), names, fingerprint, luck) ==>
        r == Success && disk == old(disk) && log == old(log) + Verifications(names, fingerprint)
      ensures opens && (forall i :: 0 <= i < |names| ==> AllWell(luck(i))) ==> r == Success
    {
      hide AllWell, Honest, EntryOf, Succeeds, EntryAfter, CompleteWith, AllHold, Skips, Verifications;
      if !opens {
        return Error, 0;
      }
      ghost var first := disk;
      ghost var easy := AllHold(Loaded(disk), names, fingerprint, luck);
      VerificationsStart(names, fingerprint);
      var st := Loaded(disk);
      for i := 0 to |names|
        invariant Valid() && st == Loaded(disk)
        invariant forall j :: 0 <= j < i ==> CompleteWith(Loaded(disk), names[j], fingerprint(names[j]))
        invariant forall name :: name !in names[..i] ==> EntryOf(Loaded(disk), name) == EntryOf(Loaded(first), name)
        invariant easy ==> disk == first && log == old(log) + Verifications(names[..i], fingerprint)
      {
        assert names[..i + 1] == names[..i] + [names[i]];
        VerificationsGrow(names, fingerprint, i);
        if easy {
          HoldsAt(Loaded(first), names, fingerprint, luck, i);
        }
        ghost var before := disk;
        WellSucceeds(EntryOf(st, names[i]), fingerprint(names[i]), luck(i));
        st, r := Visit(names[i], fingerprint(names[i]), st, luck(i));
        OthersStay(before, disk, names, fingerprint, i);
        if r != Success {
          return r, i;
        }
      }
      assert names[..|names|] == names;
      return Success, |names|;
    }

    // One turn of the loop in Run. st is the state in memory.
    method Visit(name: string, fingerprint: string, st: State, luck: Luck) returns (next: State, r: Outcome)
      requires Valid() && st == Loaded(disk)
      modifies this
      ensures Valid() && (r == Success ==> next == Loaded(disk) && CompleteWith(next, name, fingerprint))
      ensures r == Success <==> Succeeds(EntryOf(st, name), fingerprint, luck)
      ensures EntryOf(Loaded(disk), name) == EntryAfter(EntryOf(st, name), fingerprint, luck)
      ensures forall other :: other != name ==> EntryOf(Loaded(disk), other) == EntryOf(st, other)
      ensures Skips(EntryOf(st, name), fingerprint, luck) ==> disk == old(disk) && log == old(log) + [Verified(name, fingerprint, true)]
      // A phase that is not complete, or no longer verifies, is checked, applied and verified, in this order.
      ensures AllWell(luck) && !(CompleteWith(st, name, fingerprint) && luck.held == Done) ==>
        r == Success && EntryOf(next, name) == Entry(Some(Complete), Some(fingerprint), EntryOf(st, name).attempts + 1) &&
        log == old(log) + (if CompleteWith(st, name, fingerprint) then [Verified(name, fingerprint, false)] else []) +
          [Checked(name, true), Applied(name, fingerprint, true), Verified(name, fingerprint, true)]
    {
      hide Honest, Vouched, Proved, Applications;
      next := st;
      if st.phases.Keys >= {name} && st.phases[name] == Complete && name in st.fingerprints && st.fingerprints[name] == fingerprint {
        HonestLonger(disk, log, Verified(name, fingerprint, luck.held == Done));
        log := log + [Verified(name, fingerprint, luck.held == Done)];
        if luck.held == Stops {
          return next, Stopped;
        }
        if luck.noted != Done {
          return next, if luck.noted == Stops then Stopped else Error;
        }
        if luck.held == Done {
          return next, Success;
        }
      }
      var attempts := if name in st.attempts then st.attempts[name] else 0;
      next := State(st.phases[name := Running], st.fingerprints, st.attempts[name := attempts + 1]);
      CountedAndRunning(disk, next, log, name);
      var saved := SaveState(next, luck.runningSave);
      if saved != Done {
        return next, if saved == Stops then Stopped else Error;
      }
      next, r := Perform(name, fingerprint, next, luck);
    }

    // From the log line that the phase starts to the one that it is complete.
    method Perform(name: string, fingerprint: string, st: State, luck: Luck) returns (next: State, r: Outcome)
      requires Valid() && disk == Some(st) && EntryOf(st, name).status == Some(Running)
      requires Applications(log, name) < EntryOf(st, name).attempts && luck.runningSave == Saved
      modifies this
      ensures Valid() && (r == Success ==> disk == Some(next))
      ensures r == Success <==> Carried(luck) && luck.completeSave == Saved && luck.completed == Done
      ensures EntryOf(Loaded(disk), name) == Performed(EntryOf(st, name), fingerprint, luck)
      ensures forall other :: other != name ==> EntryOf(Loaded(disk), other) == EntryOf(st, other)
      ensures Carried(luck) ==> log == old(log) + [Checked(name, true), Applied(name, fingerprint, true), Verified(name, fingerprint, true)]
    {
      hide Honest, Vouched, Proved, Applications;
      next := st;
      if luck.started != Done {
        return next, if luck.started == Stops then Stopped else Error;
      }
      ghost var before := log;
      AttemptStays(disk, log, name, Checked(name, luck.check == Done));
      log := log + [Checked(name, luck.check == Done)];
      if luck.check == Stops {
        return next, Stopped;
      }
      if luck.check == Fails {
        r := FailPhase(next, name, luck.failedSave);
        return;
      }
      HonestLonger(disk, log, Applied(name, fingerprint, luck.apply == Done));
      log := log + [Applied(name, fingerprint, luck.apply == Done)];
      if luck.apply == Stops {
        return next, Stopped;
      }
      if luck.apply == Fails {
        r := FailPhase(next, name, luck.failedSave);
        return;
      }
      HonestLonger(disk, log, Verified(name, fingerprint, luck.verify == Done));
      log := log + [Verified(name, fingerprint, luck.verify == Done)];
      if luck.verify == Stops {
        return next, Stopped;
      }
      if luck.verify == Fails {
        r := FailPhase(next, name, luck.failedSave);
        return;
      }
      ThreeEvents(before, name, fingerprint);
      next := next.(phases := next.phases[name := Complete], fingerprints := next.fingerprints[name := fingerprint]);
      CompleteIsHonest(disk, next, log, name);
      var saved := SaveState(next, luck.completeSave);
      if saved != Done {
        return next, if saved == Stops then Stopped else Error;
      }
      r := if luck.completed == Done then Success else if luck.completed == Stops then Stopped else Error;
    }
  }

  predicate Writes(save: Save) { save != NotSaved && save != StopsBefore }

  // Every step the visit may come to is done and every save succeeds; the verification of a complete phase may fail, but not stop.
  predicate AllWell(luck: Luck) {
    luck.held != Stops && luck.noted == Done && luck.runningSave == Saved && luck.started == Done && luck.check == Done && luck.apply == Done &&
    luck.verify == Done && luck.completeSave == Saved && luck.completed == Done
  }

  predicate Skips(e: Entry, fingerprint: string, luck: Luck) {
    e.status == Some(Complete) && e.fingerprint == Some(fingerprint) && luck.held == Done
  }

  // The visit gets to the point where the phase is recorded as running.
  predicate Begins(e: Entry, fingerprint: string, luck: Luck) {
    e.status == Some(Complete) && e.fingerprint == Some(fingerprint) ==> luck.held == Fails && luck.noted == Done
  }

  predicate Carried(luck: Luck) {
    luck.runningSave == Saved && luck.started == Done && luck.check == Done && luck.apply == Done && luck.verify == Done
  }

  predicate Broke(luck: Luck) {
    luck.runningSave == Saved && luck.started == Done &&
    (luck.check == Fails || (luck.check == Done && (luck.apply == Fails || (luck.apply == Done && luck.verify == Fails))))
  }

  predicate Succeeds(e: Entry, fingerprint: string, luck: Luck) {
    if Skips(e, fingerprint, luck) then luck.noted == Done
    else Begins(e, fingerprint, luck) && Carried(luck) && luck.completeSave == Saved && luck.completed == Done
  }

  function Performed(e: Entry, fingerprint: string, luck: Luck): Entry {
    if Carried(luck) && Writes(luck.completeSave) then Entry(Some(Complete), Some(fingerprint), e.attempts)
    else if Broke(luck) && Writes(luck.failedSave) then e.(status := Some(Failed))
    else e
  }

  lemma WellSucceeds(e: Entry, fingerprint: string, luck: Luck)
    ensures AllWell(luck) ==> Succeeds(e, fingerprint, luck)
  {
  }

  predicate OneFails(check: Step, apply: Step, verify: Step) {
    check == Fails || (check == Done && apply == Fails) || (check == Done && apply == Done && verify == Fails)
  }

  // What stays on record when a phase fails, or when the process ends while it is applied.
  lemma FailuresOnRecord(e: Entry, fingerprint: string, luck: Luck)
    requires e.status != Some(Complete) && luck.runningSave == Saved && luck.started == Done
    ensures luck.failedSave == Saved && OneFails(luck.check, luck.apply, luck.verify) ==>
      EntryAfter(e, fingerprint, luck) == Entry(Some(Failed), e.fingerprint, e.attempts + 1) && !Succeeds(e, fingerprint, luck)
    ensures luck.check == Done && luck.apply == Stops ==>
      EntryAfter(e, fingerprint, luck) == Entry(Some(Running), e.fingerprint, e.attempts + 1) && !Succeeds(e, fingerprint, luck)
  {
  }

  // Every phase is recorded as complete under its fingerprint and verifies again.
  predicate AllHold(st: State, names: seq<string>, fingerprint: string -> string, luck: nat -> Luck) {
    forall i :: 0 <= i < |names| ==> Skips(EntryOf(st, names[i]), fingerprint(names[i]), luck(i)) && luck(i).noted == Done
  }

  lemma HoldsAt(st: State, names: seq<string>, fingerprint: string -> string, luck: nat -> Luck, i: nat)
    requires AllHold(st, names, fingerprint, luck) && i < |names|
    ensures Skips(EntryOf(st, names[i]), fingerprint(names[i]), luck(i)) && Succeeds(EntryOf(st, names[i]), fingerprint(names[i]), luck(i))
  {
  }

  // Phases already visited stay complete unless the visited phase has the same name.
  lemma OthersStay(before: Option<State>, after: Option<State>, names: seq<string>, fingerprint: string -> string, i: nat)
    requires i < |names| && forall other :: other != names[i] ==> EntryOf(Loaded(after), other) == EntryOf(Loaded(before), other)
    ensures forall j :: 0 <= j < i && names[j] != names[i] && CompleteWith(Loaded(before), names[j], fingerprint(names[j])) ==>
      CompleteWith(Loaded(after), names[j], fingerprint(names[j]))
  {
  }

  // What a run logs that finds every phase in place.
  function Verifications(names: seq<string>, fingerprint: string -> string): seq<Event> {
    if names == [] then [] else
      var k := |names| - 1;
      Verifications(names[..k], fingerprint) + [Verified(names[k], fingerprint(names[k]), true)]
  }

  lemma VerificationsStart(names: seq<string>, fingerprint: string -> string)
    ensures Verifications(names[..0], fingerprint) == []
  {
  }

  lemma VerificationsGrow(names: seq<string>, fingerprint: string -> string, i: nat)
    requires i < |names|
    ensures Verifications(names[..i + 1], fingerprint) == Verifications(names[..i], fingerprint) + [Verified(names[i], fingerprint(names[i]), true)]
  {
    assert names[..i + 1][..i] == names[..i];
  }

  // What a visit leaves on record.
  function EntryAfter(e: Entry, fingerprint: string, luck: Luck): Entry {
    if !Begins(e, fingerprint, luck) || !Writes(luck.runningSave) then e
    else Performed(e.(status := Some(Running), attempts := e.attempts + 1), fingerprint, luck)
  }

  // A phase recorded as running has one attempt more than it has applications.
  lemma CountedAndRunning(disk: Option<State>, st: State, log: seq<Event>, name: string)
    requires Honest(disk, log)
    requires forall other :: other != name ==> EntryOf(st, other) == EntryOf(Loaded(disk), other)
    requires EntryOf(st, name).status == Some(Running) && EntryOf(st, name).attempts == EntryOf(Loaded(disk), name).attempts + 1
    ensures Honest(Some(st), log) && Applications(log, name) < EntryOf(st, name).attempts
  {
    assert Vouched(Loaded(disk), log, name);
    HonestRecord(disk, st, log, name);
  }

  lemma AttemptStays(disk: Option<State>, log: seq<Event>, name: string, e: Event)
    requires Honest(disk, log) && Applications(log, name) < EntryOf(Loaded(disk), name).attempts && !e.Applied?
    ensures Honest(disk, log + [e]) && Applications(log + [e], name) < EntryOf(Loaded(disk), name).attempts
  {
    HonestLonger(disk, log, e);
    assert (log + [e])[..|log|] == log;
  }

  lemma CompleteIsHonest(disk: Option<State>, st: State, log: seq<Event>, name: string)
    requires Honest(disk, log) && EntryOf(st, name).fingerprint.Some? && Proved(log, name, EntryOf(st, name).fingerprint.value)
    requires forall other :: other != name ==> EntryOf(st, other) == EntryOf(Loaded(disk), other)
    requires EntryOf(st, name).attempts == EntryOf(Loaded(disk), name).attempts
    ensures Honest(Some(st), log)
  {
    assert Vouched(Loaded(disk), log, name);
    HonestRecord(disk, st, log, name);
  }
}
