// Sending a file to the agent in chunks (agent/operations/apply_file.go, lines 11-81; agent/operations/secure.go, lines 78-88
// and 108-172): the staging file, the offset check and the rename, for one path, under faults at any step.
module ChunkTransfer {
  import opened SharedTypes

  type Bytes = seq<bv8>

  const CHUNK_SIZE := 262144
  const MAX_FILE := 2147483648

  // The staging file and the destination; None is no such file.
  datatype Disk = Disk(staging: Option<Bytes>, dest: Option<Bytes>)
  datatype Request = Request(data: Bytes, offset: int, last: bool)

  // Where a request is cut short: before the directory is reached (also by the quota), at openat, at fchmod, while writing or syncing with
  // some bytes written, at the rename, at the sync after it, or on the way back to the caller.
  datatype Fault = NoFault | Refused | OpenFails | ModeFails | WriteFails(written: nat) | RenameFails | SyncFails | ReplyLost
  datatype Step = Step(request: Request, fault: Fault)

  // ---------- one request ----------

  // The request passes the checks on its numbers and reaches the directory.
  predicate Reaches(s: Step) {
    0 <= s.request.offset && |s.request.data| <= CHUNK_SIZE && s.request.offset + |s.request.data| <= MAX_FILE && s.fault != Refused
  }

  // The chunk begins a file anew, or continues one that has exactly the bytes before it.
  predicate Lands(d: Disk, s: Step) {
    Reaches(s) && s.fault != OpenFails && s.fault != ModeFails &&
    (s.request.offset == 0 || (d.staging.Some? && |d.staging.value| == s.request.offset))
  }

  function Written(s: Step): Bytes {
    if s.fault.WriteFails? && s.fault.written < |s.request.data| then s.request.data[..s.fault.written] else s.request.data
  }

  predicate Commits(d: Disk, s: Step) {
    Lands(d, s) && s.request.last && !s.fault.WriteFails? && s.fault != RenameFails
  }

  // The answer is a success.
  predicate Accepted(d: Disk, s: Step) {
    Lands(d, s) && !s.fault.WriteFails? && s.fault != ReplyLost && (s.request.last ==> s.fault != RenameFails && s.fault != SyncFails)
  }

  // What the request leaves in the staging file when it does not get to rename it.
  function Staged(d: Disk, s: Step): Option<Bytes> {
    if !Reaches(s) then d.staging
    else if s.request.offset == 0 then if s.fault == OpenFails then None else if Lands(d, s) then Some(Written(s)) else Some([])
    else if Lands(d, s) then Some(d.staging.value + Written(s)) else d.staging
  }

  function After(d: Disk, s: Step): Disk {
    if Lands(d, s) && s.request.last && !s.fault.WriteFails?
    then Disk(None, if s.fault == RenameFails then d.dest else Staged(d, s))
    else Disk(Staged(d, s), d.dest)
  }

  class Agent {
    var staging: Option<Bytes>
    var dest: Option<Bytes>

    function OnDisk(): Disk
      reads this
    {
      Disk(staging, dest)
    }

    method ApplyFileChunk(request: Request, fault: Fault) returns (ok: bool)
      modifies this
      ensures OnDisk() == After(old(OnDisk()), Step(request, fault)) && ok == Accepted(old(OnDisk()), Step(request, fault))
    {
      if request.offset < 0 || |request.data| > CHUNK_SIZE {
        return false;
      }
      if request.offset + |request.data| > MAX_FILE {
        return false;
      }
      if fault == Refused {
        return false;
      }
      ok := AppendManagedChunk(request, fault);
      ok := ok && fault != ReplyLost;
    }

    method AppendManagedChunk(request: Request, fault: Fault) returns (ok: bool)
      requires Reaches(Step(request, fault))
      modifies this
      ensures OnDisk() == After(old(OnDisk()), Step(request, fault))
      ensures ok == Accepted(old(OnDisk()), Step(request, if fault == ReplyLost then NoFault else fault))
    {
      if request.offset == 0 {
        staging := None;
      }
      if fault == OpenFails {
        return false;
      }
      if request.offset == 0 {
        staging := Some([]);
      } else if staging.None? {
        return false;
      }
      if fault == ModeFails || |staging.value| != request.offset {
        return false;
      }
      assert [] + Written(Step(request, fault)) == Written(Step(request, fault));
      staging := Some(staging.value + Written(Step(request, fault)));
      if fault.WriteFails? {
        return false;
      }
      if !request.last {
        return true;
      }
      if fault == RenameFails {
        staging := None;
        return false;
      }
      staging, dest := None, staging;
      ok := fault != SyncFails;
    }

    // WriteAtomic writes a temporary file of its own and renames it.
    method ApplyFile(content: Bytes, fault: Fault) returns (ok: bool)
      modifies this`dest
      ensures ok ==> dest == Some(content)
      ensures dest == Some(content) || dest == old(dest)
      ensures fault == NoFault ==> ok
    {
      if fault == Refused || fault == OpenFails || fault == ModeFails || fault.WriteFails? || fault == RenameFails {
        return false;
      }
      dest := Some(content);
      ok := fault == NoFault;
    }
  }

  // ---------- the sender ----------

  // applyFileOverSock. faults(i) is what befalls the i-th request.
  method ApplyFileOverSock(agent: Agent, content: Bytes, faults: nat -> Fault) returns (ok: bool)
    modifies agent
    ensures |content| > MAX_FILE ==> !ok && agent.OnDisk() == old(agent.OnDisk())
    ensures ok ==> agent.dest == Some(content)
    ensures agent.dest == Some(content) || agent.dest == old(agent.dest)
    ensures |content| <= MAX_FILE && (forall i: nat :: faults(i) == NoFault) ==> ok
  {
    if |content| > MAX_FILE {
      return false;
    }
    if |content| <= CHUNK_SIZE {
      ok := agent.ApplyFile(content, faults(0));
      return;
    }
    var offset, sent := 0, 0;
    while offset < |content|
      invariant 0 <= offset <= |content|
      invariant offset == 0 || offset == |content| || agent.staging == Some(content[..offset])
      invariant agent.dest == if offset == |content| then Some(content) else old(agent.dest)
      decreases |content| - offset
    {
      var end := offset + CHUNK_SIZE;
      if end > |content| {
        end := |content|;
      }
      var part := content[offset..end];
      assert content[..end] == content[..offset] + part;
      assert offset == 0 ==> part == content[..end];
      assert content[..|content|] == content;
      var accepted := agent.ApplyFileChunk(Request(part, offset, end == |content|), faults(sent));
      if !accepted {
        return false;
      }
      sent := sent + 1;
      offset := end;
    }
    return true;
  }

  // ---------- any sequence of requests ----------

  function Run(d: Disk, steps: seq<Step>): Disk {
    if steps == [] then d else After(Run(d, steps[..|steps| - 1]), steps[|steps| - 1])
  }

  // The bytes of the chunks that landed since the latest one at offset 0, in order of arrival.
  function Landed(d: Disk, steps: seq<Step>): Bytes {
    if steps == [] then (if d.staging.Some? then d.staging.value else []) else
      var k := |steps| - 1;
      var before, s := Run(d, steps[..k]), steps[k];
      var upToHere := if Reaches(s) && s.request.offset == 0 then [] else Landed(d, steps[..k]);
      if Lands(before, s) then upToHere + Written(s) else upToHere
  }

  lemma {:induction false} StagingIsLanded(d: Disk, steps: seq<Step>)
    ensures var r := Run(d, steps); r.staging.Some? ==> r.staging.value == Landed(d, steps)
  {
    if steps != [] {
      var k := |steps| - 1;
      StagingIsLanded(d, steps[..k]);
      assert [] + Written(steps[k]) == Written(steps[k]);
    }
  }

  // Whatever is asked, the destination changes only with a last chunk, and then to exactly the bytes that landed since the latest chunk
  // at offset 0; and each chunk that lands is at the offset it was sent for.
  lemma DestinationIsWhatLanded(d: Disk, steps: seq<Step>)
    requires steps != []
    ensures var k := |steps| - 1;
      var before, s, landed := Run(d, steps[..k]), steps[k], Landed(d, steps);
      Run(d, steps).dest == (if Commits(before, s) then Some(landed) else before.dest) &&
      (Lands(before, s) ==> s.request.offset <= |landed| && landed[s.request.offset..] == Written(s)) &&
      (Lands(before, s) && s.request.offset > 0 ==> landed[..s.request.offset] == Landed(d, steps[..k]))
  {
    var k := |steps| - 1;
    StagingIsLanded(d, steps[..k]);
    StagingIsLanded(d, steps);
    assert [] + Written(steps[k]) == Written(steps[k]);
  }

  // The chunks that were answered with success, since the latest request at offset 0.
  function Confirmed(d: Disk, steps: seq<Step>): Bytes {
    if steps == [] then (if d.staging.Some? then d.staging.value else []) else
      var k := |steps| - 1;
      var before, s := Run(d, steps[..k]), steps[k];
      var upToHere := if s.request.offset == 0 && Reaches(s) then [] else Confirmed(d, steps[..k]);
      if Accepted(before, s) then upToHere + s.request.data else upToHere
  }

  // When no request that fails leaves anything behind, what landed is what was confirmed.
  lemma {:induction false} ConfirmedIsLanded(d: Disk, steps: seq<Step>)
    requires forall i :: 0 <= i < |steps| ==> steps[i].fault in {NoFault, Refused, OpenFails, ModeFails}
    ensures Confirmed(d, steps) == Landed(d, steps)
  {
    if steps != [] {
      var k := |steps| - 1;
      ConfirmedIsLanded(d, steps[..k]);
      assert steps[k].fault in {NoFault, Refused, OpenFails, ModeFails};
    }
  }

  // The bytes written are those that content has at the chunk's offset.
  predicate Agrees(s: Step, content: Bytes)
    requires Reaches(s)
  {
    s.request.offset + |Written(s)| <= |content| && content[s.request.offset..s.request.offset + |Written(s)|] == Written(s)
  }

  // Every chunk that landed since the latest request at offset 0 agrees with content, and so does what was staged before if there was
  // no such request.
  predicate AllAgree(d: Disk, steps: seq<Step>, content: Bytes) {
    if steps == [] then (if d.staging.Some? then d.staging.value else []) <= content else
      var k := |steps| - 1;
      var s := steps[k];
      ((Reaches(s) && s.request.offset == 0) || AllAgree(d, steps[..k], content)) &&
      (Lands(Run(d, steps[..k]), s) ==> Agrees(s, content))
  }

  lemma {:induction false} LandedIsPrefixIff(d: Disk, steps: seq<Step>, content: Bytes)
    ensures Landed(d, steps) <= content <==> AllAgree(d, steps, content)
  {
    hide Run;
    if steps != [] {
      var k := |steps| - 1;
      var s := steps[k];
      LandedIsPrefixIff(d, steps[..k], content);
      StagingIsLanded(d, steps[..k]);
      if Lands(Run(d, steps[..k]), s) {
        var before := if s.request.offset == 0 then [] else Landed(d, steps[..k]);
        PrefixOfTwo(before, Written(s), content);
      }
    }
  }

  lemma PrefixOfTwo(a: Bytes, b: Bytes, content: Bytes)
    ensures a + b <= content <==> a <= content && |a| + |b| <= |content| && content[|a|..|a| + |b|] == b
  {
    if a <= content && |a| + |b| <= |content| && content[|a|..|a| + |b|] == b {
      assert content == a + b + content[|a| + |b|..];
    }
    if a + b <= content {
      assert content[..|a| + |b|] == a + b && content[..|a|] == (a + b)[..|a|] && content[|a|..|a| + |b|] == (a + b)[|a|..];
    }
  }

  // Whoever sends what, a request that commits leaves exactly content if and only if every chunk it builds on agrees with content at
  // its offset and this one ends where content ends.
  lemma CommitIsContentIff(d: Disk, steps: seq<Step>, content: Bytes)
    requires steps != [] && Commits(Run(d, steps[..|steps| - 1]), steps[|steps| - 1])
    ensures var s := steps[|steps| - 1];
      Run(d, steps).dest == Some(content) <==>
        AllAgree(d, steps, content) && s.request.offset + |s.request.data| == |content|
  {
    hide AllAgree, Run;
    DestinationIsWhatLanded(d, steps);
    LandedIsPrefixIff(d, steps, content);
    CommitLength(d, steps);
    var landed := Landed(d, steps);
    assert landed <= content && |landed| == |content| ==> landed == content;
  }

  lemma CommitLength(d: Disk, steps: seq<Step>)
    requires steps != [] && Commits(Run(d, steps[..|steps| - 1]), steps[|steps| - 1])
    ensures var s := steps[|steps| - 1]; |Landed(d, steps)| == s.request.offset + |s.request.data|
  {
    StagingIsLanded(d, steps[..|steps| - 1]);
  }

  // Two senders at once: the agent tells chunks apart by offset alone, so the first sender's second chunk completes the other's first.
  lemma InterleavedSendersMix(d: Disk, a: Bytes, b: Bytes)
    requires CHUNK_SIZE < |a| <= 2 * CHUNK_SIZE && CHUNK_SIZE < |b|
    ensures var steps := [Step(Request(a[..CHUNK_SIZE], 0, false), NoFault), Step(Request(b[..CHUNK_SIZE], 0, false), NoFault),
                          Step(Request(a[CHUNK_SIZE..], CHUNK_SIZE, true), NoFault)];
      Run(d, steps).dest == Some(b[..CHUNK_SIZE] + a[CHUNK_SIZE..]) &&
      (Run(d, steps).dest == Some(a) <==> a[..CHUNK_SIZE] == b[..CHUNK_SIZE])
  {
    var s, t, u := Step(Request(a[..CHUNK_SIZE], 0, false), NoFault), Step(Request(b[..CHUNK_SIZE], 0, false), NoFault),
                   Step(Request(a[CHUNK_SIZE..], CHUNK_SIZE, true), NoFault);
    assert [s, t, u][..2] == [s, t] && [s, t][..1] == [s] && [s][..0] == [];
    assert After(Run(d, [s]), t).staging == Some(b[..CHUNK_SIZE]);
    assert (b[..CHUNK_SIZE] + a[CHUNK_SIZE..])[..CHUNK_SIZE] == b[..CHUNK_SIZE] && a == a[..CHUNK_SIZE] + a[CHUNK_SIZE..];
  }

  // ---------- one request without faults ----------

  // A chunk is accepted exactly when its numbers are within the limits of 256 KiB and 2 GiB and it begins the file or continues it where
  // it ends; then it is all written, a last one replaces the destination and clears the staging file, and any other leaves the destination.
  lemma ChunkWithoutFaults(d: Disk, r: Request)
    ensures Accepted(d, Step(r, NoFault)) <==>
      0 <= r.offset && |r.data| <= 262144 && r.offset + |r.data| <= 2147483648 &&
      (r.offset == 0 || (d.staging.Some? && |d.staging.value| == r.offset))
    ensures Accepted(d, Step(r, NoFault)) ==>
      var whole := (if r.offset == 0 then [] else d.staging.value) + r.data;
      After(d, Step(r, NoFault)) == if r.last then Disk(None, Some(whole)) else Disk(Some(whole), d.dest)
    ensures !Accepted(d, Step(r, NoFault)) ==> After(d, Step(r, NoFault)) == d
  {
    assert [] + r.data == r.data;
  }

  // Whatever goes wrong, a request changes the destination only if it is a last one that would have been accepted.
  lemma FaultsKeepDestination(d: Disk, s: Step)
    ensures After(d, s).dest != d.dest ==> s.request.last && Accepted(d, Step(s.request, NoFault))
    ensures After(d, s).dest != d.dest ==> After(d, s).dest == After(d, Step(s.request, NoFault)).dest
    ensures Accepted(d, s) ==> After(d, s) == After(d, Step(s.request, NoFault))
    ensures var well := Accepted(d, Step(s.request, NoFault));
      Accepted(d, s) == (well && (s.fault == NoFault || (!s.request.last && (s.fault == RenameFails || s.fault == SyncFails))))
  {
  }
}
