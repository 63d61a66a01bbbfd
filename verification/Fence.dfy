// The agent's resource fences (agent/operations/fence.go; Dispatch in agent/operations/ops.go, lines 98-135)
// on a host without an agent socket. One Dispatch is one step; concurrent halves are not interleaved.
module Fence {
  import opened SharedTypes

  type Json = seq<char>

  datatype Envelope = Envelope(operationId: string, resourceId: string, fence: int)

  datatype Request = Request(name: string, env: Envelope, params: Json)

  datatype FenceRecord = FenceRecord(fence: int, operationId: string, name: string, fingerprint: string, receipt: Json)

  const NO_RECORD := FenceRecord(0, "", "", "", [])

  type Fences = map<string, FenceRecord>

  // What the surroundings of one Dispatch do: whether its context is already cancelled, whether the hook
  // before it refuses, what the operation answers if it is executed (a result that does not print as JSON
  // is Unprintable), and what becomes of the fence file if a record is stored.
  datatype Answer = Refused | Unprintable | Answer(raw: Json)
  // The file is replaced, left as it was, or emptied and not filled again; the code does not look which.
  datatype Write = Written | Untouched | Torn
  datatype Surroundings = Surroundings(cancelled: bool, hookFails: bool, answer: Answer, write: Write)

  datatype Response = Stale | Failed | Ok(receipt: Json) | OkUnprintable

  // ---------- one dispatch as a function ----------

  function FenceKey(env: Envelope): string {
    if env.resourceId != "" then env.resourceId else env.operationId
  }

  function Stored(fences: Fences, key: string): FenceRecord {
    if key in fences then fences[key] else NO_RECORD
  }

  // A request without a fence takes the host's bound envelope, if that has one.
  function Effective(bound: Envelope, req: Request): Request {
    if req.env.fence == 0 && bound.fence != 0 then req.(env := bound) else req
  }

  predicate SameCall(rec: FenceRecord, req: Request, digest: string) {
    rec.fence == req.env.fence && rec.operationId == req.env.operationId && rec.name == req.name && rec.fingerprint == digest
  }

  datatype Decision = Reject | Replay(receipt: Json) | Proceed

  function Decide(fences: Fences, req: Request, digest: string): Decision {
    if req.env.fence == 0 then Proceed
    else if FenceKey(req.env) == "" then Reject
    else
      var rec := Stored(fences, FenceKey(req.env));
      if rec.fence > req.env.fence then Reject
      else if SameCall(rec, req, digest) && rec.fingerprint != "" && |rec.receipt| > 0 then Replay(rec.receipt)
      else if rec.fence == req.env.fence && rec.operationId != "" && rec.operationId != req.env.operationId then Reject
      else Proceed
  }

  function RecordOf(req: Request, digest: string, raw: Json): FenceRecord {
    FenceRecord(req.env.fence, req.env.operationId, req.name, digest, raw)
  }

  function Remembered(fences: Fences, req: Request, digest: string, raw: Json): Fences {
    if req.env.fence == 0 || FenceKey(req.env) == "" then fences
    else fences[FenceKey(req.env) := RecordOf(req, digest, raw)]
  }

  // The response, the fences afterwards, and whether the operation was executed.
  datatype Effect = Effect(response: Response, fences: Fences, executed: bool)

  function Dispatched(fences: Fences, req: Request, digest: string, w: Surroundings): Effect {
    if w.cancelled then Effect(Failed, fences, false)
    else
      match Decide(fences, req, digest)
      case Reject => Effect(Stale, fences, false)
      case Replay(raw) => Effect(Ok(raw), fences, false)
      case Proceed =>
        if w.hookFails then Effect(Failed, fences, false)
        else
          match w.answer
          case Refused => Effect(Failed, fences, true)
          case Unprintable => Effect(if req.env.fence == 0 then OkUnprintable else Failed, fences, true)
          case Answer(raw) => Effect(Ok(raw), Remembered(fences, req, digest, raw), true)
  }

  function FileAfter(file: Option<Fences>, fences: Fences, write: Write): Option<Fences> {
    match write case Written => Some(fences) case Untouched => file case Torn => None
  }

  // ---------- the host ----------

  class Host {
    const fingerprint: Request -> string
    var boundEnv: Envelope
    var fences: Option<Fences>     // None until first used after a start
    var file: Option<Fences>       // the fence file; None if it is missing or unreadable
    var log: seq<Request>          // the operations executed since the start

    constructor (fingerprint: Request -> string, file: Option<Fences>, bound: Envelope)
      ensures this.fingerprint == fingerprint && this.file == file && boundEnv == bound && log == []
      ensures View() == if file.Some? then file.value else map[]
    {
      this.fingerprint, this.file, boundEnv := fingerprint, file, bound;
      fences, log := None, [];
    }

    // The records in force: those in memory, or those that a first use would load.
    function View(): Fences
      reads this
    {
      if fences.Some? then fences.value else if file.Some? then file.value else map[]
    }

    method EnsureFences()
      modifies this`fences
      ensures fences.Some? && View() == old(View())
    {
      if fences.Some? {
        return;
      }
      fences := Some(map[]);
      if file.Some? {
        fences := file;
      }
    }

    method LoadFence(key: string) returns (rec: FenceRecord)
      modifies this`fences
      ensures View() == old(View()) && rec == Stored(View(), key)
    {
      EnsureFences();
      if key in fences.value {
        return fences.value[key];
      }
      return NO_RECORD;
    }

    method StoreFence(key: string, rec: FenceRecord, write: Write)
      modifies this`fences, this`file
      ensures View() == old(View())[key := rec]
      ensures file == FileAfter(old(file), View(), write)
    {
      EnsureFences();
      fences := Some(fences.value[key := rec]);
      file := FileAfter(file, fences.value, write);
    }

    method AcceptFence(req: Request) returns (d: Decision)
      modifies this`fences
      ensures View() == old(View()) && d == Decide(View(), req, fingerprint(req))
      ensures forall rec :: Stands(View(), req, rec) ==> (d == Proceed <==> GoesAhead(rec, req, fingerprint(req)))
    {
      if req.env.fence == 0 {
        return Proceed;
      }
      var key := FenceKey(req.env);
      if key == "" {
        return Reject;
      }
      var rec := LoadFence(key);
      if rec.fence > req.env.fence {
        return Reject;
      }
      if rec.fence == req.env.fence && rec.operationId == req.env.operationId && rec.name == req.name &&
         rec.fingerprint == fingerprint(req) && rec.fingerprint != "" && |rec.receipt| > 0 {
        return Replay(rec.receipt);
      }
      if rec.fence == req.env.fence && rec.operationId != "" && rec.operationId != req.env.operationId {
        return Reject;
      }
      return Proceed;
    }

    method RememberFence(req: Request, raw: Json, write: Write)
      modifies this`fences, this`file
      ensures View() == Remembered(old(View()), req, fingerprint(req), raw)
      ensures file == if Keyed(req) then FileAfter(old(file), View(), write) else old(file)
    {
      if req.env.fence == 0 {
        return;
      }
      var key := FenceKey(req.env);
      if key == "" {
        return;
      }
      StoreFence(key, RecordOf(req, fingerprint(req), raw), write);
    }

    method Dispatch(request: Request, w: Surroundings) returns (r: Response)
      modifies this
      ensures boundEnv == old(boundEnv)
      ensures var req := Effective(boundEnv, request);
        var e := Dispatched(old(View()), req, fingerprint(req), w);
        r == e.response && View() == e.fences && log == if e.executed then old(log) + [req] else old(log)
      ensures var req := Effective(boundEnv, request);
        file == if CallEntry(old(View()), req, fingerprint(req), w).remembered then FileAfter(old(file), View(), w.write) else old(file)
      ensures var req := request.(env := if request.env.fence == 0 && boundEnv.fence != 0 then boundEnv else request.env);
        log == old(log) || log == old(log) + [req]
      ensures var req := request.(env := if request.env.fence == 0 && boundEnv.fence != 0 then boundEnv else request.env);
        forall rec :: Stands(old(View()), req, rec) ==>
          (log == old(log) + [req] <==> !w.cancelled && !w.hookFails && GoesAhead(rec, req, fingerprint(req)))
    {
      var req := request;
      if req.env.fence == 0 && boundEnv.fence != 0 {
        req := req.(env := boundEnv);
      }
      if w.cancelled {
        return Failed;
      }
      var d := AcceptFence(req);
      if d.Reject? {
        return Stale;
      }
      if d.Replay? {
        return Ok(d.receipt);
      }
      if w.hookFails {
        return Failed;
      }
      log := log + [req];
      match w.answer
      case Refused =>
        return Failed;
      case Unprintable =>
        if req.env.fence == 0 {
          return OkUnprintable;
        }
        return Failed;
      case Answer(raw) =>
        RememberFence(req, raw, w.write);
        return Ok(raw);
    }

    // A new process: memory is gone, the file is there.
    method Restart()
      modifies this`fences
      ensures View() == if file.Some? then file.value else map[]
    {
      fences := None;
    }
  }

  // ---------- one dispatch in the fields of request and record ----------

  // The record that stands for the request's resource, or failing that its operation: fence 0 and nothing else if none was stored.
  ghost predicate Stands(fences: Fences, req: Request, rec: FenceRecord) {
    var key := if req.env.resourceId != "" then req.env.resourceId else req.env.operationId;
    if key in fences then rec == fences[key] else rec == FenceRecord(0, "", "", "", "")
  }

  // The record is of this very call, and has an answer to give again.
  ghost predicate Answered(rec: FenceRecord, req: Request, digest: string) {
    rec.fence == req.env.fence && rec.operationId == req.env.operationId && rec.name == req.name && rec.fingerprint == digest &&
    digest != "" && rec.receipt != ""
  }

  // The request is stale: its fence is older, or of the same fence another named operation was remembered.
  ghost predicate IsStale(rec: FenceRecord, req: Request) {
    req.env.fence < rec.fence || (req.env.fence == rec.fence && rec.operationId != "" && rec.operationId != req.env.operationId)
  }

  // The request has no fence, or it has a resource or an operation and is neither stale nor answered.
  ghost predicate GoesAhead(rec: FenceRecord, req: Request, digest: string) {
    req.env.fence == 0 || ((req.env.resourceId != "" || req.env.operationId != "") && !IsStale(rec, req) && !Answered(rec, req, digest))
  }

  // A dispatch that is not cancelled and passes the hook executes the operation exactly in that case; in particular every newer fence is executed.
  lemma ExecutedIff(fences: Fences, req: Request, digest: string, w: Surroundings, rec: FenceRecord)
    requires !w.cancelled && !w.hookFails && Stands(fences, req, rec)
    ensures Dispatched(fences, req, digest, w).executed <==> GoesAhead(rec, req, digest)
    ensures (req.env.resourceId != "" || req.env.operationId != "") && req.env.fence > rec.fence ==> Dispatched(fences, req, digest, w).executed
  {
  }

  // Otherwise it is answered from the record, or refused as stale, and nothing is stored.
  lemma NotExecutedAnswer(fences: Fences, req: Request, digest: string, w: Surroundings, rec: FenceRecord)
    requires !w.cancelled && Stands(fences, req, rec) && req.env.fence != 0
    ensures var e := Dispatched(fences, req, digest, w);
      ((req.env.resourceId != "" || req.env.operationId != "") && Answered(rec, req, digest) ==> e == Effect(Ok(rec.receipt), fences, false)) &&
      (req.env.resourceId == "" && req.env.operationId == "" ==> e == Effect(Stale, fences, false)) &&
      (IsStale(rec, req) ==> e == Effect(Stale, fences, false))
  {
  }

  // An executed operation's answer goes to the caller, and for a fenced request it is stored under its key with the request's fence, operation,
  // method and fingerprint; no other record changes.
  lemma ExecutedAnswer(fences: Fences, req: Request, digest: string, w: Surroundings, raw: Json)
    requires Dispatched(fences, req, digest, w).executed && w.answer == Answer(raw)
    ensures var e, key := Dispatched(fences, req, digest, w), if req.env.resourceId != "" then req.env.resourceId else req.env.operationId;
      e.response == Ok(raw) &&
      (req.env.fence == 0 ==> e.fences == fences) &&
      (req.env.fence != 0 ==>
        e.fences == fences[key := FenceRecord(req.env.fence, req.env.operationId, req.name, digest, raw)])
  {
  }

  // What is cut short before or fails in the operation stores nothing.
  lemma FailuresStoreNothing(fences: Fences, req: Request, digest: string, w: Surroundings)
    ensures w.cancelled ==> Dispatched(fences, req, digest, w) == Effect(Failed, fences, false)
    ensures w.hookFails ==> !Dispatched(fences, req, digest, w).executed
    ensures !w.answer.Answer? ==> Dispatched(fences, req, digest, w).fences == fences
    ensures w.answer == Refused && Dispatched(fences, req, digest, w).executed ==> Dispatched(fences, req, digest, w).response == Failed
  {
  }

  // A request without a fence is treated under the host's bound envelope if that has one, and otherwise as it is.
  lemma EffectiveIs(bound: Envelope, req: Request)
    ensures Effective(bound, req).name == req.name && Effective(bound, req).params == req.params
    ensures Effective(bound, req).env == if req.env.fence == 0 && bound.fence != 0 then bound else req.env
  {
  }

  // ---------- runs ----------

  datatype Event = Call(req: Request, w: Surroundings) | Restart

  // One finished Dispatch. It is remembered if it stored a record.
  datatype Entry = Entry(req: Request, response: Response, executed: bool, remembered: bool)

  // The records in force, the fence file and everything dispatched so far.
  datatype World = World(view: Fences, file: Option<Fences>, past: seq<Entry>)

  function FileView(file: Option<Fences>): Fences {
    if file.Some? then file.value else map[]
  }

  predicate Keyed(req: Request) {
    req.env.fence != 0 && FenceKey(req.env) != ""
  }

  function CallEntry(view: Fences, req: Request, digest: string, w: Surroundings): Entry {
    var e := Dispatched(view, req, digest, w);
    Entry(req, e.response, e.executed, e.executed && w.answer.Answer? && Keyed(req))
  }

  function Next(fingerprint: Request -> string, s: World, e: Event): World {
    match e
    case Call(req, w) =>
      var r := Dispatched(s.view, req, fingerprint(req), w);
      var entry := CallEntry(s.view, req, fingerprint(req), w);
      World(r.fences, if entry.remembered then FileAfter(s.file, r.fences, w.write) else s.file, s.past + [entry])
    case Restart => s.(view := FileView(s.file))
  }

  function Run(fingerprint: Request -> string, s: World, events: seq<Event>): World
    decreases |events|
  {
    if events == [] then s else Next(fingerprint, Run(fingerprint, s, events[..|events| - 1]), events[|events| - 1])
  }

  // The file holds the records in force.
  ghost predicate InStep(s: World) { s.view == FileView(s.file) }

  // Answers are JSON text, never empty, and a process that stops leaves its records in the file.
  ghost predicate Fair(s: World, e: Event) {
    match e
    case Call(_, w) => w.answer.Answer? ==> |w.answer.raw| > 0
    case Restart => InStep(s)
  }

  ghost predicate AllFair(fingerprint: Request -> string, s: World, events: seq<Event>) {
    forall i :: 0 <= i < |events| ==> Fair(Run(fingerprint, s, events[..i]), events[i])
  }

  function Boot(file: Option<Fences>): World {
    World(FileView(file), file, [])
  }

  // The record that an entry stored.
  function RecordedBy(fingerprint: Request -> string, e: Entry): FenceRecord
    requires e.remembered && e.response.Ok?
  {
    RecordOf(e.req, fingerprint(e.req), e.response.receipt)
  }

  // Every remembered call has a record at least as new as it, and of the same operation if it is of the same
  // fence; the last one on a key is the record itself.
  ghost predicate Covered(fingerprint: Request -> string, s: World, e: Entry) {
    e.remembered ==>
      e.response.Ok? && |e.response.receipt| > 0 && Keyed(e.req) &&
      var rec := Stored(s.view, FenceKey(e.req.env));
      e.req.env.fence <= rec.fence &&
      (e.req.env.fence == rec.fence && e.req.env.operationId != "" ==> rec.operationId == e.req.env.operationId)
  }

  // Entry i is the last remembered one on its key.
  ghost predicate LastOnKey(past: seq<Entry>, i: nat) {
    i < |past| && past[i].remembered &&
    forall j :: i < j < |past| && past[j].remembered ==> FenceKey(past[j].req.env) != FenceKey(past[i].req.env)
  }

  ghost predicate Inv(fingerprint: Request -> string, s: World) {
    (forall i :: 0 <= i < |s.past| ==> Covered(fingerprint, s, s.past[i])) &&
    (forall i: nat :: LastOnKey(s.past, i) ==>
      Stored(s.view, FenceKey(s.past[i].req.env)) == RecordedBy(fingerprint, s.past[i]))
  }

  // What an executed fenced call implies for every call remembered on its key before it.
  ghost predicate InOrder(earlier: Entry, later: Entry) {
    earlier.remembered && later.executed && Keyed(later.req) && FenceKey(earlier.req.env) == FenceKey(later.req.env) ==>
      earlier.req.env.fence <= later.req.env.fence &&
      (earlier.req.env.fence == later.req.env.fence && earlier.req.env.operationId != "" ==>
        later.req.env.operationId == earlier.req.env.operationId)
  }

  ghost predicate Fenced(past: seq<Entry>) {
    forall i, j :: 0 <= i < j < |past| ==> InOrder(past[i], past[j])
  }

  lemma CallKeepsCovered(fingerprint: Request -> string, s: World, req: Request, w: Surroundings, e: Entry)
    requires Covered(fingerprint, s, e) && Fair(s, Call(req, w))
    ensures Covered(fingerprint, Next(fingerprint, s, Call(req, w)), e)
  {
  }

  lemma CallIsCovered(fingerprint: Request -> string, s: World, req: Request, w: Surroundings)
    requires Fair(s, Call(req, w))
    ensures Covered(fingerprint, Next(fingerprint, s, Call(req, w)), CallEntry(s.view, req, fingerprint(req), w))
  {
  }

  lemma CallInOrder(fingerprint: Request -> string, s: World, req: Request, w: Surroundings, e: Entry)
    requires Covered(fingerprint, s, e)
    ensures InOrder(e, CallEntry(s.view, req, fingerprint(req), w))
  {
  }

  lemma NextKeepsInv(fingerprint: Request -> string, s: World, e: Event)
    requires Inv(fingerprint, s) && Fair(s, e)
    ensures Inv(fingerprint, Next(fingerprint, s, e))
  {
    if e.Call? {
      hide Covered, Dispatched, Decide;
      var t := Next(fingerprint, s, e);
      var entry := CallEntry(s.view, e.req, fingerprint(e.req), e.w);
      CallEffect(fingerprint, s, e.req, e.w);
      CallIsCovered(fingerprint, s, e.req, e.w);
      forall i | 0 <= i < |t.past|
        ensures Covered(fingerprint, t, t.past[i])
      {
        if i < |s.past| {
          CallKeepsCovered(fingerprint, s, e.req, e.w, s.past[i]);
        }
      }
      forall i: nat | LastOnKey(t.past, i)
        ensures Stored(t.view, FenceKey(t.past[i].req.env)) == RecordedBy(fingerprint, t.past[i])
      {
        if i < |s.past| {
          assert LastOnKey(s.past, i) by {
            assert forall j :: i < j < |s.past| ==> t.past[j] == s.past[j];
          }
          assert t.past[|s.past|] == entry;
        }
      }
    }
  }

  // What a call does to the records and the file.
  lemma CallEffect(fingerprint: Request -> string, s: World, req: Request, w: Surroundings)
    ensures var entry := CallEntry(s.view, req, fingerprint(req), w);
      var t := Next(fingerprint, s, Call(req, w));
      if entry.remembered then
        entry.response.Ok? && t.view == s.view[FenceKey(req.env) := RecordedBy(fingerprint, entry)] &&
        t.file == FileAfter(s.file, t.view, w.write)
      else t.view == s.view && t.file == s.file
  {
  }

  lemma {:induction false} RunIsFenced(fingerprint: Request -> string, file: Option<Fences>, events: seq<Event>)
    requires AllFair(fingerprint, Boot(file), events)
    ensures Inv(fingerprint, Run(fingerprint, Boot(file), events)) && Fenced(Run(fingerprint, Boot(file), events).past)
    decreases |events|
  {
    hide Next, Fair, Covered, InOrder;
    if events == [] {
    } else {
      var k := |events| - 1;
      assert AllFair(fingerprint, Boot(file), events[..k]) by {
        assert forall i :: 0 <= i < k ==> events[..k][..i] == events[..i];
      }
      RunIsFenced(fingerprint, file, events[..k]);
      var s := Run(fingerprint, Boot(file), events[..k]);
      assert Fair(s, events[k]);
      NextKeepsInv(fingerprint, s, events[k]);
      NextKeepsOrder(fingerprint, s, events[k]);
    }
  }

  lemma NextKeepsOrder(fingerprint: Request -> string, s: World, e: Event)
    requires Inv(fingerprint, s) && Fenced(s.past)
    ensures Fenced(Next(fingerprint, s, e).past)
  {
    hide Covered, InOrder, CallEntry;
    if e.Call? {
      var t := Next(fingerprint, s, e);
      forall i, j | 0 <= i < j < |t.past|
        ensures InOrder(t.past[i], t.past[j])
      {
        if j == |s.past| {
          assert Covered(fingerprint, s, s.past[i]);
          CallInOrder(fingerprint, s, e.req, e.w, s.past[i]);
        }
      }
    }
  }

  lemma PrefixFair(fingerprint: Request -> string, s: World, events: seq<Event>, i: nat)
    requires i <= |events| && AllFair(fingerprint, s, events)
    ensures AllFair(fingerprint, s, events[..i])
  {
    assert forall j :: 0 <= j < i ==> events[..i][..j] == events[..j];
  }

  // ---------- fences over a run ----------

  function FenceOf(fences: Fences, key: string): int { Stored(fences, key).fence }

  // No fence in the file is lower than the one in force.
  ghost predicate NotBehind(s: World) {
    forall key :: FenceOf(s.view, key) <= FenceOf(FileView(s.file), key)
  }

  lemma CallRaisesFences(fingerprint: Request -> string, s: World, req: Request, w: Surroundings, key: string)
    ensures FenceOf(s.view, key) <= FenceOf(Next(fingerprint, s, Call(req, w)).view, key)
  {
  }

  lemma RestartRaisesFences(fingerprint: Request -> string, s: World)
    ensures (forall key :: FenceOf(s.view, key) <= FenceOf(Next(fingerprint, s, Restart).view, key)) <==> NotBehind(s)
  {
  }

  ghost predicate NoneBehind(fingerprint: Request -> string, s: World, events: seq<Event>) {
    forall k :: 0 <= k < |events| && events[k].Restart? ==> NotBehind(Run(fingerprint, s, events[..k]))
  }

  lemma RunNext(fingerprint: Request -> string, s: World, events: seq<Event>, k: nat)
    requires k < |events|
    ensures Run(fingerprint, s, events[..k + 1]) == Next(fingerprint, Run(fingerprint, s, events[..k]), events[k])
  {
    assert events[..k + 1][..k] == events[..k];
  }

  lemma {:induction false} FencesRise(fingerprint: Request -> string, s: World, events: seq<Event>, i: nat, j: nat, key: string)
    requires i <= j <= |events| && NoneBehind(fingerprint, s, events)
    ensures FenceOf(Run(fingerprint, s, events[..i]).view, key) <= FenceOf(Run(fingerprint, s, events[..j]).view, key)
    decreases j
  {
    hide Next, Run, FenceOf;
    if i < j {
      FencesRise(fingerprint, s, events, i, j - 1, key);
      RunNext(fingerprint, s, events, j - 1);
      var before := Run(fingerprint, s, events[..j - 1]);
      match events[j - 1]
      case Call(req, w) => CallRaisesFences(fingerprint, before, req, w, key);
      case Restart => RestartRaisesFences(fingerprint, before);
    }
  }

  // Over a run no stored fence ever decreases, whatever is written or not, exactly when no restart finds a file that is behind.
  lemma FenceNeverDecreasesIff(fingerprint: Request -> string, s: World, events: seq<Event>)
    ensures (forall i, j, key :: 0 <= i <= j <= |events| ==>
              FenceOf(Run(fingerprint, s, events[..i]).view, key) <= FenceOf(Run(fingerprint, s, events[..j]).view, key))
       <==> NoneBehind(fingerprint, s, events)
  {
    hide Next, Run, FenceOf, NotBehind;
    if NoneBehind(fingerprint, s, events) {
      forall i, j, key | 0 <= i <= j <= |events|
        ensures FenceOf(Run(fingerprint, s, events[..i]).view, key) <= FenceOf(Run(fingerprint, s, events[..j]).view, key)
      {
        FencesRise(fingerprint, s, events, i, j, key);
      }
    } else {
      var k :| 0 <= k < |events| && events[k].Restart? && !NotBehind(Run(fingerprint, s, events[..k]));
      RestartRaisesFences(fingerprint, Run(fingerprint, s, events[..k]));
      RunNext(fingerprint, s, events, k);
      var key :| !(FenceOf(Run(fingerprint, s, events[..k]).view, key) <= FenceOf(Run(fingerprint, s, events[..k + 1]).view, key));
      assert 0 <= k <= k + 1 <= |events|;
    }
  }

  // A file that was not written: after a restart a lower fence is executed.
  lemma UnwrittenFenceIsForgotten(fingerprint: Request -> string, key: string, raw: Json)
    requires key != ""
    ensures var newer, older := Request("m", Envelope("b", key, 2), []), Request("m", Envelope("a", key, 1), []);
      var s := Run(fingerprint, Boot(None), [Call(newer, Surroundings(false, false, Answer(raw), Untouched)), Restart]);
      FenceOf(Run(fingerprint, Boot(None), [Call(newer, Surroundings(false, false, Answer(raw), Untouched))]).view, key) == 2 &&
      CallEntry(s.view, older, fingerprint(older), Surroundings(false, false, Answer(raw), Untouched)).executed
  {
    var newer := Request("m", Envelope("b", key, 2), []);
    var call := Call(newer, Surroundings(false, false, Answer(raw), Untouched));
    assert [call, Restart][..1] == [call] && [call][..0] == [];
    assert Run(fingerprint, Boot(None), [call]) == Next(fingerprint, Boot(None), call);
  }

  // The later record is of a newer fence, or of the same one and the same operation if that had a name.
  predicate Follows(earlier: FenceRecord, later: FenceRecord) {
    earlier.fence < later.fence ||
    (earlier.fence == later.fence && (earlier.operationId != "" ==> later.operationId == earlier.operationId))
  }

  lemma {:induction false} RecordsFollow(fingerprint: Request -> string, s: World, events: seq<Event>, i: nat, j: nat, key: string)
    requires i <= j <= |events| && AllFair(fingerprint, s, events)
    ensures Follows(Stored(Run(fingerprint, s, events[..i]).view, key), Stored(Run(fingerprint, s, events[..j]).view, key))
    decreases j
  {
    hide Next, Run, Stored, Follows;
    if i < j {
      RecordsFollow(fingerprint, s, events, i, j - 1, key);
      RunNext(fingerprint, s, events, j - 1);
      var before := Run(fingerprint, s, events[..j - 1]);
      assert Fair(before, events[j - 1]);
      StepFollows(fingerprint, before, events[j - 1], key);
      FollowsTransitive(Stored(Run(fingerprint, s, events[..i]).view, key), Stored(before.view, key),
                        Stored(Next(fingerprint, before, events[j - 1]).view, key));
    } else {
      FollowsItself(Stored(Run(fingerprint, s, events[..i]).view, key));
    }
  }

  lemma StepFollows(fingerprint: Request -> string, s: World, e: Event, key: string)
    requires Fair(s, e)
    ensures Follows(Stored(s.view, key), Stored(Next(fingerprint, s, e).view, key))
  {
  }

  lemma FollowsTransitive(a: FenceRecord, b: FenceRecord, c: FenceRecord)
    requires Follows(a, b) && Follows(b, c)
    ensures Follows(a, c)
  {
  }

  lemma FollowsItself(a: FenceRecord)
    ensures Follows(a, a)
  {
  }

  // A fenced request that is executed follows every record its key ever had, the ones found at the start included: it is of no older
  // fence, and under one fence of no other operation.
  lemma ExecutedIsCurrent(fingerprint: Request -> string, file: Option<Fences>, events: seq<Event>, i: nat, k: nat)
    requires i <= k < |events| && AllFair(fingerprint, Boot(file), events)
    requires events[k].Call? && Keyed(events[k].req)
    requires CallEntry(Run(fingerprint, Boot(file), events[..k]).view, events[k].req, fingerprint(events[k].req), events[k].w).executed
    ensures var req := events[k].req;
      var rec := Stored(Run(fingerprint, Boot(file), events[..i]).view, FenceKey(req.env));
      rec.fence < req.env.fence || (rec.fence == req.env.fence && (rec.operationId != "" ==> req.env.operationId == rec.operationId))
  {
    hide Run;
    RecordsFollow(fingerprint, Boot(file), events, i, k, FenceKey(events[k].req.env));
  }

  // ---------- when the file is in step ----------

  // The last record stored since the last start was written.
  predicate LastWritten(fingerprint: Request -> string, s: World, events: seq<Event>)
    decreases |events|
  {
    events == [] ||
    var k := |events| - 1;
    match events[k]
    case Restart => true
    case Call(req, w) =>
      if CallEntry(Run(fingerprint, s, events[..k]).view, req, fingerprint(req), w).remembered then w.write == Written
      else LastWritten(fingerprint, s, events[..k])
  }

  // One written record repairs all earlier failures to write, as the whole map is written.
  lemma {:induction false} LastWrittenIsInStep(fingerprint: Request -> string, file: Option<Fences>, events: seq<Event>)
    requires LastWritten(fingerprint, Boot(file), events)
    ensures InStep(Run(fingerprint, Boot(file), events))
    decreases |events|
  {
    if events != [] {
      var k := |events| - 1;
      var before := Run(fingerprint, Boot(file), events[..k]);
      match events[k]
      case Restart =>
      case Call(req, w) =>
        CallEffect(fingerprint, before, req, w);
        if !CallEntry(before.view, req, fingerprint(req), w).remembered {
          LastWrittenIsInStep(fingerprint, file, events[..k]);
        }
    }
  }

  // ---------- repetitions ----------

  // A request that is still the last one remembered on its key is answered from the record, whatever its
  // operation would answer now, and is not executed again.
  lemma LastRememberedIsReplayed(fingerprint: Request -> string, file: Option<Fences>, events: seq<Event>, i: nat, w: Surroundings)
    requires AllFair(fingerprint, Boot(file), events) && !w.cancelled
    requires LastOnKey(Run(fingerprint, Boot(file), events).past, i)
    requires fingerprint(Run(fingerprint, Boot(file), events).past[i].req) != ""
    ensures var s := Run(fingerprint, Boot(file), events);
      var again := CallEntry(s.view, s.past[i].req, fingerprint(s.past[i].req), w);
      again.response == s.past[i].response && !again.executed && !again.remembered
  {
    RunIsFenced(fingerprint, file, events);
    var s := Run(fingerprint, Boot(file), events);
    assert Covered(fingerprint, s, s.past[i]);
  }

  function Repeats(req: Request, ws: seq<Surroundings>): seq<Event> {
    seq(|ws|, i requires 0 <= i < |ws| => Call(req, ws[i]))
  }

  // Any number of repetitions: all get the same answer, and the operation is executed no more.
  lemma {:induction false} RepetitionsAreReplayed(fingerprint: Request -> string, s: World, i: nat, ws: seq<Surroundings>)
    requires Inv(fingerprint, s) && LastOnKey(s.past, i) && fingerprint(s.past[i].req) != ""
    requires forall k :: 0 <= k < |ws| ==> !ws[k].cancelled
    ensures var t := Run(fingerprint, s, Repeats(s.past[i].req, ws));
      t.view == s.view && t.file == s.file && |t.past| == |s.past| + |ws| && t.past[..|s.past|] == s.past &&
      forall k :: |s.past| <= k < |t.past| ==> t.past[k] == Entry(s.past[i].req, s.past[i].response, false, false)
    decreases |ws|
  {
    hide Inv, Dispatched;
    if ws == [] {
      assert Repeats(s.past[i].req, ws) == [];
    } else {
      var n := |ws| - 1;
      var req := s.past[i].req;
      assert Repeats(req, ws)[..n] == Repeats(req, ws[..n]);
      RepetitionsAreReplayed(fingerprint, s, i, ws[..n]);
      ReplayedFrom(fingerprint, s, i, ws[n]);
      var before := Run(fingerprint, s, Repeats(req, ws[..n]));
      assert Repeats(req, ws)[n] == Call(req, ws[n]);
      assert Run(fingerprint, s, Repeats(req, ws)) == Next(fingerprint, before, Call(req, ws[n]));
    }
  }

  lemma ReplayedFrom(fingerprint: Request -> string, s: World, i: nat, w: Surroundings)
    requires Inv(fingerprint, s) && LastOnKey(s.past, i) && fingerprint(s.past[i].req) != "" && !w.cancelled
    ensures i < |s.past|
    ensures var req := s.past[i].req;
      Dispatched(s.view, req, fingerprint(req), w) == Effect(s.past[i].response, s.view, false)
  {
    assert Covered(fingerprint, s, s.past[i]);
  }

  // When is a request that was remembered once executed again? Exactly when a call of the same fence and a
  // compatible operation, but another method or other parameters, was remembered on its key after it.
  lemma ExecutedAgainIff(fingerprint: Request -> string, file: Option<Fences>, events: seq<Event>, i: nat, w: Surroundings)
    requires AllFair(fingerprint, Boot(file), events) && !w.cancelled && !w.hookFails
    requires i < |Run(fingerprint, Boot(file), events).past| && Run(fingerprint, Boot(file), events).past[i].remembered
    requires fingerprint(Run(fingerprint, Boot(file), events).past[i].req) != ""
    ensures var s := Run(fingerprint, Boot(file), events);
      var req := s.past[i].req;
      CallEntry(s.view, req, fingerprint(req), w).executed <==>
        exists l: nat :: LastOnKey(s.past, l) && i < l && FenceKey(s.past[l].req.env) == FenceKey(req.env) &&
          s.past[l].req.env.fence == req.env.fence && s.past[l].req.env.operationId == req.env.operationId &&
          (s.past[l].req.name != req.name || fingerprint(s.past[l].req) != fingerprint(req))
  {
    hide Covered, CallEntry, RecordedBy;
    RunIsFenced(fingerprint, file, events);
    var s := Run(fingerprint, Boot(file), events);
    var req := s.past[i].req;
    var l := LastFrom(s.past, i);
    assert Covered(fingerprint, s, s.past[i]) && Covered(fingerprint, s, s.past[l]);
    AgainOver(fingerprint, s, s.past[i], s.past[l], w);
    if l == i {
      assert !CallEntry(s.view, req, fingerprint(req), w).executed;
    }
    forall m: nat | LastOnKey(s.past, m) && FenceKey(s.past[m].req.env) == FenceKey(req.env)
      ensures m == l
    {
    }
  }

  lemma AgainOver(fingerprint: Request -> string, s: World, e: Entry, last: Entry, w: Surroundings)
    requires Covered(fingerprint, s, e) && Covered(fingerprint, s, last) && e.remembered && last.remembered
    requires FenceKey(last.req.env) == FenceKey(e.req.env)
    requires Stored(s.view, FenceKey(e.req.env)) == RecordedBy(fingerprint, last)
    requires !w.cancelled && !w.hookFails && fingerprint(e.req) != ""
    ensures CallEntry(s.view, e.req, fingerprint(e.req), w).executed <==>
      last.req.env.fence == e.req.env.fence && last.req.env.operationId == e.req.env.operationId &&
      (last.req.name != e.req.name || fingerprint(last.req) != fingerprint(e.req))
  {
  }

  // The last remembered entry on the key of entry i.
  lemma LastFrom(past: seq<Entry>, i: nat) returns (l: nat)
    requires i < |past| && past[i].remembered
    ensures i <= l && LastOnKey(past, l) && FenceKey(past[l].req.env) == FenceKey(past[i].req.env)
    decreases |past| - i
  {
    if j :| i < j < |past| && past[j].remembered && FenceKey(past[j].req.env) == FenceKey(past[i].req.env) {
      l := LastFrom(past, j);
    } else {
      l := i;
    }
  }

  // ---------- restarts ----------

  function WithoutRestarts(events: seq<Event>): seq<Event>
    decreases |events|
  {
    if events == [] then []
    else
      var before := WithoutRestarts(events[..|events| - 1]);
      if events[|events| - 1].Restart? then before else before + [events[|events| - 1]]
  }

  // Restarts between dispatches change no decision, no answer and no record.
  lemma {:induction false} RestartsAreInvisible(fingerprint: Request -> string, file: Option<Fences>, events: seq<Event>)
    requires AllFair(fingerprint, Boot(file), events)
    ensures Run(fingerprint, Boot(file), events) == Run(fingerprint, Boot(file), WithoutRestarts(events))
    decreases |events|
  {
    hide Next;
    if events != [] {
      var k := |events| - 1;
      PrefixFair(fingerprint, Boot(file), events, k);
      RestartsAreInvisible(fingerprint, file, events[..k]);
      if events[k].Restart? {
        assert Fair(Run(fingerprint, Boot(file), events[..k]), Restart);
        RestartKeepsIff(fingerprint, Run(fingerprint, Boot(file), events[..k]));
      } else {
        var calls := WithoutRestarts(events[..k]);
        assert (calls + [events[k]])[..|calls|] == calls;
      }
    }
  }

  lemma RestartKeepsIff(fingerprint: Request -> string, s: World)
    ensures Next(fingerprint, s, Restart) == s <==> InStep(s)
  {
  }
}
