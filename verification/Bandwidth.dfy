// The checkpointed bandwidth meter (agent/operations/bandwidth.go, lines 134-254; usage.go, lines 52-54).
// A log is a file generation (inode) with whole parsed lines; offsets count lines.
module Bandwidth {
  import opened SharedTypes

  type Month = int
  type SiteId = string

  // One log line. `id` tells apart lines with equal text; `ok` is false for a line that does not parse.
  datatype Line = Line(id: nat, ok: bool, month: Month, bytes: nat)

  datatype Log = Log(inode: nat, lines: seq<Line>)

  datatype Checkpoint = Checkpoint(inode: nat, size: nat, offset: nat, month: Month, bytes: nat)

  // ---------- one read, as a function ----------

  predicate Matches(line: Line, month: Month) {
    line.ok && line.month == month
  }

  // The lines of a month, in order.
  function OfMonth(lines: seq<Line>, month: Month): seq<Line> {
    if lines == [] then []
    else
      var before := OfMonth(lines[..|lines| - 1], month);
      var last := lines[|lines| - 1];
      if Matches(last, month) then before + [last] else before
  }

  function Sum(lines: seq<Line>): nat {
    if lines == [] then 0 else Sum(lines[..|lines| - 1]) + lines[|lines| - 1].bytes
  }

  predicate Resumes(cp: Option<Checkpoint>, log: Log, month: Month) {
    cp.Some? && cp.value.inode == log.inode && cp.value.month == month && |log.lines| >= cp.value.offset
  }

  // The line at which a read starts.
  function Start(cp: Option<Checkpoint>, log: Log, month: Month): (n: nat)
    ensures n <= |log.lines|
  {
    if Resumes(cp, log, month) then cp.value.offset else 0
  }

  function Scanned(cp: Option<Checkpoint>, log: Log, month: Month): seq<Line> {
    OfMonth(log.lines[Start(cp, log, month)..], month)
  }

  function NewCheckpoint(cp: Option<Checkpoint>, log: Log, month: Month): Checkpoint {
    var already := if Resumes(cp, log, month) then cp.value.bytes else 0;
    Checkpoint(log.inode, |log.lines|, |log.lines|, month, already + Sum(Scanned(cp, log, month)))
  }

  function Lookup<K, V>(m: map<K, V>, k: K): Option<V> {
    if k in m then Some(m[k]) else None
  }

  function LookupOr<K, V>(m: map<K, V>, k: K, default: V): V {
    if k in m then m[k] else default
  }

  predicate ValidSite(id: SiteId) {
    id != "" && '/' !in id && '\\' !in id
  }

  predicate Readable(logs: map<SiteId, Log>, id: SiteId) {
    ValidSite(id) && id in logs
  }

  // The checkpoints and the scanned lines after reading the sites in order.
  function ReadAll(cps: map<SiteId, Checkpoint>, logs: map<SiteId, Log>, ids: seq<SiteId>, month: Month)
    : (r: (map<SiteId, Checkpoint>, seq<Line>))
    decreases |ids|
  {
    if ids == [] then (cps, [])
    else
      var (before, lines) := ReadAll(cps, logs, ids[..|ids| - 1], month);
      var id := ids[|ids| - 1];
      if Readable(logs, id) then
        var cp := Lookup(before, id);
        (before[id := NewCheckpoint(cp, logs[id], month)], lines + Scanned(cp, logs[id], month))
      else (before, lines)
  }

  lemma {:induction false} SumConcat(a: seq<Line>, b: seq<Line>)
    ensures Sum(a + b) == Sum(a) + Sum(b)
    decreases |b|
  {
    if b == [] {
      assert a + b == a;
    } else {
      assert (a + b)[..|a + b| - 1] == a + b[..|b| - 1];
      SumConcat(a, b[..|b| - 1]);
    }
  }

  lemma OfMonthNext(lines: seq<Line>, start: nat, pos: nat, month: Month)
    requires start <= pos < |lines|
    ensures Sum(OfMonth(lines[start..pos + 1], month))
         == Sum(OfMonth(lines[start..pos], month)) + if Matches(lines[pos], month) then lines[pos].bytes else 0
  {
    var seen := lines[start..pos + 1];
    assert seen[..|seen| - 1] == lines[start..pos];
  }

  // The bytes of the lines that parsed and whose date is in the month.
  function BytesIn(lines: seq<Line>, month: Month): nat
    decreases |lines|
  {
    if lines == [] then 0 else
      var l := lines[|lines| - 1];
      BytesIn(lines[..|lines| - 1], month) + if l.ok && l.month == month then l.bytes else 0
  }

  lemma {:induction false} SumIsBytesIn(lines: seq<Line>, month: Month)
    ensures Sum(OfMonth(lines, month)) == BytesIn(lines, month)
    decreases |lines|
  {
    if lines != [] {
      SumIsBytesIn(lines[..|lines| - 1], month);
    }
  }

  lemma {:induction false} BytesInConcat(a: seq<Line>, b: seq<Line>, month: Month)
    ensures BytesIn(a + b, month) == BytesIn(a, month) + BytesIn(b, month)
    decreases |b|
  {
    if b == [] {
      assert a + b == a;
    } else {
      assert (a + b)[..|a + b| - 1] == a + b[..|b| - 1];
      BytesInConcat(a, b[..|b| - 1], month);
    }
  }

  // The bytes of the month in all readable logs of the sites; a site id that is empty or holds a slash is passed over.
  function BytesInAll(logs: map<SiteId, Log>, ids: seq<SiteId>, month: Month): nat
    decreases |ids|
  {
    if ids == [] then 0 else
      var id := ids[|ids| - 1];
      BytesInAll(logs, ids[..|ids| - 1], month) +
      if id != "" && '/' !in id && '\\' !in id && id in logs then BytesIn(logs[id].lines, month) else 0
  }

  // ---------- the meter ----------

  // The scanner loop: the bytes of the month from `start` on, and the position where it stops.
  method ScanLines(lines: seq<Line>, start: nat, month: Month) returns (delta: nat, offset: nat)
    requires start <= |lines|
    ensures delta == Sum(OfMonth(lines[start..], month)) && offset == |lines|
  {
    delta, offset := 0, start;
    while offset < |lines|
      invariant start <= offset <= |lines|
      invariant delta == Sum(OfMonth(lines[start..offset], month))
    {
      var line := lines[offset];
      OfMonthNext(lines, start, offset, month);
      if line.ok && line.month == month {
        delta := delta + line.bytes;
      }
      offset := offset + 1;
    }
    assert lines[start..offset] == lines[start..];
  }

  class Meter {
    var checkpoints: map<SiteId, Checkpoint>
    var totals: map<Month, nat>

    constructor ()
      ensures checkpoints == map[] && totals == map[]
    {
      checkpoints := map[];
      totals := map[];
    }

    method ReadBandwidthDelta(logs: map<SiteId, Log>, id: SiteId, month: Month) returns (delta: nat)
      modifies this`checkpoints
      ensures id !in logs ==> delta == 0 && checkpoints == old(checkpoints)
      ensures id in logs ==>
        var cp := Lookup(old(checkpoints), id);
        delta == Sum(Scanned(cp, logs[id], month)) &&
        checkpoints == old(checkpoints)[id := NewCheckpoint(cp, logs[id], month)]
      ensures id in logs ==>
        var log := logs[id];
        var goesOn := id in old(checkpoints) && old(checkpoints)[id].inode == log.inode && old(checkpoints)[id].month == month &&
          old(checkpoints)[id].offset <= |log.lines|;
        delta == BytesIn(log.lines[if goesOn then old(checkpoints)[id].offset else 0..], month) &&
        checkpoints[id] == Checkpoint(log.inode, |log.lines|, |log.lines|, month, delta + if goesOn then old(checkpoints)[id].bytes else 0)
    {
      delta := 0;
      if id !in logs {
        return;
      }
      var log := logs[id];
      var start, already := 0, 0;
      if id in checkpoints {
        var cp := checkpoints[id];
        if cp.inode == log.inode && cp.month == month && |log.lines| >= cp.offset {
          start, already := cp.offset, cp.bytes;
        }
      }
      ghost var found := Lookup(checkpoints, id);
      assert start == Start(found, log, month) && already == if Resumes(found, log, month) then found.value.bytes else 0;
      var offset;
      delta, offset := ScanLines(log.lines, start, month);
      if offset == 0 {
        offset := |log.lines|;
      }
      SumIsBytesIn(log.lines[start..], month);
      checkpoints := checkpoints[id := Checkpoint(log.inode, |log.lines|, offset, month, already + delta)];
    }

    method SumNginxBandwidth(logs: map<SiteId, Log>, ids: seq<SiteId>, month: Month) returns (total: nat)
      modifies this`checkpoints
      ensures var (cps, lines) := ReadAll(old(checkpoints), logs, ids, month);
        checkpoints == cps && total == LookupOr(totals, month, 0) + Sum(lines)
    {
      total := if month in totals then totals[month] else 0;
      for i := 0 to |ids|
        invariant var (cps, lines) := ReadAll(old(checkpoints), logs, ids[..i], month);
          checkpoints == cps && total == LookupOr(totals, month, 0) + Sum(lines)
      {
        var id := ids[i];
        ghost var (cps, lines) := ReadAll(old(checkpoints), logs, ids[..i], month);
        assert ids[..i + 1][..i] == ids[..i];
        if id == "" || '/' in id || '\\' in id {
          continue;
        }
        var delta := ReadBandwidthDelta(logs, id, month);
        if id in logs {
          SumConcat(lines, Scanned(Lookup(cps, id), logs[id], month));
        }
        total := total + delta;
      }
      assert ids[..|ids|] == ids;
    }

    // The measurement: sum first, then persist the monthly total.
    method MeasureAccountUsage(logs: map<SiteId, Log>, ids: seq<SiteId>, month: Month) returns (total: nat)
      modifies this
      ensures var (cps, lines) := ReadAll(old(checkpoints), logs, ids, month);
        checkpoints == cps && total == LookupOr(old(totals), month, 0) + Sum(lines)
      ensures totals == old(totals)[month := total]
    {
      total := SumNginxBandwidth(logs, ids, month);
      totals := totals[month := total];
    }
  }

  // ---------- runs ----------

  // The files together with bookkeeping that no code keeps: for every site the shortest its log has been
  // since it was last read (low), and for every month the lines that were in some log when it was measured
  // (present), the lines whose bytes are in the persisted total (counted), those scanned by measurements that
  // crashed before they persisted it (lost) and those scanned by the measurement under way (pending).
  datatype World = World(
    logs: map<SiteId, Log>,
    cps: map<SiteId, Checkpoint>,
    totals: map<Month, nat>,
    clock: Month,
    nextId: nat,
    low: map<SiteId, nat>,
    present: map<Month, set<Line>>,
    counted: map<Month, seq<Line>>,
    lost: map<Month, seq<Line>>,
    pending: seq<Line>)

  datatype Event =
    | Append(site: SiteId, ok: bool, month: Month, bytes: nat)
    | Replace(site: SiteId, inode: nat)
    | Remove(site: SiteId)
    | Truncate(site: SiteId, keep: nat)
    | Measure(ids: seq<SiteId>, month: Month)
    | CrashedMeasure(ids: seq<SiteId>, month: Month)

  function Min(a: nat, b: nat): nat {
    if a < b then a else b
  }

  function Low(w: World, site: SiteId): nat {
    LookupOr(w.low, site, 0)
  }

  function Present(w: World, month: Month): set<Line> {
    LookupOr(w.present, month, {})
  }

  function Counted(w: World, month: Month): seq<Line> {
    LookupOr(w.counted, month, [])
  }

  function Lost(w: World, month: Month): seq<Line> {
    LookupOr(w.lost, month, [])
  }

  function ToSet(lines: seq<Line>): set<Line> {
    set i | 0 <= i < |lines| :: lines[i]
  }

  // Reading one site: what the code saves, and who was there to be read.
  function ReadSite(w: World, id: SiteId, month: Month): World {
    if !Readable(w.logs, id) then w
    else
      var log := w.logs[id];
      var cp := Lookup(w.cps, id);
      w.(cps := w.cps[id := NewCheckpoint(cp, log, month)],
         low := w.low[id := |log.lines|],
         present := w.present[month := Present(w, month) + ToSet(OfMonth(log.lines, month))],
         pending := w.pending + Scanned(cp, log, month))
  }

  function ReadSites(w: World, ids: seq<SiteId>, month: Month): World
    decreases |ids|
  {
    if ids == [] then w else ReadSite(ReadSites(w, ids[..|ids| - 1], month), ids[|ids| - 1], month)
  }

  // Persisting the total that the measurement arrived at.
  function Finish(w: World, month: Month): World {
    w.(totals := w.totals[month := LookupOr(w.totals, month, 0) + Sum(w.pending)],
       counted := w.counted[month := Counted(w, month) + w.pending],
       pending := [])
  }

  // The checkpoints are saved, the total is not.
  function Crash(w: World, month: Month): World {
    w.(lost := w.lost[month := Lost(w, month) + w.pending], pending := [])
  }

  function Next(w: World, e: Event): World {
    match e
    case Append(site, ok, month, bytes) =>
      if site in w.logs then
        var log := w.logs[site];
        w.(logs := w.logs[site := log.(lines := log.lines + [Line(w.nextId, ok, month, bytes)])], nextId := w.nextId + 1)
      else w
    case Replace(site, inode) => w.(logs := w.logs[site := Log(inode, [])], low := w.low[site := 0])
    case Remove(site) => w.(logs := w.logs - {site}, low := w.low[site := 0])
    case Truncate(site, keep) =>
      if site in w.logs && keep <= |w.logs[site].lines| then
        var log := w.logs[site];
        w.(logs := w.logs[site := log.(lines := log.lines[..keep])], low := w.low[site := Min(Low(w, site), keep)])
      else w
    case Measure(ids, month) =>
      Finish(ReadSites(w.(clock := month), ids, month), month)
    case CrashedMeasure(ids, month) =>
      Crash(ReadSites(w.(clock := month), ids, month), month)
  }

  // The lines of a log that were in it when the site was last measured this month.
  function Seen(w: World, id: SiteId, month: Month): nat {
    if id in w.cps && w.cps[id].month == month then Low(w, id) else 0
  }

  // Nothing was cut from the log since it was last read this month, or all of it was and the code can tell.
  predicate Faithful(w: World, id: SiteId, month: Month) {
    Readable(w.logs, id) && id in w.cps && w.cps[id].month == month ==>
      var cp := w.cps[id];
      var log := w.logs[id];
      (cp.inode == log.inode && Low(w, id) == cp.offset) ||
      (Low(w, id) == 0 && (cp.inode != log.inode || |log.lines| < cp.offset))
  }

  function Between(lines: seq<Line>, a: nat, b: nat): seq<Line> {
    if a <= b <= |lines| then lines[a..b] else if b <= a <= |lines| then lines[b..a] else []
  }

  // Between where a read starts and where it should start there is no line of the month.
  predicate Clean(w: World, id: SiteId, month: Month) {
    Readable(w.logs, id) ==>
      OfMonth(Between(w.logs[id].lines, Start(Lookup(w.cps, id), w.logs[id], month), Seen(w, id, month)), month) == []
  }

  // Months do not go back.
  predicate Ordered(w: World, e: Event) {
    e.Measure? || e.CrashedMeasure? ==> w.clock <= e.month
  }

  predicate Allowed(w: World, e: Event) {
    Ordered(w, e) && (e.Measure? || e.CrashedMeasure? ==> forall id :: id in e.ids ==> Clean(w, id, e.month))
  }

  // ---------- what every run keeps ----------

  ghost predicate LinesUnique(w: World) {
    (forall s, i :: s in w.logs && 0 <= i < |w.logs[s].lines| ==> w.logs[s].lines[i].id < w.nextId) &&
    (forall s, i, t, j ::
      s in w.logs && 0 <= i < |w.logs[s].lines| && t in w.logs && 0 <= j < |w.logs[t].lines| ==>
      w.logs[s].lines[i].id == w.logs[t].lines[j].id ==> s == t && i == j)
  }

  ghost predicate OldLines(present: set<Line>, m: Month, clock: Month, nextId: nat) {
    forall l :: l in present ==> m <= clock && l.id < nextId && Matches(l, m)
  }

  ghost predicate PresentOld(w: World) {
    forall m :: OldLines(Present(w, m), m, w.clock, w.nextId)
  }

  ghost predicate CheckpointsSane(w: World) {
    forall s :: s in w.cps ==>
      w.cps[s].month <= w.clock && Low(w, s) <= w.cps[s].offset &&
      (s in w.logs ==> Low(w, s) <= |w.logs[s].lines| && (w.cps[s].inode != w.logs[s].inode ==> Low(w, s) == 0))
  }

  // From the current month on, a line of a log was present exactly if it lies below the seen mark.
  ghost predicate SeenMarks(w: World) {
    forall m, s, i :: w.clock <= m && s in w.logs && 0 <= i < |w.logs[s].lines| && Matches(w.logs[s].lines[i], m) ==>
      (w.logs[s].lines[i] in Present(w, m) <==> i < Seen(w, s, m))
  }

  ghost predicate Distinct(lines: seq<Line>) {
    forall i, j :: 0 <= i < j < |lines| ==> lines[i] != lines[j]
  }

  function Ledger(w: World, month: Month): seq<Line> {
    Lost(w, month) + Counted(w, month) + (if month == w.clock then w.pending else [])
  }

  // The ledger of a month lists the present lines, each once; the persisted total is the bytes of the counted ones.
  ghost predicate LedgerOk(total: nat, counted: seq<Line>, ledger: seq<Line>, present: set<Line>) {
    total == Sum(counted) && Distinct(ledger) && ToSet(ledger) == present
  }

  ghost predicate LedgerOkAt(w: World, m: Month) {
    LedgerOk(LookupOr(w.totals, m, 0), Counted(w, m), Ledger(w, m), Present(w, m))
  }

  ghost predicate LedgerExact(w: World) {
    forall m :: LedgerOkAt(w, m)
  }

  ghost predicate FilesOk(w: World) {
    LinesUnique(w) && PresentOld(w) && CheckpointsSane(w) && SeenMarks(w)
  }

  ghost predicate Inv(w: World) {
    FilesOk(w) && LedgerExact(w)
  }

  lemma {:induction false} OfMonthMembers(lines: seq<Line>, month: Month)
    ensures forall l :: l in OfMonth(lines, month) <==> l in lines && Matches(l, month)
    ensures |OfMonth(lines, month)| <= |lines|
    decreases |lines|
  {
    if lines != [] {
      var k := |lines| - 1;
      OfMonthMembers(lines[..k], month);
      assert lines == lines[..k] + [lines[k]];
    }
  }

  lemma {:induction false} OfMonthDistinct(lines: seq<Line>, month: Month)
    requires Distinct(lines)
    ensures Distinct(OfMonth(lines, month))
    decreases |lines|
  {
    if lines != [] {
      var k := |lines| - 1;
      OfMonthDistinct(lines[..k], month);
      OfMonthMembers(lines[..k], month);
      assert lines[k] !in lines[..k];
    }
  }

  lemma ToSetMembers(lines: seq<Line>)
    ensures forall l :: l in ToSet(lines) <==> l in lines
  {
  }

  // A read starts at the seen mark exactly when the site is in a state the code can tell apart.
  lemma FaithfulIffStartsAtSeen(w: World, id: SiteId, month: Month)
    requires CheckpointsSane(w) && Readable(w.logs, id)
    ensures Faithful(w, id, month) <==> Start(Lookup(w.cps, id), w.logs[id], month) == Seen(w, id, month)
  {
  }

  lemma LogDistinct(w: World, id: SiteId, from: nat)
    requires LinesUnique(w) && id in w.logs && from <= |w.logs[id].lines|
    ensures Distinct(w.logs[id].lines[from..])
  {
  }

  lemma FaithfulIsClean(w: World, id: SiteId, month: Month)
    requires CheckpointsSane(w) && Faithful(w, id, month)
    ensures Clean(w, id, month)
  {
    if Readable(w.logs, id) {
      FaithfulIffStartsAtSeen(w, id, month);
    }
  }

  // The lines of the month in the log that were not present before.
  ghost predicate AreUnseen(w: World, id: SiteId, month: Month, scanned: seq<Line>)
    requires id in w.logs
  {
    forall l :: l in scanned <==> l in w.logs[id].lines && Matches(l, month) && l !in Present(w, month)
  }

  lemma ScannedAt(w: World, id: SiteId, month: Month, l: Line)
    requires id in w.logs
    ensures var start := Start(Lookup(w.cps, id), w.logs[id], month);
      l in Scanned(Lookup(w.cps, id), w.logs[id], month) <==>
        Matches(l, month) && exists i :: start <= i < |w.logs[id].lines| && w.logs[id].lines[i] == l
  {
    OfMonthMembers(w.logs[id].lines[Start(Lookup(w.cps, id), w.logs[id], month)..], month);
  }

  // A read scans exactly the lines of the month that are new, each once, if and only if the read is clean.
  lemma ScannedAreTheUnseenIff(w: World, id: SiteId, month: Month)
    requires FilesOk(w) && w.clock <= month && Readable(w.logs, id)
    ensures Distinct(Scanned(Lookup(w.cps, id), w.logs[id], month))
    ensures AreUnseen(w, id, month, Scanned(Lookup(w.cps, id), w.logs[id], month)) <==> Clean(w, id, month)
  {
    hide PresentOld;
    var lines := w.logs[id].lines;
    var start, seen := Start(Lookup(w.cps, id), w.logs[id], month), Seen(w, id, month);
    LogDistinct(w, id, start);
    OfMonthDistinct(lines[start..], month);
    OfMonthMembers(Between(lines, start, seen), month);
    SeenIsInLog(w, id, month);
    if Clean(w, id, month) {
      forall l
        ensures l in Scanned(Lookup(w.cps, id), w.logs[id], month) <==> l in lines && Matches(l, month) && l !in Present(w, month)
      {
        CleanAt(w, id, month, l);
      }
    } else {
      var gap := Between(lines, start, seen);
      var l := OfMonth(gap, month)[0];
      assert l in OfMonth(gap, month);
      var i :| 0 <= i < |lines| && lines[i] == l && (start <= i < seen || seen <= i < start);
      ScannedAt(w, id, month, l);
      assert l in Present(w, month) <==> i < seen;
      if i < start {
        assert forall j :: start <= j < |lines| ==> lines[j] != l;
      }
    }
  }

  lemma SeenIsInLog(w: World, id: SiteId, month: Month)
    requires CheckpointsSane(w) && Readable(w.logs, id)
    ensures Seen(w, id, month) <= |w.logs[id].lines|
  {
  }

  lemma CleanAt(w: World, id: SiteId, month: Month, l: Line)
    requires FilesOk(w) && w.clock <= month && Readable(w.logs, id) && Clean(w, id, month)
    ensures l in Scanned(Lookup(w.cps, id), w.logs[id], month) <==>
      l in w.logs[id].lines && Matches(l, month) && l !in Present(w, month)
  {
    hide PresentOld;
    var lines := w.logs[id].lines;
    var start, seen := Start(Lookup(w.cps, id), w.logs[id], month), Seen(w, id, month);
    SeenIsInLog(w, id, month);
    ScannedAt(w, id, month, l);
    OfMonthMembers(Between(lines, start, seen), month);
    if l in lines && Matches(l, month) {
      var i :| 0 <= i < |lines| && lines[i] == l;
      assert l in Present(w, month) <==> i < seen;
      assert forall j :: 0 <= j < |lines| && lines[j] == l ==> j == i;
      InBetween(lines, start, seen, i);
    }
  }

  lemma InBetween(lines: seq<Line>, a: nat, b: nat, i: nat)
    requires a <= |lines| && b <= |lines| && i < |lines|
    ensures a <= i < b || b <= i < a ==> lines[i] in Between(lines, a, b)
  {
    if a <= i < b {
      assert lines[a..b][i - a] == lines[i];
    } else if b <= i < a {
      assert lines[b..a][i - b] == lines[i];
    }
  }

  lemma ScannedAreTheUnseen(w: World, id: SiteId, month: Month)
    requires FilesOk(w) && month == w.clock && Readable(w.logs, id) && Clean(w, id, month)
    ensures Distinct(Scanned(Lookup(w.cps, id), w.logs[id], month))
    ensures forall l :: l in Scanned(Lookup(w.cps, id), w.logs[id], month) <==>
      l in w.logs[id].lines && Matches(l, month) && l !in Present(w, month)
  {
    hide FilesOk, Clean;
    ScannedAreTheUnseenIff(w, id, month);
  }

  lemma LedgerGrows(total: nat, counted: seq<Line>, ledger: seq<Line>, present: set<Line>,
                    scanned: seq<Line>, present': set<Line>)
    requires LedgerOk(total, counted, ledger, present) && Distinct(scanned)
    requires forall l :: l in present' <==> l in present || l in scanned
    requires forall l :: l in scanned ==> l !in present
    ensures LedgerOk(total, counted, ledger + scanned, present')
  {
    ToSetMembers(ledger);
    ToSetMembers(scanned);
    ToSetMembers(ledger + scanned);
    forall i, j | 0 <= i < j < |ledger + scanned|
      ensures (ledger + scanned)[i] != (ledger + scanned)[j]
    {
      if i < |ledger| <= j {
        assert ledger[i] in ToSet(ledger);
        assert scanned[j - |ledger|] in scanned;
      }
    }
  }

  lemma ReadSiteKeepsLedger(w: World, id: SiteId, month: Month)
    requires Inv(w) && month == w.clock && Readable(w.logs, id) && Clean(w, id, month)
    ensures LedgerExact(ReadSite(w, id, month))
  {
    hide LedgerOk, Clean, SeenMarks, LinesUnique, CheckpointsSane, PresentOld;
    var r := ReadSite(w, id, month);
    var scanned := Scanned(Lookup(w.cps, id), w.logs[id], month);
    ScannedAreTheUnseen(w, id, month);
    OfMonthMembers(w.logs[id].lines, month);
    ToSetMembers(OfMonth(w.logs[id].lines, month));
    forall m
      ensures LedgerOkAt(r, m)
    {
      assert LedgerOkAt(w, m);
      if m == month {
        assert Ledger(r, month) == Ledger(w, month) + scanned;
        LedgerGrows(LookupOr(w.totals, m, 0), Counted(w, m), Ledger(w, m), Present(w, m), scanned, Present(r, m));
      }
    }
  }

  lemma ReadSiteKeepsMarks(w: World, id: SiteId, month: Month)
    requires FilesOk(w) && month == w.clock && Readable(w.logs, id)
    ensures SeenMarks(ReadSite(w, id, month))
  {
    var r := ReadSite(w, id, month);
    OfMonthMembers(w.logs[id].lines, month);
    forall m, s, i | r.clock <= m && s in r.logs && 0 <= i < |r.logs[s].lines| && Matches(r.logs[s].lines[i], m)
      ensures r.logs[s].lines[i] in Present(r, m) <==> i < Seen(r, s, m)
    {
      var l := r.logs[s].lines[i];
      assert OldLines(Present(w, m), m, w.clock, w.nextId);
      if m == month && s != id {
        assert l !in w.logs[id].lines;
      }
    }
  }

  lemma ReadSiteKeepsOld(w: World, id: SiteId, month: Month)
    requires FilesOk(w) && month == w.clock && Readable(w.logs, id)
    ensures PresentOld(ReadSite(w, id, month))
  {
    var r := ReadSite(w, id, month);
    var lines := w.logs[id].lines;
    OfMonthMembers(lines, month);
    ToSetMembers(OfMonth(lines, month));
    forall m
      ensures OldLines(Present(r, m), m, r.clock, r.nextId)
    {
      assert OldLines(Present(w, m), m, w.clock, w.nextId);
      forall l | m == month && l in OfMonth(lines, month)
        ensures l.id < r.nextId && Matches(l, m)
      {
        var i :| 0 <= i < |lines| && lines[i] == l;
      }
    }
  }

  lemma ReadSiteKeepsFiles(w: World, id: SiteId, month: Month)
    requires FilesOk(w) && month == w.clock
    ensures FilesOk(ReadSite(w, id, month)) && ReadSite(w, id, month).clock == month
  {
    if Readable(w.logs, id) {
      ReadSiteKeepsMarks(w, id, month);
      ReadSiteKeepsOld(w, id, month);
    }
  }

  // A site stays clean while others are read, and is clean once it is read.
  lemma ReadSiteKeepsClean(w: World, id: SiteId, month: Month, other: SiteId)
    requires Clean(w, other, month)
    ensures Clean(ReadSite(w, id, month), other, month)
  {
  }

  lemma {:induction false} ReadSitesKeepFiles(w: World, ids: seq<SiteId>, month: Month)
    requires FilesOk(w) && month == w.clock
    ensures FilesOk(ReadSites(w, ids, month)) && ReadSites(w, ids, month).clock == month
    decreases |ids|
  {
    hide FilesOk, ReadSite;
    if ids != [] {
      var k := |ids| - 1;
      ReadSitesKeepFiles(w, ids[..k], month);
      ReadSiteKeepsFiles(ReadSites(w, ids[..k], month), ids[k], month);
    }
  }

  lemma {:induction false} ReadSitesKeepInv(w: World, ids: seq<SiteId>, month: Month)
    requires Inv(w) && month == w.clock && forall id :: id in ids ==> Clean(w, id, month)
    ensures Inv(ReadSites(w, ids, month)) && ReadSites(w, ids, month).clock == month
    ensures forall s :: Clean(w, s, month) ==> Clean(ReadSites(w, ids, month), s, month)
    decreases |ids|
  {
    hide FilesOk, LedgerExact, Clean, ReadSite;
    if ids != [] {
      var k := |ids| - 1;
      var before := ReadSites(w, ids[..k], month);
      ReadSitesKeepInv(w, ids[..k], month);
      assert Clean(w, ids[k], month);
      ReadSiteKeepsFiles(before, ids[k], month);
      if Readable(before.logs, ids[k]) {
        ReadSiteKeepsLedger(before, ids[k], month);
      } else {
        UnreadableIsSkipped(before, ids[k], month);
      }
      forall s | Clean(w, s, month)
        ensures Clean(ReadSites(w, ids, month), s, month)
      {
        ReadSiteKeepsClean(before, ids[k], month, s);
      }
    }
  }

  lemma UnreadableIsSkipped(w: World, id: SiteId, month: Month)
    requires !Readable(w.logs, id)
    ensures ReadSite(w, id, month) == w
  {
  }

  lemma PresentStaysOld(w: World, r: World)
    requires PresentOld(w) && r.present == w.present && w.clock <= r.clock && w.nextId <= r.nextId
    ensures PresentOld(r)
  {
    forall m
      ensures OldLines(Present(r, m), m, r.clock, r.nextId)
    {
      assert OldLines(Present(w, m), m, w.clock, w.nextId);
    }
  }

  lemma AdvanceKeepsFiles(w: World, month: Month)
    requires FilesOk(w) && w.clock <= month
    ensures FilesOk(w.(clock := month))
  {
    var r := w.(clock := month);
    PresentStaysOld(w, r);
    forall m, s, i | r.clock <= m && s in r.logs && 0 <= i < |r.logs[s].lines| && Matches(r.logs[s].lines[i], m)
      ensures r.logs[s].lines[i] in Present(r, m) <==> i < Seen(r, s, m)
    {
      assert w.logs[s].lines[i] in Present(w, m) <==> i < Seen(w, s, m);
    }
  }

  lemma AdvanceKeepsInv(w: World, month: Month)
    requires Inv(w) && w.pending == [] && w.clock <= month
    ensures Inv(w.(clock := month))
    ensures forall s :: Clean(w, s, month) ==> Clean(w.(clock := month), s, month)
  {
    hide LedgerOk, FilesOk;
    var r := w.(clock := month);
    AdvanceKeepsFiles(w, month);
    forall m
      ensures LedgerOkAt(r, m)
    {
      assert LedgerOkAt(w, m);
      assert Ledger(r, m) == Ledger(w, m);
    }
  }

  lemma FinishKeepsLedger(w: World, month: Month)
    requires LedgerExact(w) && month == w.clock
    ensures LedgerExact(Finish(w, month))
  {
    hide LedgerOk;
    var r := Finish(w, month);
    SumConcat(Counted(w, month), w.pending);
    forall m
      ensures LedgerOkAt(r, m)
    {
      assert LedgerOkAt(w, m);
      assert Ledger(r, m) == Ledger(w, m);
      if m == month {
        TotalMoves(LookupOr(w.totals, m, 0), Counted(w, m), w.pending, Ledger(w, m), Present(w, m));
      }
    }
  }

  lemma TotalMoves(total: nat, counted: seq<Line>, pending: seq<Line>, ledger: seq<Line>, present: set<Line>)
    requires LedgerOk(total, counted, ledger, present)
    ensures LedgerOk(total + Sum(pending), counted + pending, ledger, present)
  {
    SumConcat(counted, pending);
  }

  // The parts of the invariant that do not look at the ledger.
  lemma SameFiles(w: World, r: World)
    requires LinesUnique(w) && PresentOld(w) && CheckpointsSane(w) && SeenMarks(w)
    requires r.logs == w.logs && r.cps == w.cps && r.low == w.low && r.present == w.present
    requires r.clock == w.clock && r.nextId == w.nextId
    ensures LinesUnique(r) && PresentOld(r) && CheckpointsSane(r) && SeenMarks(r)
  {
    assert forall s, m :: Seen(r, s, m) == Seen(w, s, m);
    assert forall m :: Present(r, m) == Present(w, m);
  }

  lemma CrashKeepsLedger(w: World, month: Month)
    requires LedgerExact(w) && month == w.clock
    ensures LedgerExact(Crash(w, month))
  {
    hide LedgerOk;
    var r := Crash(w, month);
    forall m
      ensures LedgerOkAt(r, m)
    {
      assert LedgerOkAt(w, m);
      if m == month {
        Reordered(LookupOr(w.totals, m, 0), Lost(w, m), Counted(w, m), w.pending, Present(w, m));
        assert Ledger(r, m) == Lost(w, m) + w.pending + Counted(w, m);
      } else {
        assert Ledger(r, m) == Ledger(w, m);
      }
    }
  }

  lemma Reordered(total: nat, lost: seq<Line>, counted: seq<Line>, pending: seq<Line>, present: set<Line>)
    requires LedgerOk(total, counted, lost + counted + pending, present)
    ensures LedgerOk(total, counted, lost + pending + counted, present)
  {
    var a, b := lost + counted + pending, lost + pending + counted;
    ToSetMembers(a);
    ToSetMembers(b);
    assert forall l :: l in a <==> l in b;
    forall i, j | 0 <= i < j < |b|
      ensures b[i] != b[j]
    {
      Place(lost, counted, pending, i);
      Place(lost, counted, pending, j);
    }
  }

  // Where the i-th line stood before.
  function Origin(lost: nat, counted: nat, pending: nat, i: nat): nat {
    if i < lost then i else if i < lost + pending then i + counted else i - pending
  }

  lemma Place(lost: seq<Line>, counted: seq<Line>, pending: seq<Line>, i: nat)
    requires i < |lost + pending + counted|
    ensures var k := Origin(|lost|, |counted|, |pending|, i);
      k < |lost + counted + pending| && (lost + counted + pending)[k] == (lost + pending + counted)[i]
  {
  }

  lemma SameLedger(w: World, r: World)
    requires LedgerExact(w)
    requires r.totals == w.totals && r.counted == w.counted && r.pending == w.pending && r.present == w.present
    requires r.clock == w.clock && r.lost == w.lost
    ensures LedgerExact(r)
  {
    hide LedgerOk;
    forall m
      ensures LedgerOkAt(r, m)
    {
      assert LedgerOkAt(w, m);
    }
  }

  lemma AppendKeepsUnique(w: World, site: SiteId, ok: bool, month: Month, bytes: nat)
    requires LinesUnique(w) && CheckpointsSane(w) && site in w.logs
    ensures var r := Next(w, Append(site, ok, month, bytes)); LinesUnique(r) && CheckpointsSane(r)
  {
  }

  lemma AppendKeepsMarks(w: World, site: SiteId, ok: bool, month: Month, bytes: nat)
    requires FilesOk(w) && site in w.logs
    ensures SeenMarks(Next(w, Append(site, ok, month, bytes)))
  {
    hide LinesUnique;
    var r := Next(w, Append(site, ok, month, bytes));
    var n := |w.logs[site].lines|;
    forall m, s, i | r.clock <= m && s in r.logs && 0 <= i < |r.logs[s].lines| && Matches(r.logs[s].lines[i], m)
      ensures r.logs[s].lines[i] in Present(r, m) <==> i < Seen(r, s, m)
    {
      if s == site && i == n {
        assert OldLines(Present(w, m), m, w.clock, w.nextId);
      } else {
        assert r.logs[s].lines[i] == w.logs[s].lines[i];
        assert w.logs[s].lines[i] in Present(w, m) <==> i < Seen(w, s, m);
      }
    }
  }

  lemma AppendKeepsFiles(w: World, site: SiteId, ok: bool, month: Month, bytes: nat)
    requires FilesOk(w) && site in w.logs
    ensures FilesOk(Next(w, Append(site, ok, month, bytes)))
  {
    hide LinesUnique, PresentOld, CheckpointsSane, SeenMarks;
    AppendKeepsUnique(w, site, ok, month, bytes);
    AppendKeepsMarks(w, site, ok, month, bytes);
    PresentStaysOld(w, Next(w, Append(site, ok, month, bytes)));
  }

  // The log of every site is a prefix of what it was, and the marks do not rise.
  ghost predicate Shorter(w: World, r: World) {
    r == w.(logs := r.logs, low := r.low) &&
    (forall s :: s in r.logs && |r.logs[s].lines| > 0 ==> s in w.logs) &&
    (forall s :: s in r.logs && s in w.logs ==> r.logs[s].lines <= w.logs[s].lines) &&
    (forall s :: s in r.logs && s in w.logs && |r.logs[s].lines| > 0 ==> r.logs[s].inode == w.logs[s].inode) &&
    (forall s :: s in r.logs && s in r.cps ==> Low(r, s) == Min(Low(w, s), |r.logs[s].lines|)) &&
    (forall s :: Low(r, s) <= Low(w, s))
  }

  lemma PrefixKeepsFiles(w: World, r: World)
    requires FilesOk(w) && Shorter(w, r)
    ensures LinesUnique(r) && CheckpointsSane(r) && SeenMarks(r)
  {
    forall s, i | s in r.logs && 0 <= i < |r.logs[s].lines|
      ensures s in w.logs && i < |w.logs[s].lines| && r.logs[s].lines[i] == w.logs[s].lines[i]
    {
    }
    forall m, s, i | r.clock <= m && s in r.logs && 0 <= i < |r.logs[s].lines| && Matches(r.logs[s].lines[i], m)
      ensures r.logs[s].lines[i] in Present(r, m) <==> i < Seen(r, s, m)
    {
      assert r.logs[s].lines[i] == w.logs[s].lines[i] && Present(r, m) == Present(w, m);
    }
  }

  lemma ShortenIsShorter(w: World, e: Event)
    requires CheckpointsSane(w) && (e.Replace? || e.Remove? || e.Truncate?)
    ensures var r := Next(w, e);
      (r == w || Shorter(w, r)) && r == w.(logs := r.logs, low := r.low)
  {
    hide CheckpointsSane;
    match e
    case Replace(site, inode) => OneCut(w, site, Log(inode, []), 0);
    case Remove(site) => OneGone(w, site);
    case Truncate(site, keep) =>
      if site in w.logs && keep <= |w.logs[site].lines| {
        OneCut(w, site, w.logs[site].(lines := w.logs[site].lines[..keep]), Min(Low(w, site), keep));
      }
  }

  // One site's log becomes a prefix of itself, under the same inode if anything is left, or goes.
  lemma OneCut(w: World, site: SiteId, log: Log, mark: nat)
    requires CheckpointsSane(w) && mark <= Low(w, site) && mark == Min(Low(w, site), |log.lines|)
    requires |log.lines| > 0 ==> site in w.logs
    requires site in w.logs ==> log.lines <= w.logs[site].lines && (|log.lines| > 0 ==> log.inode == w.logs[site].inode)
    ensures Shorter(w, w.(logs := w.logs[site := log], low := w.low[site := mark]))
  {
  }

  lemma OneGone(w: World, site: SiteId)
    requires CheckpointsSane(w)
    ensures Shorter(w, w.(logs := w.logs - {site}, low := w.low[site := 0]))
  {
  }

  lemma ShortenKeepsFiles(w: World, e: Event)
    requires FilesOk(w) && (e.Replace? || e.Remove? || e.Truncate?)
    ensures FilesOk(Next(w, e))
  {
    hide LinesUnique, SeenMarks, PresentOld, CheckpointsSane, Shorter, Next;
    var r := Next(w, e);
    ShortenIsShorter(w, e);
    PresentStaysOld(w, r);
    if r != w {
      PrefixKeepsFiles(w, r);
    }
  }

  lemma NextKeepsFiles(w: World, e: Event)
    requires FilesOk(w) && Ordered(w, e)
    ensures FilesOk(Next(w, e))
  {
    hide FilesOk;
    match e
    case Append(site, ok, month, bytes) =>
      if site in w.logs {
        AppendKeepsFiles(w, site, ok, month, bytes);
      }
    case Measure(ids, month) =>
      AdvanceKeepsFiles(w, month);
      ReadSitesKeepFiles(w.(clock := month), ids, month);
      EndKeepsFiles(ReadSites(w.(clock := month), ids, month), month);
    case CrashedMeasure(ids, month) =>
      AdvanceKeepsFiles(w, month);
      ReadSitesKeepFiles(w.(clock := month), ids, month);
      EndKeepsFiles(ReadSites(w.(clock := month), ids, month), month);
    case _ =>
      ShortenKeepsFiles(w, e);
  }

  lemma EndKeepsFiles(w: World, month: Month)
    requires FilesOk(w)
    ensures FilesOk(Finish(w, month)) && FilesOk(Crash(w, month))
  {
    hide LinesUnique, PresentOld, CheckpointsSane, SeenMarks;
    SameFiles(w, Finish(w, month));
    SameFiles(w, Crash(w, month));
  }

  lemma NextKeepsInv(w: World, e: Event)
    requires Inv(w) && w.pending == [] && Allowed(w, e)
    ensures Inv(Next(w, e)) && Next(w, e).pending == []
  {
    hide FilesOk, LedgerExact, Clean;
    NextKeepsFiles(w, e);
    match e
    case Measure(ids, month) =>
      AdvanceKeepsInv(w, month);
      ReadSitesKeepInv(w.(clock := month), ids, month);
      FinishKeepsLedger(ReadSites(w.(clock := month), ids, month), month);
    case CrashedMeasure(ids, month) =>
      AdvanceKeepsInv(w, month);
      ReadSitesKeepInv(w.(clock := month), ids, month);
      CrashKeepsLedger(ReadSites(w.(clock := month), ids, month), month);
    case _ =>
      SameLedger(w, Next(w, e));
  }

  // ---------- main results ----------

  // Before the first measurement: any files, nothing saved.
  function Boot(logs: map<SiteId, Log>, nextId: nat, clock: Month): World {
    World(logs, map[], map[], clock, nextId, map[], map[], map[], map[], [])
  }

  function Run(w: World, events: seq<Event>): World
    decreases |events|
  {
    if events == [] then w else Next(Run(w, events[..|events| - 1]), events[|events| - 1])
  }

  ghost predicate AllAllowed(w: World, events: seq<Event>) {
    forall i :: 0 <= i < |events| ==> Allowed(Run(w, events[..i]), events[i])
  }

  lemma BootInv(logs: map<SiteId, Log>, nextId: nat, clock: Month)
    requires LinesUnique(Boot(logs, nextId, clock))
    ensures Inv(Boot(logs, nextId, clock))
  {
    var w := Boot(logs, nextId, clock);
    assert forall m :: LedgerOkAt(w, m);
  }

  ghost predicate AllOrdered(w: World, events: seq<Event>) {
    forall i :: 0 <= i < |events| ==> Ordered(Run(w, events[..i]), events[i])
  }

  lemma {:induction false} RunKeepsFiles(w: World, events: seq<Event>)
    requires FilesOk(w) && AllOrdered(w, events)
    ensures FilesOk(Run(w, events))
    decreases |events|
  {
    hide FilesOk, Ordered, Next;
    if events != [] {
      var k := |events| - 1;
      forall i | 0 <= i < k
        ensures Ordered(Run(w, events[..k][..i]), events[..k][i])
      {
        assert events[..k][..i] == events[..i];
      }
      RunKeepsFiles(w, events[..k]);
      NextKeepsFiles(Run(w, events[..k]), events[k]);
    }
  }

  lemma {:induction false} RunKeepsInv(w: World, events: seq<Event>)
    requires Inv(w) && w.pending == [] && AllAllowed(w, events)
    ensures Inv(Run(w, events)) && Run(w, events).pending == []
    decreases |events|
  {
    hide Inv, Allowed, Next;
    if events != [] {
      var k := |events| - 1;
      forall i | 0 <= i < k
        ensures Allowed(Run(w, events[..k][..i]), events[..k][i])
      {
        assert events[..k][..i] == events[..i];
      }
      RunKeepsInv(w, events[..k]);
      NextKeepsInv(Run(w, events[..k]), events[k]);
    }
  }

  // The bytes of a set of lines do not depend on how it is listed.
  lemma {:induction false} SumBySet(a: seq<Line>, b: seq<Line>)
    requires Distinct(a) && Distinct(b) && ToSet(a) <= ToSet(b)
    ensures Sum(a) <= Sum(b)
    ensures ToSet(a) == ToSet(b) ==> Sum(a) == Sum(b)
    decreases |a|
  {
    if a == [] {
      if b != [] {
        assert b[0] in ToSet(b);
      }
    } else {
      var k := |a| - 1;
      assert a[k] in ToSet(b);
      var j :| 0 <= j < |b| && b[j] == a[k];
      var c := b[..j] + b[j + 1..];
      assert forall l :: l in ToSet(c) <==> l in ToSet(b) && l != a[k] by { WithoutOne(b, j); }
      assert forall l :: l in ToSet(a[..k]) <==> l in ToSet(a) && l != a[k] by {
        WithoutOne(a, k);
        assert a[..k] + a[k + 1..] == a[..k];
      }
      SumBySet(a[..k], c);
      SumWithoutOne(b, j);
    }
  }

  lemma SumWithoutOne(b: seq<Line>, j: nat)
    requires j < |b|
    ensures Sum(b) == Sum(b[..j] + b[j + 1..]) + b[j].bytes
  {
    assert b == b[..j] + [b[j]] + b[j + 1..];
    SumConcat(b[..j] + [b[j]], b[j + 1..]);
    SumConcat(b[..j], [b[j]]);
    SumConcat(b[..j], b[j + 1..]);
    assert [b[j]][..0] == [];
  }

  lemma WithoutOne(b: seq<Line>, j: nat)
    requires Distinct(b) && j < |b|
    ensures Distinct(b[..j] + b[j + 1..])
    ensures forall l :: l in ToSet(b[..j] + b[j + 1..]) <==> l in ToSet(b) && l != b[j]
  {
    var c := b[..j] + b[j + 1..];
    forall l
      ensures l in ToSet(c) <==> l in ToSet(b) && l != b[j]
    {
      if l in ToSet(b) && l != b[j] {
        var i :| 0 <= i < |b| && b[i] == l;
        assert c[if i < j then i else i - 1] == l;
      }
    }
  }

  // After any run of appends, replacements, removals, truncations and measurements in non-decreasing months,
  // the persisted total of a month and the bytes lost at its crashed measurements make up the bytes of the lines that
  // were in some log when it was measured that month, each counted once.
  lemma MonthlyTotalIsExact(logs: map<SiteId, Log>, nextId: nat, clock: Month, events: seq<Event>, m: Month, lines: seq<Line>)
    requires LinesUnique(Boot(logs, nextId, clock)) && AllAllowed(Boot(logs, nextId, clock), events)
    requires Distinct(lines) && ToSet(lines) == Present(Run(Boot(logs, nextId, clock), events), m)
    ensures var w := Run(Boot(logs, nextId, clock), events);
      (if m in w.totals then w.totals[m] else 0) + BytesIn(Lost(w, m), m) == BytesIn(lines, m)
  {
    var w := Run(Boot(logs, nextId, clock), events);
    BootInv(logs, nextId, clock);
    RunKeepsInv(Boot(logs, nextId, clock), events);
    assert LedgerOkAt(w, m);
    assert Ledger(w, m) == Lost(w, m) + Counted(w, m);
    SumBySet(Ledger(w, m), lines);
    SumConcat(Lost(w, m), Counted(w, m));
    PresentBytes(w, m, lines);
    assert forall l :: l in Lost(w, m) ==> l in Ledger(w, m);
    ToSetMembers(Ledger(w, m));
    PresentBytes(w, m, Lost(w, m));
  }

  lemma PresentBytes(w: World, m: Month, lines: seq<Line>)
    requires PresentOld(w) && forall l :: l in lines ==> l in Present(w, m)
    ensures Sum(lines) == BytesIn(lines, m)
  {
    assert OldLines(Present(w, m), m, w.clock, w.nextId);
    MatchingBytes(lines, m);
  }

  lemma {:induction false} MatchingBytes(lines: seq<Line>, m: Month)
    requires forall l :: l in lines ==> Matches(l, m)
    ensures Sum(lines) == BytesIn(lines, m)
    decreases |lines|
  {
    if lines != [] {
      assert forall l :: l in lines[..|lines| - 1] ==> l in lines;
      assert lines[|lines| - 1] in lines;
      MatchingBytes(lines[..|lines| - 1], m);
    }
  }

  // Nothing is lost in a month none of whose measurements crashed.
  lemma {:induction false} NothingLost(w: World, events: seq<Event>, m: Month)
    requires forall i :: 0 <= i < |events| && events[i].CrashedMeasure? ==> events[i].month != m
    ensures Lost(Run(w, events), m) == Lost(w, m)
    decreases |events|
  {
    if events != [] {
      var k := |events| - 1;
      NothingLost(w, events[..k], m);
      var before := Run(w, events[..k]);
      if events[k].Measure? || events[k].CrashedMeasure? {
        ReadSitesIsReadAll(before.(clock := events[k].month), events[k].ids, events[k].month);
      }
    }
  }

  // The measurement in a run is the method: same checkpoints, same total.
  lemma {:induction false} ReadSitesIsReadAll(w: World, ids: seq<SiteId>, month: Month)
    ensures var r := ReadSites(w, ids, month);
      var (cps, lines) := ReadAll(w.cps, w.logs, ids, month);
      r.cps == cps && r.pending == w.pending + lines && r == w.(cps := r.cps, low := r.low, present := r.present, pending := r.pending)
    decreases |ids|
  {
    if ids == [] {
      assert w.pending + [] == w.pending;
    } else {
      ReadSitesIsReadAll(w, ids[..|ids| - 1], month);
    }
  }

  lemma MeasureIsTheMethod(w: World, ids: seq<SiteId>, month: Month)
    requires w.pending == []
    ensures var r := Next(w, Measure(ids, month));
      var (cps, lines) := ReadAll(w.cps, w.logs, ids, month);
      r.cps == cps && r.totals == w.totals[month := LookupOr(w.totals, month, 0) + Sum(lines)]
  {
    hide ReadAll, ReadSites, Sum;
    ReadSitesIsReadAll(w.(clock := month), ids, month);
    var lines := ReadAll(w.cps, w.logs, ids, month).1;
    assert [] + lines == lines;
  }

  // What a measurement adds to the present lines: the lines of its month in the logs it can read.
  lemma {:induction false} PresentAfterReads(w: World, ids: seq<SiteId>, month: Month)
    ensures forall l :: l in Present(ReadSites(w, ids, month), month) <==>
      l in Present(w, month) || (l.ok && l.month == month &&
        exists id :: id in ids && id != "" && '/' !in id && '\\' !in id && id in w.logs && l in w.logs[id].lines)
    ensures forall m :: m != month ==> Present(ReadSites(w, ids, month), m) == Present(w, m)
    decreases |ids|
  {
    if ids != [] {
      var k := |ids| - 1;
      var id := ids[k];
      PresentAfterReads(w, ids[..k], month);
      ReadSitesIsReadAll(w, ids[..k], month);
      assert ids == ids[..k] + [id];
      if Readable(w.logs, id) {
        OfMonthMembers(w.logs[id].lines, month);
        ToSetMembers(OfMonth(w.logs[id].lines, month));
      }
    }
  }

  // ---------- without rotation or truncation a measurement equals a rescan ----------

  function AllOfMonth(logs: map<SiteId, Log>, ids: seq<SiteId>, month: Month): seq<Line>
    decreases |ids|
  {
    if ids == [] then []
    else
      var before := AllOfMonth(logs, ids[..|ids| - 1], month);
      var id := ids[|ids| - 1];
      if Readable(logs, id) then before + OfMonth(logs[id].lines, month) else before
  }

  lemma {:induction false} AllOfMonthMembers(w: World, ids: seq<SiteId>, month: Month)
    requires LinesUnique(w) && forall i, j :: 0 <= i < j < |ids| ==> ids[i] != ids[j]
    ensures Distinct(AllOfMonth(w.logs, ids, month))
    ensures forall l :: l in AllOfMonth(w.logs, ids, month) <==>
      Matches(l, month) && exists id :: id in ids && Readable(w.logs, id) && l in w.logs[id].lines
    decreases |ids|
  {
    if ids != [] {
      var k := |ids| - 1;
      var id := ids[k];
      AllOfMonthMembers(w, ids[..k], month);
      assert ids == ids[..k] + [id];
      if Readable(w.logs, id) {
        var before := AllOfMonth(w.logs, ids[..k], month);
        var more := OfMonth(w.logs[id].lines, month);
        LogDistinct(w, id, 0);
        assert w.logs[id].lines[0..] == w.logs[id].lines;
        OfMonthDistinct(w.logs[id].lines, month);
        OfMonthMembers(w.logs[id].lines, month);
        forall i, j | 0 <= i < |before| && 0 <= j < |more|
          ensures before[i] != more[j]
        {
          assert before[i] in before && more[j] in more;
          var other :| other in ids[..k] && Readable(w.logs, other) && before[i] in w.logs[other].lines;
          assert other != id;
        }
      }
    }
  }

  // Only appends and complete measurements of the same sites.
  predicate Plain(e: Event, ids: seq<SiteId>) {
    e.Append? || (e.Measure? && e.ids == ids)
  }

  // What plain runs keep besides: marks at the saved offsets, present lines still in their logs.
  ghost predicate Steady(w: World, ids: seq<SiteId>) {
    (forall s :: s in w.cps ==> s in w.logs && w.cps[s].inode == w.logs[s].inode && Low(w, s) == w.cps[s].offset) &&
    (forall m, l :: l in Present(w, m) ==> exists id :: id in ids && Readable(w.logs, id) && l in w.logs[id].lines)
  }

  lemma SteadyIsFaithful(w: World, ids: seq<SiteId>, id: SiteId, month: Month)
    requires Steady(w, ids)
    ensures Faithful(w, id, month)
  {
  }

  lemma {:induction false} ReadsKeepMarks(w: World, ids: seq<SiteId>, month: Month)
    requires forall s :: s in w.cps ==> s in w.logs && w.cps[s].inode == w.logs[s].inode && Low(w, s) == w.cps[s].offset
    ensures var r := ReadSites(w, ids, month);
      r.logs == w.logs &&
      forall s :: s in r.cps ==> s in r.logs && r.cps[s].inode == r.logs[s].inode && Low(r, s) == r.cps[s].offset
    decreases |ids|
  {
    if ids != [] {
      ReadsKeepMarks(w, ids[..|ids| - 1], month);
    }
  }

  lemma AppendKeepsSteady(w: World, e: Event, ids: seq<SiteId>)
    requires Steady(w, ids) && e.Append?
    ensures Steady(Next(w, e), ids)
  {
    var r := Next(w, e);
    forall m, l | l in Present(r, m)
      ensures exists id :: id in ids && Readable(r.logs, id) && l in r.logs[id].lines
    {
      assert l in Present(w, m);
      var id :| id in ids && Readable(w.logs, id) && l in w.logs[id].lines;
      assert Readable(r.logs, id) && l in r.logs[id].lines;
    }
  }

  lemma MeasureKeepsSteady(w: World, ids: seq<SiteId>, month: Month)
    requires Steady(w, ids)
    ensures Steady(Next(w, Measure(ids, month)), ids)
  {
    hide ReadSites;
    var c := w.(clock := month);
    var q := ReadSites(c, ids, month);
    var r := Finish(q, month);
    ReadsKeepMarks(c, ids, month);
    PresentAfterReads(c, ids, month);
    assert forall m :: Present(r, m) == Present(q, m) && Present(c, m) == Present(w, m);
    forall m, l | l in Present(r, m)
      ensures exists id :: id in ids && Readable(r.logs, id) && l in r.logs[id].lines
    {
      assert l in Present(w, m) || m == month;
    }
  }

  lemma PlainKeepsSteady(w: World, e: Event, ids: seq<SiteId>)
    requires Steady(w, ids) && Plain(e, ids)
    ensures Steady(Next(w, e), ids)
  {
    hide Steady, Next;
    if e.Append? {
      AppendKeepsSteady(w, e, ids);
    } else {
      MeasureKeepsSteady(w, ids, e.month);
    }
  }

  ghost predicate PlainRun(w: World, events: seq<Event>, ids: seq<SiteId>) {
    forall i :: 0 <= i < |events| ==>
      Plain(events[i], ids) && (events[i].Measure? ==> Run(w, events[..i]).clock <= events[i].month)
  }

  lemma {:induction false} PlainRunIsAllowed(w: World, events: seq<Event>, ids: seq<SiteId>)
    requires Inv(w) && w.pending == [] && Steady(w, ids) && PlainRun(w, events, ids)
    ensures AllAllowed(w, events) && Steady(Run(w, events), ids)
    decreases |events|
  {
    hide Inv, Next, Plain, Steady;
    if events != [] {
      var k := |events| - 1;
      assert PlainRun(w, events[..k], ids) by {
        assert forall i :: 0 <= i < k ==> events[..k][..i] == events[..i];
      }
      PlainRunIsAllowed(w, events[..k], ids);
      var before := Run(w, events[..k]);
      forall i | 0 <= i < |events|
        ensures Allowed(Run(w, events[..i]), events[i])
      {
        if i < k {
          assert events[..k][..i] == events[..i] && events[..k][i] == events[i];
        } else {
          RunKeepsInv(w, events[..k]);
          InvIsSane(before);
          PlainIsAllowed(before, events[k], ids);
        }
      }
      PlainKeepsSteady(before, events[k], ids);
    }
  }

  lemma InvIsSane(w: World)
    requires Inv(w)
    ensures CheckpointsSane(w) && LinesUnique(w) && PresentOld(w)
  {
  }

  lemma PlainIsAllowed(w: World, e: Event, ids: seq<SiteId>)
    requires CheckpointsSane(w) && Steady(w, ids) && Plain(e, ids) && (e.Measure? ==> w.clock <= e.month)
    ensures Allowed(w, e)
  {
    hide Steady, Faithful, Clean, CheckpointsSane;
    if e.Measure? {
      forall id | id in e.ids
        ensures Clean(w, id, e.month)
      {
        SteadyIsFaithful(w, ids, id, e.month);
        FaithfulIsClean(w, id, e.month);
      }
    }
  }

  // With appends only, the total persisted by a measurement is what a full rescan of the logs would find.
  lemma TotalEqualsRescan(logs: map<SiteId, Log>, nextId: nat, clock: Month, events: seq<Event>, ids: seq<SiteId>, month: Month)
    requires LinesUnique(Boot(logs, nextId, clock)) && forall i, j :: 0 <= i < j < |ids| ==> ids[i] != ids[j]
    requires PlainRun(Boot(logs, nextId, clock), events + [Measure(ids, month)], ids)
    ensures var w := Run(Boot(logs, nextId, clock), events + [Measure(ids, month)]);
      month in w.totals && w.totals[month] == BytesInAll(w.logs, ids, month)
  {
    hide Inv, LinesUnique, PresentOld, CheckpointsSane, PlainRun, Steady, Sum, ReadSites, AllAllowed;
    var w0 := Boot(logs, nextId, clock);
    var all := events + [Measure(ids, month)];
    var before := Run(w0, events);
    var w := Run(w0, all);
    assert all[..|all| - 1] == events && w == Next(before, Measure(ids, month));
    BootInv(logs, nextId, clock);
    BootIsSteady(logs, nextId, clock, ids);
    PlainRunIsAllowed(w0, all, ids);
    RunKeepsInv(w0, all);
    InvIsSane(w);
    AllOfMonthMembers(w, ids, month);
    PresentIsRescan(before, w, ids, month);
    PlainLosesNothing(w0, all, ids, month);
    MonthlyTotalIsExact(logs, nextId, clock, all, month, AllOfMonth(w.logs, ids, month));
    RescanBytes(w.logs, ids, month);
    TotalIsKept(before, ids, month);
    assert BytesIn([], month) == 0;
    ToSetMembers(AllOfMonth(w.logs, ids, month));
    PresentBytes(w, month, AllOfMonth(w.logs, ids, month));
  }

  lemma TotalIsKept(w: World, ids: seq<SiteId>, month: Month)
    ensures month in Next(w, Measure(ids, month)).totals
  {
  }

  lemma {:induction false} RescanBytes(logs: map<SiteId, Log>, ids: seq<SiteId>, month: Month)
    ensures Sum(AllOfMonth(logs, ids, month)) == BytesInAll(logs, ids, month)
    decreases |ids|
  {
    hide Sum, BytesIn, OfMonth;
    if ids == [] {
      NothingSums();
    } else {
      var k := |ids| - 1;
      RescanBytes(logs, ids[..k], month);
      if Readable(logs, ids[k]) {
        SumConcat(AllOfMonth(logs, ids[..k], month), OfMonth(logs[ids[k]].lines, month));
        SumIsBytesIn(logs[ids[k]].lines, month);
      }
    }
  }

  lemma NothingSums()
    ensures Sum([]) == 0
  {
  }

  // Once a site has been measured this month and nothing was cut, one more line in its log raises the next total by its bytes if it parsed and is of
  // the month, and not at all otherwise.
  lemma OneMoreLineAdds(w: World, site: SiteId, ok: bool, lineMonth: Month, bytes: nat, month: Month)
    requires site != "" && '/' !in site && '\\' !in site && site in w.logs && site in w.cps && w.pending == []
    requires w.cps[site].inode == w.logs[site].inode && w.cps[site].month == month && w.cps[site].offset == |w.logs[site].lines|
    ensures var r := Next(Next(w, Append(site, ok, lineMonth, bytes)), Measure([site], month));
      month in r.totals &&
      r.totals[month] == (if month in w.totals then w.totals[month] else 0) + if ok && lineMonth == month then bytes else 0
  {
    var a := Next(w, Append(site, ok, lineMonth, bytes));
    var line := Line(w.nextId, ok, lineMonth, bytes);
    MeasureIsTheMethod(a, [site], month);
    assert a.logs[site].lines[w.cps[site].offset..] == [line];
    SumIsBytesIn([line], month);
    assert [line][..0] == [];
    OneSite(a.cps, a.logs, site, month);
  }

  lemma OneSite(cps: map<SiteId, Checkpoint>, logs: map<SiteId, Log>, id: SiteId, month: Month)
    requires Readable(logs, id)
    ensures ReadAll(cps, logs, [id], month).1 == Scanned(Lookup(cps, id), logs[id], month)
  {
    assert [id][..0] == [];
    assert [] + Scanned(Lookup(cps, id), logs[id], month) == Scanned(Lookup(cps, id), logs[id], month);
  }

  lemma BootIsSteady(logs: map<SiteId, Log>, nextId: nat, clock: Month, ids: seq<SiteId>)
    ensures Steady(Boot(logs, nextId, clock), ids) && Boot(logs, nextId, clock).pending == []
  {
  }

  lemma PlainLosesNothing(w: World, events: seq<Event>, ids: seq<SiteId>, month: Month)
    requires PlainRun(w, events, ids) && Lost(w, month) == []
    ensures Lost(Run(w, events), month) == []
  {
    NothingLost(w, events, month);
  }

  // After an append-only run the present lines are those still in the logs.
  lemma PresentIsRescan(before: World, w: World, ids: seq<SiteId>, month: Month)
    requires w == Next(before, Measure(ids, month)) && Steady(w, ids) && LinesUnique(w) && PresentOld(w)
    requires forall i, j :: 0 <= i < j < |ids| ==> ids[i] != ids[j]
    ensures ToSet(AllOfMonth(w.logs, ids, month)) == Present(w, month)
  {
    PresentAfterReads(before.(clock := month), ids, month);
    ReadsKeepLogs(before.(clock := month), ids, month);
    AllOfMonthMembers(w, ids, month);
    var lines := AllOfMonth(w.logs, ids, month);
    assert w.logs == before.logs;
    forall l
      ensures l in ToSet(lines) <==> l in Present(w, month)
    {
      ToSetMembers(lines);
      if l in Present(w, month) {
        assert OldLines(Present(w, month), month, w.clock, w.nextId);
      }
    }
  }

  lemma ReadsKeepLogs(w: World, ids: seq<SiteId>, month: Month)
    ensures ReadSites(w, ids, month).logs == w.logs
  {
    ReadSitesIsReadAll(w, ids, month);
  }

  // ---------- exactly when a read is exact ----------

  // In every state a run can reach, whatever went before: a read scans exactly the lines of the month that are new since
  // the site was last measured if and only if the read is clean, as it is when nothing was cut since, or everything was
  // and the file has another inode or is shorter than the offset.
  lemma ReadIsExactIffClean(logs: map<SiteId, Log>, nextId: nat, clock: Month, events: seq<Event>, id: SiteId, month: Month)
    requires LinesUnique(Boot(logs, nextId, clock)) && AllOrdered(Boot(logs, nextId, clock), events)
    requires Run(Boot(logs, nextId, clock), events).clock <= month && Readable(Run(Boot(logs, nextId, clock), events).logs, id)
    ensures var w := Run(Boot(logs, nextId, clock), events);
      (AreUnseen(w, id, month, Scanned(Lookup(w.cps, id), w.logs[id], month)) <==> Clean(w, id, month)) &&
      (Faithful(w, id, month) ==> Clean(w, id, month))
  {
    hide AreUnseen, Clean, Faithful;
    var w := Run(Boot(logs, nextId, clock), events);
    BootInv(logs, nextId, clock);
    RunKeepsFiles(Boot(logs, nextId, clock), events);
    ScannedAreTheUnseenIff(w, id, month);
    if Faithful(w, id, month) {
      FaithfulIsClean(w, id, month);
    }
  }

  // Two reads that are not clean: a log truncated to nothing that has grown back to the saved offset hides its new lines,
  // and the surviving part of a log truncated below the offset is scanned a second time.
  lemma UnnoticedTruncation(inode: nat, a: Line, b: Line, c: Line, d: Line, month: Month)
    requires Matches(a, month) && Matches(b, month) && Matches(c, month) && Matches(d, month)
    ensures var cp := NewCheckpoint(None, Log(inode, [a, b]), month);
      Scanned(None, Log(inode, [a, b]), month) == [a, b] &&
      Scanned(Some(cp), Log(inode, [c, d]), month) == [] &&
      Scanned(Some(cp), Log(inode, [a]), month) == [a]
  {
    assert [a, b][0..][..1] == [a] && [a][0..] == [a] && [a][..0] == [];
    assert OfMonth([a], month) == [a];
    assert [c, d][2..] == [];
  }
}
