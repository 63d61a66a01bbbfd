// Replacing every id of an export by a new one (internal/migration/native.go, lines 436-504).
module ExportIds {
  import opened ExportTree

  // ---------- renaming ids ----------

  datatype Table = AccountTable | DomainTable | WebsiteTable | ApplicationTable | DatabaseTable | MailDomainTable | MailboxTable
                 | AliasTable | ZoneTable | RecordTable | CronTable | FtpTable | SshTable

  // One field that holds an id: a row's own id, or its reference to a parent.
  datatype Site = Site(table: Table, row: nat, parent: bool)

  predicate Rows<T>(s: Site, rows: seq<T>, hasParent: bool) { s.row < |rows| && (s.parent ==> hasParent) }

  predicate IsSite(t: Tree, s: Site) {
    match s.table
    case AccountTable => s.row == 0 && !s.parent
    case DomainTable => Rows(s, t.domains, false)
    case WebsiteTable => Rows(s, t.websites, true)
    case ApplicationTable => Rows(s, t.applications, true)
    case DatabaseTable => Rows(s, t.databases, false)
    case MailDomainTable => Rows(s, t.mailDomains, true)
    case MailboxTable => Rows(s, t.mailboxes, true)
    case AliasTable => Rows(s, t.aliases, true)
    case ZoneTable => Rows(s, t.zones, true)
    case RecordTable => Rows(s, t.records, true)
    case CronTable => Rows(s, t.crons, false)
    case FtpTable => Rows(s, t.ftps, false)
    case SshTable => Rows(s, t.sshs, false)
  }

  function OfChild<B>(s: Site, c: Child<B>): string { if s.parent then c.parentId else c.id }

  function At(t: Tree, s: Site): string
    requires IsSite(t, s)
  {
    match s.table
    case AccountTable => t.account.id
    case DomainTable => t.domains[s.row].id
    case WebsiteTable => OfChild(s, t.websites[s.row])
    case ApplicationTable => OfChild(s, t.applications[s.row])
    case DatabaseTable => t.databases[s.row].id
    case MailDomainTable => OfChild(s, t.mailDomains[s.row])
    case MailboxTable => OfChild(s, t.mailboxes[s.row])
    case AliasTable => OfChild(s, t.aliases[s.row])
    case ZoneTable => OfChild(s, t.zones[s.row])
    case RecordTable => if s.parent then t.records[s.row].zoneId else t.records[s.row].id
    case CronTable => t.crons[s.row].id
    case FtpTable => t.ftps[s.row].id
    case SshTable => t.sshs[s.row].id
  }

  ghost predicate SameOwned<B>(a: seq<Owned<B>>, b: seq<Owned<B>>, account: string) {
    |a| == |b| && forall i :: 0 <= i < |a| ==> b[i].body == a[i].body && b[i].accountId == account
  }

  ghost predicate SameChildren<B>(a: seq<Child<B>>, b: seq<Child<B>>, account: string) {
    |a| == |b| && forall i :: 0 <= i < |a| ==> b[i].body == a[i].body && b[i].accountId == account
  }

  ghost predicate SameRecords(a: seq<Record>, b: seq<Record>) {
    |a| == |b| && forall i :: 0 <= i < |a| ==> b[i].name == a[i].name && b[i].content == a[i].content
  }

  // u is t but for its ids, and every row belongs to u's account.
  ghost predicate SameBut(t: Tree, u: Tree) {
    var id := u.account.id;
    u.account == t.account.(id := id) && u.homedir == t.homedir && u.mysqlDump == t.mysqlDump &&
    SameOwned(t.domains, u.domains, id) && SameChildren(t.websites, u.websites, id) &&
    SameChildren(t.applications, u.applications, id) && SameOwned(t.databases, u.databases, id) &&
    SameChildren(t.mailDomains, u.mailDomains, id) && SameChildren(t.mailboxes, u.mailboxes, id) &&
    SameChildren(t.aliases, u.aliases, id) && SameChildren(t.zones, u.zones, id) && SameRecords(t.records, u.records) &&
    SameOwned(t.crons, u.crons, id) && SameOwned(t.ftps, u.ftps, id) && SameOwned(t.sshs, u.sshs, id)
  }

  // Two fields hold the same id after exactly when they held the same non-empty id before; a field that
  // held none gets an id of its own.
  ghost predicate SameGraph(t: Tree, u: Tree) {
    (forall s :: IsSite(t, s) <==> IsSite(u, s)) &&
    forall a, b :: IsSite(t, a) && IsSite(t, b) && IsSite(u, a) && IsSite(u, b) ==>
      (At(u, a) == At(u, b) <==> a == b || (At(t, a) == At(t, b) && At(t, a) != ""))
  }

  // The ids NewID hands out: never empty, never the same one twice.
  ghost predicate Supply(newId: nat -> string) {
    (forall k :: newId(k) != "") && forall k, l :: newId(k) == newId(l) ==> k == l
  }

  // What was issued for a field: the id it held and the id it holds now.
  datatype Renaming = Renaming(was: string, now: string)

  // The closure next of remapExportIDs with the map it captures. renamed records what was asked and answered.
  class Renamer {
    const newId: nat -> string
    var ids: map<string, string>
    var used: nat
    ghost var issued: set<string>
    ghost var renamed: map<Site, Renaming>

    ghost predicate Valid()
      reads this
    {
      Supply(newId) && Issued(newId, used, issued) && IdsApart(ids, issued) && Answered(ids, issued, renamed)
    }

    constructor (newId: nat -> string)
      requires Supply(newId)
      ensures Valid() && renamed == map[] && this.newId == newId
    {
      this.newId := newId;
      ids := map[];
      used := 0;
      issued := {};
      renamed := map[];
    }

    method Next(id: string, ghost site: Site) returns (n: string)
      requires Valid() && site !in renamed
      modifies this
      ensures Valid() && renamed == old(renamed)[site := Renaming(id, n)]
    {
      hide Supply, Issued, IdsApart, Answered;
      if id == "" || id !in ids {
        n := newId(used);
        NextIsFresh(newId, used, issued);
        NewAnswer(ids, issued, renamed, site, id, n);
        used := used + 1;
        issued := issued + {n};
        if id != "" {
          ids := ids[id := n];
        }
      } else {
        n := ids[id];
        SameAnswer(ids, issued, renamed, site, id);
      }
      renamed := renamed[site := Renaming(id, n)];
    }

    method RemapOwned<B>(table: Table, rows: seq<Owned<B>>, account: string) returns (out: seq<Owned<B>>)
      requires Valid() && RowsBelow(renamed, table, 0)
      modifies this
      ensures Valid() && Adds(old(renamed), renamed, table) && OwnedDone(renamed, table, rows, out, account, |rows|)
    {
      hide Valid, RowsBelow, Adds, OwnedDone, OwnedRow;
      out := rows;
      OwnedNone(renamed, table, rows, account);
      for i := 0 to |out|
        invariant Valid() && |out| == |rows| && Adds(old(renamed), renamed, table) && RowsBelow(renamed, table, i)
        invariant OwnedDone(renamed, table, rows, out, account, i)
        invariant forall j :: i <= j < |rows| ==> out[j] == rows[j]
      {
        ghost var before := renamed;
        RowIsNew(renamed, table, i);
        var id := Next(out[i].id, Site(table, i, false));
        OwnedStep(before, renamed, table, rows, out, account, i, id);
        RowRecorded(old(renamed), before, renamed, table, i);
        out := out[i := out[i].(id := id, accountId := account)];
      }
    }

    method RemapChildren<B>(table: Table, rows: seq<Child<B>>, account: string) returns (out: seq<Child<B>>)
      requires Valid() && RowsBelow(renamed, table, 0)
      modifies this
      ensures Valid() && Adds(old(renamed), renamed, table) && ChildrenDone(renamed, table, rows, out, account, |rows|)
    {
      hide Valid, RowsBelow, Adds, ChildrenDone, ChildRow;
      out := rows;
      ChildrenNone(renamed, table, rows, account);
      for i := 0 to |out|
        invariant Valid() && |out| == |rows| && Adds(old(renamed), renamed, table) && RowsBelow(renamed, table, i)
        invariant ChildrenDone(renamed, table, rows, out, account, i)
        invariant forall j :: i <= j < |rows| ==> out[j] == rows[j]
      {
        ghost var before := renamed;
        RowIsNew(renamed, table, i);
        var id := Next(out[i].id, Site(table, i, false));
        var parentId := Next(out[i].parentId, Site(table, i, true));
        ChildrenStep(before, renamed, table, rows, out, account, i, id, parentId);
        RowRecorded(old(renamed), before, renamed, table, i);
        out := out[i := out[i].(id := id, accountId := account, parentId := parentId)];
      }
    }

    method RemapRecords(rows: seq<Record>) returns (out: seq<Record>)
      requires Valid() && RowsBelow(renamed, RecordTable, 0)
      modifies this
      ensures Valid() && Adds(old(renamed), renamed, RecordTable) && RecordsDone(renamed, rows, out, |rows|)
    {
      hide Valid, RowsBelow, Adds, RecordsDone, RecordRow;
      out := rows;
      RecordsNone(renamed, rows);
      for i := 0 to |out|
        invariant Valid() && |out| == |rows| && Adds(old(renamed), renamed, RecordTable) && RowsBelow(renamed, RecordTable, i)
        invariant RecordsDone(renamed, rows, out, i)
        invariant forall j :: i <= j < |rows| ==> out[j] == rows[j]
      {
        ghost var before := renamed;
        RowIsNew(renamed, RecordTable, i);
        var id := Next(out[i].id, Site(RecordTable, i, false));
        var zoneId := Next(out[i].zoneId, Site(RecordTable, i, true));
        RecordsStep(before, renamed, rows, out, i, id, zoneId);
        RowRecorded(old(renamed), before, renamed, RecordTable, i);
        out := out[i := out[i].(id := id, zoneId := zoneId)];
      }
    }
  }

  ghost predicate RowsBelow(renamed: map<Site, Renaming>, table: Table, i: nat) {
    forall s :: s in renamed && s.table == table ==> s.row < i
  }

  ghost predicate Adds(before: map<Site, Renaming>, after: map<Site, Renaming>, table: Table) {
    (forall s :: s in before ==> s in after && after[s] == before[s]) && forall s :: s in after && s !in before ==> s.table == table
  }

  lemma RowIsNew(renamed: map<Site, Renaming>, table: Table, i: nat)
    requires RowsBelow(renamed, table, i)
    ensures forall p :: Site(table, i, p) !in renamed
    ensures Adds(renamed, renamed, table)
  {
  }

  // One more row of the table has been renamed.
  lemma RowRecorded(first: map<Site, Renaming>, before: map<Site, Renaming>, after: map<Site, Renaming>, table: Table, i: nat)
    requires Adds(first, before, table) && RowsBelow(before, table, i)
    requires forall s :: s in before ==> s in after && after[s] == before[s]
    requires forall s :: s in after && s !in before ==> s.table == table && s.row == i
    ensures Adds(first, after, table) && RowsBelow(after, table, i + 1)
  {
  }

  ghost predicate Recorded(renamed: map<Site, Renaming>, s: Site, was: string, now: string) {
    s in renamed && renamed[s] == Renaming(was, now)
  }

  ghost predicate OwnedRow<B>(renamed: map<Site, Renaming>, table: Table, j: nat, was: Owned<B>, now: Owned<B>, account: string) {
    now.body == was.body && now.accountId == account && Recorded(renamed, Site(table, j, false), was.id, now.id)
  }

  ghost predicate OwnedDone<B>(renamed: map<Site, Renaming>, table: Table, rows: seq<Owned<B>>, out: seq<Owned<B>>, account: string, i: nat)
  {
    |out| == |rows| && i <= |rows| && forall j :: 0 <= j < i ==> OwnedRow(renamed, table, j, rows[j], out[j], account)
  }

  lemma OwnedNone<B>(renamed: map<Site, Renaming>, table: Table, rows: seq<Owned<B>>, account: string)
    ensures OwnedDone(renamed, table, rows, rows, account, 0) && Adds(renamed, renamed, table)
  {
  }

  lemma OwnedStep<B>(before: map<Site, Renaming>, after: map<Site, Renaming>, table: Table, rows: seq<Owned<B>>, out: seq<Owned<B>>,
                     account: string, i: nat, id: string)
    requires OwnedDone(before, table, rows, out, account, i) && i < |rows| && out[i] == rows[i] && Site(table, i, false) !in before
    requires after == before[Site(table, i, false) := Renaming(rows[i].id, id)]
    ensures OwnedDone(after, table, rows, out[i := out[i].(id := id, accountId := account)], account, i + 1)
  {
    forall j | 0 <= j < i
      ensures OwnedRow(after, table, j, rows[j], out[j], account)
    {
      assert OwnedRow(before, table, j, rows[j], out[j], account);
    }
  }

  ghost predicate ChildRow<B>(renamed: map<Site, Renaming>, table: Table, j: nat, was: Child<B>, now: Child<B>, account: string) {
    now.body == was.body && now.accountId == account &&
    Recorded(renamed, Site(table, j, false), was.id, now.id) && Recorded(renamed, Site(table, j, true), was.parentId, now.parentId)
  }

  ghost predicate ChildrenDone<B>(renamed: map<Site, Renaming>, table: Table, rows: seq<Child<B>>, out: seq<Child<B>>, account: string, i: nat)
  {
    |out| == |rows| && i <= |rows| && forall j :: 0 <= j < i ==> ChildRow(renamed, table, j, rows[j], out[j], account)
  }

  lemma ChildrenNone<B>(renamed: map<Site, Renaming>, table: Table, rows: seq<Child<B>>, account: string)
    ensures ChildrenDone(renamed, table, rows, rows, account, 0) && Adds(renamed, renamed, table)
  {
  }

  lemma ChildrenStep<B>(before: map<Site, Renaming>, after: map<Site, Renaming>, table: Table, rows: seq<Child<B>>, out: seq<Child<B>>,
                        account: string, i: nat, id: string, parentId: string)
    requires ChildrenDone(before, table, rows, out, account, i) && i < |rows| && out[i] == rows[i]
    requires forall p :: Site(table, i, p) !in before
    requires after == before[Site(table, i, false) := Renaming(rows[i].id, id)][Site(table, i, true) := Renaming(rows[i].parentId, parentId)]
    ensures ChildrenDone(after, table, rows, out[i := out[i].(id := id, accountId := account, parentId := parentId)], account, i + 1)
  {
    forall j | 0 <= j < i
      ensures ChildRow(after, table, j, rows[j], out[j], account)
    {
      assert ChildRow(before, table, j, rows[j], out[j], account);
    }
  }

  ghost predicate RecordRow(renamed: map<Site, Renaming>, j: nat, was: Record, now: Record) {
    now.name == was.name && now.content == was.content &&
    Recorded(renamed, Site(RecordTable, j, false), was.id, now.id) && Recorded(renamed, Site(RecordTable, j, true), was.zoneId, now.zoneId)
  }

  ghost predicate RecordsDone(renamed: map<Site, Renaming>, rows: seq<Record>, out: seq<Record>, i: nat) {
    |out| == |rows| && i <= |rows| && forall j :: 0 <= j < i ==> RecordRow(renamed, j, rows[j], out[j])
  }

  lemma RecordsNone(renamed: map<Site, Renaming>, rows: seq<Record>)
    ensures RecordsDone(renamed, rows, rows, 0) && Adds(renamed, renamed, RecordTable)
  {
  }

  lemma RecordsStep(before: map<Site, Renaming>, after: map<Site, Renaming>, rows: seq<Record>, out: seq<Record>,
                    i: nat, id: string, zoneId: string)
    requires RecordsDone(before, rows, out, i) && i < |rows| && out[i] == rows[i]
    requires forall p :: Site(RecordTable, i, p) !in before
    requires after == before[Site(RecordTable, i, false) := Renaming(rows[i].id, id)][Site(RecordTable, i, true) := Renaming(rows[i].zoneId, zoneId)]
    ensures RecordsDone(after, rows, out[i := out[i].(id := id, zoneId := zoneId)], i + 1)
  {
    forall j | 0 <= j < i
      ensures RecordRow(after, j, rows[j], out[j])
    {
      assert RecordRow(before, j, rows[j], out[j]);
    }
  }

  ghost predicate IdsApart(ids: map<string, string>, issued: set<string>) {
    "" !in ids.Keys && (forall x :: x in ids ==> ids[x] in issued) && forall x, y :: x in ids && y in ids && ids[x] == ids[y] ==> x == y
  }

  ghost predicate Answer(ids: map<string, string>, issued: set<string>, renamed: map<Site, Renaming>, s: Site)
    requires s in renamed
  {
    renamed[s].now in issued &&
    if renamed[s].was != "" then renamed[s].was in ids && ids[renamed[s].was] == renamed[s].now
    else (forall x :: x in ids ==> ids[x] != renamed[s].now) && forall o :: o in renamed && o != s ==> renamed[o].now != renamed[s].now
  }

  ghost predicate Answered(ids: map<string, string>, issued: set<string>, renamed: map<Site, Renaming>) {
    forall s :: s in renamed ==> Answer(ids, issued, renamed, s)
  }

  lemma NewAnswer(ids: map<string, string>, issued: set<string>, renamed: map<Site, Renaming>, site: Site, id: string, n: string)
    requires IdsApart(ids, issued) && Answered(ids, issued, renamed) && site !in renamed && n !in issued && (id == "" || id !in ids)
    ensures var later := if id == "" then ids else ids[id := n];
      IdsApart(later, issued + {n}) && Answered(later, issued + {n}, renamed[site := Renaming(id, n)])
  {
    var later := if id == "" then ids else ids[id := n];
    var more := renamed[site := Renaming(id, n)];
    forall s | s in more
      ensures Answer(later, issued + {n}, more, s)
    {
      assert s != site ==> Answer(ids, issued, renamed, s);
      assert forall o :: o in renamed ==> Answer(ids, issued, renamed, o);
    }
  }

  lemma SameAnswer(ids: map<string, string>, issued: set<string>, renamed: map<Site, Renaming>, site: Site, id: string)
    requires IdsApart(ids, issued) && Answered(ids, issued, renamed) && site !in renamed && id in ids
    ensures Answered(ids, issued, renamed[site := Renaming(id, ids[id])])
  {
    var more := renamed[site := Renaming(id, ids[id])];
    forall s | s in more
      ensures Answer(ids, issued, more, s)
    {
      assert s != site ==> Answer(ids, issued, renamed, s);
    }
  }

  ghost predicate Issued(newId: nat -> string, used: nat, issued: set<string>) {
    forall x :: x in issued ==> exists k :: 0 <= k < used && newId(k) == x
  }

  lemma NextIsFresh(newId: nat -> string, used: nat, issued: set<string>)
    requires Supply(newId) && Issued(newId, used, issued)
    ensures newId(used) !in issued && Issued(newId, used + 1, issued + {newId(used)})
  {
  }

  // ---------- the export ----------

  function Number(table: Table): (k: nat) {
    match table
    case AccountTable => 0 case DomainTable => 1 case WebsiteTable => 2 case ApplicationTable => 3 case DatabaseTable => 4
    case MailDomainTable => 5 case MailboxTable => 6 case AliasTable => 7 case ZoneTable => 8 case RecordTable => 9
    case CronTable => 10 case FtpTable => 11 case SshTable => 12
  }

  ghost predicate TablesBelow(renamed: map<Site, Renaming>, k: nat) { forall s :: s in renamed ==> Number(s.table) < k }

  // The first k tables of t have been renamed, giving u.
  ghost predicate Progress(t: Tree, u: Tree, m: map<Site, Renaming>, k: nat) {
    var id := u.account.id;
    u.account == t.account.(id := id) && u.homedir == t.homedir && u.mysqlDump == t.mysqlDump &&
    (k > 0 ==> Recorded(m, Site(AccountTable, 0, false), t.account.id, id)) &&
    (if k > 1 then OwnedDone(m, DomainTable, t.domains, u.domains, id, |t.domains|) else u.domains == t.domains) &&
    (if k > 2 then ChildrenDone(m, WebsiteTable, t.websites, u.websites, id, |t.websites|) else u.websites == t.websites) &&
    (if k > 3 then ChildrenDone(m, ApplicationTable, t.applications, u.applications, id, |t.applications|) else u.applications == t.applications) &&
    (if k > 4 then OwnedDone(m, DatabaseTable, t.databases, u.databases, id, |t.databases|) else u.databases == t.databases) &&
    (if k > 5 then ChildrenDone(m, MailDomainTable, t.mailDomains, u.mailDomains, id, |t.mailDomains|) else u.mailDomains == t.mailDomains) &&
    (if k > 6 then ChildrenDone(m, MailboxTable, t.mailboxes, u.mailboxes, id, |t.mailboxes|) else u.mailboxes == t.mailboxes) &&
    (if k > 7 then ChildrenDone(m, AliasTable, t.aliases, u.aliases, id, |t.aliases|) else u.aliases == t.aliases) &&
    (if k > 8 then ChildrenDone(m, ZoneTable, t.zones, u.zones, id, |t.zones|) else u.zones == t.zones) &&
    (if k > 9 then RecordsDone(m, t.records, u.records, |t.records|) else u.records == t.records) &&
    (if k > 10 then OwnedDone(m, CronTable, t.crons, u.crons, id, |t.crons|) else u.crons == t.crons) &&
    (if k > 11 then OwnedDone(m, FtpTable, t.ftps, u.ftps, id, |t.ftps|) else u.ftps == t.ftps) &&
    (if k > 12 then OwnedDone(m, SshTable, t.sshs, u.sshs, id, |t.sshs|) else u.sshs == t.sshs)
  }

  ghost predicate Extends(m: map<Site, Renaming>, after: map<Site, Renaming>) {
    forall s :: s in m ==> s in after && after[s] == m[s]
  }

  lemma OwnedExtends<B>(m: map<Site, Renaming>, after: map<Site, Renaming>, table: Table, rows: seq<Owned<B>>, out: seq<Owned<B>>,
                        account: string, i: nat)
    requires Extends(m, after)
    ensures OwnedDone(m, table, rows, out, account, i) ==> OwnedDone(after, table, rows, out, account, i)
  {
    if OwnedDone(m, table, rows, out, account, i) {
      forall j | 0 <= j < i
        ensures OwnedRow(after, table, j, rows[j], out[j], account)
      {
        assert OwnedRow(m, table, j, rows[j], out[j], account);
      }
    }
  }

  lemma ChildrenExtend<B>(m: map<Site, Renaming>, after: map<Site, Renaming>, table: Table, rows: seq<Child<B>>, out: seq<Child<B>>,
                          account: string, i: nat)
    requires Extends(m, after)
    ensures ChildrenDone(m, table, rows, out, account, i) ==> ChildrenDone(after, table, rows, out, account, i)
  {
    if ChildrenDone(m, table, rows, out, account, i) {
      forall j | 0 <= j < i
        ensures ChildRow(after, table, j, rows[j], out[j], account)
      {
        assert ChildRow(m, table, j, rows[j], out[j], account);
      }
    }
  }

  lemma RecordsExtend(m: map<Site, Renaming>, after: map<Site, Renaming>, rows: seq<Record>, out: seq<Record>, i: nat)
    requires Extends(m, after)
    ensures RecordsDone(m, rows, out, i) ==> RecordsDone(after, rows, out, i)
  {
    if RecordsDone(m, rows, out, i) {
      forall j | 0 <= j < i
        ensures RecordRow(after, j, rows[j], out[j])
      {
        assert RecordRow(m, j, rows[j], out[j]);
      }
    }
  }

  lemma TableIsNext(m: map<Site, Renaming>, k: nat, table: Table)
    requires TablesBelow(m, k) && k == Number(table)
    ensures RowsBelow(m, table, 0)
  {
  }

  // What has been renamed stays so while another table is renamed.
  lemma ProgressExtends(t: Tree, u: Tree, m: map<Site, Renaming>, after: map<Site, Renaming>, k: nat, table: Table)
    requires Progress(t, u, m, k) && TablesBelow(m, k) && k == Number(table) && Adds(m, after, table)
    ensures Progress(t, u, after, k) && TablesBelow(after, k + 1)
  {
    hide OwnedDone, ChildrenDone, RecordsDone;
    var id := u.account.id;
    OwnedExtends(m, after, DomainTable, t.domains, u.domains, id, |t.domains|);
    ChildrenExtend(m, after, WebsiteTable, t.websites, u.websites, id, |t.websites|);
    ChildrenExtend(m, after, ApplicationTable, t.applications, u.applications, id, |t.applications|);
    OwnedExtends(m, after, DatabaseTable, t.databases, u.databases, id, |t.databases|);
    ChildrenExtend(m, after, MailDomainTable, t.mailDomains, u.mailDomains, id, |t.mailDomains|);
    ChildrenExtend(m, after, MailboxTable, t.mailboxes, u.mailboxes, id, |t.mailboxes|);
    ChildrenExtend(m, after, AliasTable, t.aliases, u.aliases, id, |t.aliases|);
    ChildrenExtend(m, after, ZoneTable, t.zones, u.zones, id, |t.zones|);
    RecordsExtend(m, after, t.records, u.records, |t.records|);
    OwnedExtends(m, after, CronTable, t.crons, u.crons, id, |t.crons|);
    OwnedExtends(m, after, FtpTable, t.ftps, u.ftps, id, |t.ftps|);
  }

  // w is u with one more table renamed.
  ghost predicate TableDone(u: Tree, w: Tree, m: map<Site, Renaming>, table: Table) {
    match table
    case AccountTable => false
    case DomainTable => OwnedDone(m, table, u.domains, w.domains, u.account.id, |u.domains|) && w == u.(domains := w.domains)
    case WebsiteTable => ChildrenDone(m, table, u.websites, w.websites, u.account.id, |u.websites|) && w == u.(websites := w.websites)
    case ApplicationTable => ChildrenDone(m, table, u.applications, w.applications, u.account.id, |u.applications|) && w == u.(applications := w.applications)
    case DatabaseTable => OwnedDone(m, table, u.databases, w.databases, u.account.id, |u.databases|) && w == u.(databases := w.databases)
    case MailDomainTable => ChildrenDone(m, table, u.mailDomains, w.mailDomains, u.account.id, |u.mailDomains|) && w == u.(mailDomains := w.mailDomains)
    case MailboxTable => ChildrenDone(m, table, u.mailboxes, w.mailboxes, u.account.id, |u.mailboxes|) && w == u.(mailboxes := w.mailboxes)
    case AliasTable => ChildrenDone(m, table, u.aliases, w.aliases, u.account.id, |u.aliases|) && w == u.(aliases := w.aliases)
    case ZoneTable => ChildrenDone(m, table, u.zones, w.zones, u.account.id, |u.zones|) && w == u.(zones := w.zones)
    case RecordTable => RecordsDone(m, u.records, w.records, |u.records|) && w == u.(records := w.records)
    case CronTable => OwnedDone(m, table, u.crons, w.crons, u.account.id, |u.crons|) && w == u.(crons := w.crons)
    case FtpTable => OwnedDone(m, table, u.ftps, w.ftps, u.account.id, |u.ftps|) && w == u.(ftps := w.ftps)
    case SshTable => OwnedDone(m, table, u.sshs, w.sshs, u.account.id, |u.sshs|) && w == u.(sshs := w.sshs)
  }

  lemma Advance(t: Tree, u: Tree, w: Tree, m: map<Site, Renaming>, after: map<Site, Renaming>, table: Table)
    requires Progress(t, u, m, Number(table)) && TablesBelow(m, Number(table)) && Adds(m, after, table) && TableDone(u, w, after, table)
    ensures Progress(t, w, after, Number(table) + 1) && TablesBelow(after, Number(table) + 1)
  {
    hide OwnedDone, ChildrenDone, RecordsDone, TablesBelow, Adds;
    ProgressExtends(t, u, m, after, Number(table), table);
  }

  ghost predicate AllRecorded(t: Tree, u: Tree, m: map<Site, Renaming>) {
    forall s :: (IsSite(t, s) <==> IsSite(u, s)) && (IsSite(t, s) && IsSite(u, s) ==> Recorded(m, s, At(t, s), At(u, s)))
  }

  lemma OwnedRecorded<B>(m: map<Site, Renaming>, table: Table, rows: seq<Owned<B>>, out: seq<Owned<B>>, account: string)
    requires OwnedDone(m, table, rows, out, account, |rows|)
    ensures SameOwned(rows, out, account)
    ensures forall s: Site :: s.table == table && !s.parent && s.row < |rows| ==> Recorded(m, s, rows[s.row].id, out[s.row].id)
  {
    forall j | 0 <= j < |rows|
      ensures OwnedRow(m, table, j, rows[j], out[j], account)
    {
    }
    forall s: Site | s.table == table && !s.parent && s.row < |rows|
      ensures Recorded(m, s, rows[s.row].id, out[s.row].id)
    {
      assert OwnedRow(m, table, s.row, rows[s.row], out[s.row], account) && s == Site(table, s.row, false);
    }
  }

  lemma ChildrenRecorded<B>(m: map<Site, Renaming>, table: Table, rows: seq<Child<B>>, out: seq<Child<B>>, account: string)
    requires ChildrenDone(m, table, rows, out, account, |rows|)
    ensures SameChildren(rows, out, account)
    ensures forall s: Site :: s.table == table && s.row < |rows| ==> Recorded(m, s, OfChild(s, rows[s.row]), OfChild(s, out[s.row]))
  {
    forall j | 0 <= j < |rows|
      ensures ChildRow(m, table, j, rows[j], out[j], account)
    {
    }
    forall s: Site | s.table == table && s.row < |rows|
      ensures Recorded(m, s, OfChild(s, rows[s.row]), OfChild(s, out[s.row]))
    {
      assert ChildRow(m, table, s.row, rows[s.row], out[s.row], account) && s == Site(table, s.row, s.parent);
    }
  }

  lemma RecordsRecorded(m: map<Site, Renaming>, rows: seq<Record>, out: seq<Record>)
    requires RecordsDone(m, rows, out, |rows|)
    ensures SameRecords(rows, out)
    ensures forall s: Site :: s.table == RecordTable && s.row < |rows| ==>
      Recorded(m, s, if s.parent then rows[s.row].zoneId else rows[s.row].id, if s.parent then out[s.row].zoneId else out[s.row].id)
  {
    forall j | 0 <= j < |rows|
      ensures RecordRow(m, j, rows[j], out[j])
    {
    }
    forall s: Site | s.table == RecordTable && s.row < |rows|
      ensures Recorded(m, s, if s.parent then rows[s.row].zoneId else rows[s.row].id, if s.parent then out[s.row].zoneId else out[s.row].id)
    {
      assert RecordRow(m, s.row, rows[s.row], out[s.row]) && s == Site(RecordTable, s.row, s.parent);
    }
  }

  lemma ProgressEnds(t: Tree, u: Tree, m: map<Site, Renaming>)
    requires Progress(t, u, m, 13)
    ensures SameBut(t, u) && AllRecorded(t, u, m)
  {
    hide OwnedDone, ChildrenDone, RecordsDone, SameOwned, SameChildren, SameRecords;
    var id := u.account.id;
    OwnedRecorded(m, DomainTable, t.domains, u.domains, id);
    ChildrenRecorded(m, WebsiteTable, t.websites, u.websites, id);
    ChildrenRecorded(m, ApplicationTable, t.applications, u.applications, id);
    OwnedRecorded(m, DatabaseTable, t.databases, u.databases, id);
    ChildrenRecorded(m, MailDomainTable, t.mailDomains, u.mailDomains, id);
    ChildrenRecorded(m, MailboxTable, t.mailboxes, u.mailboxes, id);
    ChildrenRecorded(m, AliasTable, t.aliases, u.aliases, id);
    ChildrenRecorded(m, ZoneTable, t.zones, u.zones, id);
    RecordsRecorded(m, t.records, u.records);
    OwnedRecorded(m, CronTable, t.crons, u.crons, id);
    OwnedRecorded(m, FtpTable, t.ftps, u.ftps, id);
    OwnedRecorded(m, SshTable, t.sshs, u.sshs, id);
    Lengths(t, u);
    forall s
      ensures (IsSite(t, s) <==> IsSite(u, s)) && (IsSite(t, s) && IsSite(u, s) ==> Recorded(m, s, At(t, s), At(u, s)))
    {
    }
  }

  lemma Lengths(t: Tree, u: Tree)
    requires SameBut(t, u)
    ensures |t.domains| == |u.domains| && |t.websites| == |u.websites| && |t.applications| == |u.applications|
    ensures |t.databases| == |u.databases| && |t.mailDomains| == |u.mailDomains| && |t.mailboxes| == |u.mailboxes|
    ensures |t.aliases| == |u.aliases| && |t.zones| == |u.zones| && |t.records| == |u.records|
    ensures |t.crons| == |u.crons| && |t.ftps| == |u.ftps| && |t.sshs| == |u.sshs|
  {
  }

  // Every id of u was handed out by newId.
  ghost predicate FromSupply(u: Tree, newId: nat -> string) {
    forall s :: IsSite(u, s) ==> exists k: nat :: newId(k) == At(u, s)
  }

  lemma RecordedGraph(t: Tree, u: Tree, newId: nat -> string, used: nat, ids: map<string, string>, issued: set<string>, m: map<Site, Renaming>)
    requires IdsApart(ids, issued) && Answered(ids, issued, m) && Issued(newId, used, issued) && AllRecorded(t, u, m)
    ensures SameGraph(t, u) && FromSupply(u, newId)
  {
    hide IsSite, At;
    forall a, b | IsSite(t, a) && IsSite(t, b) && IsSite(u, a) && IsSite(u, b)
      ensures At(u, a) == At(u, b) <==> a == b || (At(t, a) == At(t, b) && At(t, a) != "")
    {
      assert Recorded(m, a, At(t, a), At(u, a)) && Recorded(m, b, At(t, b), At(u, b));
      assert Answer(ids, issued, m, a) && Answer(ids, issued, m, b);
    }
    forall s | IsSite(u, s)
      ensures exists k: nat :: newId(k) == At(u, s)
    {
      assert Recorded(m, s, At(t, s), At(u, s)) && Answer(ids, issued, m, s);
    }
  }
}
