// The rewritten export and the data move planned from it (internal/migration/native.go, lines 256-372): what the plan finds of the source,
// and that it does not depend on the ids.
module DataMove {
  import opened ExportTree
  import opened ExportNames
  import opened ExportIds

  // ---------- rewriting an export ----------

  function Mapped<T, U>(s: seq<T>, f: T -> U): seq<U> {
    seq(|s|, i requires 0 <= i < |s| => f(s[i]))
  }

  // How each table's rows are rewritten.
  function DomainRule(n: Names): Owned<Domain> -> Owned<Domain> {
    (d: Owned<Domain>) => d.(body := RewriteDomain(d.body, n))
  }

  function WebsiteRule(n: Names): Child<Website> -> Child<Website> {
    (w: Child<Website>) => w.(body := Website(RewriteHomePath(w.body.documentRoot, n)))
  }

  function ApplicationRule(n: Names): Child<Application> -> Child<Application> {
    (a: Child<Application>) => a.(body := Application(RewriteHomePath(a.body.workingDirectory, n), RewriteHomePath(a.body.listenTarget, n)))
  }

  function ZoneRule(n: Names): Child<Zone> -> Child<Zone> {
    (z: Child<Zone>) => z.(body := Zone(RewriteFqdn(z.body.name, n.srcDomain, n.destDomain)))
  }

  function RecordRule(n: Names): Record -> Record {
    (r: Record) => r.(name := RewriteHostToken(r.name, n.srcDomain, n.destDomain), content := RewriteHostToken(r.content, n.srcDomain, n.destDomain))
  }

  function DatabaseRule(n: Names): Owned<Database> -> Owned<Database> {
    (d: Owned<Database>) => d.(body := RewriteDatabase(d.body, n))
  }

  function AliasRule(n: Names): Child<Alias> -> Child<Alias> {
    (a: Child<Alias>) => a.(body := a.body.(destination := RewriteAddress(a.body.destination, n.srcDomain, n.destDomain)))
  }

  function CronRule(n: Names): Owned<Cron> -> Owned<Cron> {
    (c: Owned<Cron>) => c.(body := Cron(RewriteHomePath(c.body.workingDirectory, n)))
  }

  function FtpRule(n: Names): Owned<Ftp> -> Owned<Ftp> {
    (f: Owned<Ftp>) => f.(body := f.body.(username := RewriteFtpUser(f.body.username, n), homePath := RewriteHomePath(f.body.homePath, n)))
  }

  function RewrittenSites(t: Tree, n: Names): Tree {
    t.(domains := Mapped(t.domains, DomainRule(n)), websites := Mapped(t.websites, WebsiteRule(n)),
       applications := Mapped(t.applications, ApplicationRule(n)))
  }

  function RewrittenDns(t: Tree, n: Names): Tree {
    t.(zones := Mapped(t.zones, ZoneRule(n)), records := Mapped(t.records, RecordRule(n)))
  }

  function RewrittenRest(t: Tree, n: Names): Tree {
    t.(databases := Mapped(t.databases, DatabaseRule(n)), aliases := Mapped(t.aliases, AliasRule(n)),
       crons := Mapped(t.crons, CronRule(n)), ftps := Mapped(t.ftps, FtpRule(n)))
  }

  function Rewritten(t: Tree, n: Names): Tree { RewrittenRest(RewrittenDns(RewrittenSites(t, n), n), n) }

  // One loop over a table that replaces each row in place.
  method RewriteRows<T>(rows: seq<T>, f: T -> T) returns (out: seq<T>)
    ensures out == Mapped(rows, f)
  {
    out := rows;
    for i := 0 to |out|
      invariant |out| == |rows|
      invariant forall j :: 0 <= j < |rows| ==> out[j] == if j < i then f(rows[j]) else rows[j]
    {
      out := out[i := f(out[i])];
    }
  }

  // ---------- the data move ----------

  datatype DatabaseMove = DatabaseMove(engine: string, source: string, dest: string, dump: string)
  datatype PathMove = PathMove(source: string, dest: string)
  datatype Plan = Plan(copySource: string, copyDest: string, username: string,
                       databases: seq<DatabaseMove>, mailboxes: seq<PathMove>)

  function Ids<B>(rows: seq<Owned<B>>): seq<string> { Mapped(rows, (r: Owned<B>) => r.id) }
  function ChildIds<B>(rows: seq<Child<B>>): seq<string> { Mapped(rows, (r: Child<B>) => r.id) }

  // What a map filled from the pairs holds for id: the last value, "" if there is none.
  function Last(keys: seq<string>, values: seq<string>, id: string): string
    requires |keys| == |values|
  {
    if keys == [] then "" else
      var n := |keys| - 1;
      if keys[n] == id then values[n] else Last(keys[..n], values[..n], id)
  }

  // The name each mail domain is given by its domain row.
  function MailDomainAsciis(t: Tree, asciis: seq<string>): (s: seq<string>)
    requires |asciis| == |t.domains|
    ensures |s| == |t.mailDomains|
  {
    Mapped(t.mailDomains, (m: Child<MailDomain>) => Last(Ids(t.domains), asciis, m.parentId))
  }

  // The name found for a mailbox that refers to parentId, given the name of each row of the domain table: that of a mail
  // domain, or else of a domain.
  function ViaMail(t: Tree, asciis: seq<string>, parentId: string): string
    requires |asciis| == |t.domains|
  {
    Last(ChildIds(t.mailDomains), MailDomainAsciis(t, asciis), parentId)
  }

  function Found(t: Tree, asciis: seq<string>, parentId: string): string
    requires |asciis| == |t.domains|
  {
    OrElse(ViaMail(t, asciis, parentId), Last(Ids(t.domains), asciis, parentId))
  }

  // The same lookups, if an empty id is taken for no reference at all.
  function LinkedLast(keys: seq<string>, values: seq<string>, id: string): string
    requires |keys| == |values|
  {
    if id == "" then "" else Last(keys, values, id)
  }

  function LinkedAsciis(t: Tree, asciis: seq<string>): (s: seq<string>)
    requires |asciis| == |t.domains|
    ensures |s| == |t.mailDomains|
  {
    Mapped(t.mailDomains, (m: Child<MailDomain>) => LinkedLast(Ids(t.domains), asciis, m.parentId))
  }

  function LinkedFound(t: Tree, asciis: seq<string>, parentId: string): string
    requires |asciis| == |t.domains|
  {
    OrElse(LinkedLast(ChildIds(t.mailDomains), LinkedAsciis(t, asciis), parentId), LinkedLast(Ids(t.domains), asciis, parentId))
  }

  function Asciis(t: Tree): (s: seq<string>)
    ensures |s| == |t.domains|
  {
    Mapped(t.domains, (d: Owned<Domain>) => d.body.ascii)
  }

  // planDataMove undoes the rewriting of each domain's name.
  function SourceAsciis(t: Tree, n: Names): (s: seq<string>)
    ensures |s| == |t.domains|
  {
    Mapped(t.domains, (d: Owned<Domain>) => RewriteFqdn(d.body.ascii, n.destDomain, n.srcDomain))
  }

  function MailPath(ascii: string, localPart: string): string { "/var/vmail/" + ascii + "/" + localPart }

  function PlanDatabase(d: Owned<Database>, dump: string, n: Names): DatabaseMove {
    DatabaseMove(d.body.engine, RewritePrefixedName(d.body.name, n.destUser, n.srcUser), d.body.name, dump)
  }

  function PlanMailbox(t: Tree, n: Names, mailbox: Child<Mailbox>): PathMove {
    var ascii := OrElse(Found(t, SourceAsciis(t, n), mailbox.parentId), n.srcDomain);
    PathMove(MailPath(ascii, mailbox.body.localPart), MailPath(RewriteFqdn(ascii, n.srcDomain, n.destDomain), mailbox.body.localPart))
  }

  function PlanOf(t: Tree, n: Names): Plan {
    Plan(if t.homedir == "" then "/home/" + n.srcUser else t.homedir, "/home/" + n.destUser, n.destUser,
         Mapped(t.databases, (d: Owned<Database>) => PlanDatabase(d, t.mysqlDump, n)),
         Mapped(t.mailboxes, (m: Child<Mailbox>) => PlanMailbox(t, n, m)))
  }

  function Get(m: map<string, string>, k: string): string { if k in m then m[k] else "" }

  // The map m holds the last value of every key.
  ghost predicate HoldsLast(m: map<string, string>, keys: seq<string>, values: seq<string>)
    requires |keys| == |values|
  {
    forall id :: Get(m, id) == Last(keys, values, id)
  }

  lemma HoldsLastStep(m: map<string, string>, keys: seq<string>, values: seq<string>, i: nat)
    requires |keys| == |values| && i < |keys| && HoldsLast(m, keys[..i], values[..i])
    ensures HoldsLast(m[keys[i] := values[i]], keys[..i + 1], values[..i + 1])
  {
    var k, v := keys[..i + 1], values[..i + 1];
    assert k[..i] == keys[..i] && v[..i] == values[..i] && |k| - 1 == i;
    forall id
      ensures Get(m[keys[i] := values[i]], id) == Last(k, v, id)
    {
      assert Get(m, id) == Last(keys[..i], values[..i], id);
    }
  }

  // ---------- first match, as mailboxKey looks names up ----------

  function First(keys: seq<string>, values: seq<string>, id: string): string
    requires |keys| == |values|
  {
    if keys == [] then "" else if keys[0] == id then values[0] else First(keys[1..], values[1..], id)
  }

  function FirstMailDomainAsciis(t: Tree): (s: seq<string>)
    ensures |s| == |t.mailDomains|
  {
    Mapped(t.mailDomains, (m: Child<MailDomain>) => First(Ids(t.domains), Asciis(t), m.parentId))
  }

  function KeyAscii(t: Tree, parentId: string): string {
    var viaMail := First(ChildIds(t.mailDomains), FirstMailDomainAsciis(t), parentId);
    OrElse(OrElse(viaMail, First(Ids(t.domains), Asciis(t), parentId)), t.account.primaryDomain)
  }

  function LinkedFirst(keys: seq<string>, values: seq<string>, id: string): string
    requires |keys| == |values|
  {
    if id == "" then "" else First(keys, values, id)
  }

  function LinkedKeyAscii(t: Tree, parentId: string): string {
    var asciis := Mapped(t.mailDomains, (m: Child<MailDomain>) => LinkedFirst(Ids(t.domains), Asciis(t), m.parentId));
    var viaMail := LinkedFirst(ChildIds(t.mailDomains), asciis, parentId);
    OrElse(OrElse(viaMail, LinkedFirst(Ids(t.domains), Asciis(t), parentId)), t.account.primaryDomain)
  }

  function MailboxKeyOf(t: Tree, mailbox: Child<Mailbox>): string { mailbox.body.localPart + "@" + KeyAscii(t, mailbox.parentId) }

  lemma FirstAfterMisses(keys: seq<string>, values: seq<string>, id: string, i: nat)
    requires |keys| == |values| && i <= |keys| && forall j :: 0 <= j < i ==> keys[j] != id
    ensures First(keys, values, id) == if i < |keys| && keys[i] == id then values[i] else First(keys[i..], values[i..], id)
    decreases i
  {
    if i == 0 {
      assert keys[0..] == keys && values[0..] == values;
    } else {
      FirstAfterMisses(keys[1..], values[1..], id, i - 1);
      assert keys[1..][i - 1..] == keys[i..] && values[1..][i - 1..] == values[i..];
    }
  }

  // ---------- the plan and the renaming ----------

  // No mailbox or mail domain without a parent id meets a row without an id: such fields are given different ids.
  predicate NoBlankMatch(t: Tree) {
    (forall i, j :: 0 <= i < |t.mailboxes| && 0 <= j < |t.mailDomains| ==> t.mailboxes[i].parentId != "" || t.mailDomains[j].id != "") &&
    (forall i, j :: 0 <= i < |t.mailboxes| && 0 <= j < |t.domains| ==> t.mailboxes[i].parentId != "" || t.domains[j].id != "") &&
    (forall i, j :: 0 <= i < |t.mailDomains| && 0 <= j < |t.domains| ==> t.mailDomains[i].parentId != "" || t.domains[j].id != "")
  }

  // The renamed keys match the renamed id where the old ones matched a non-empty id.
  ghost predicate Matches(keys: seq<string>, id: string, newKeys: seq<string>, newId: string) {
    |keys| == |newKeys| && forall i :: 0 <= i < |keys| ==> (newKeys[i] == newId <==> keys[i] == id && id != "")
  }

  lemma {:induction false} LastMatches(keys: seq<string>, newKeys: seq<string>, values: seq<string>, id: string, newId: string)
    requires Matches(keys, id, newKeys, newId) && |values| == |keys|
    ensures Last(newKeys, values, newId) == LinkedLast(keys, values, id)
  {
    if keys != [] {
      var n := |keys| - 1;
      LastMatches(keys[..n], newKeys[..n], values[..n], id, newId);
    }
  }

  lemma {:induction false} FirstMatches(keys: seq<string>, newKeys: seq<string>, values: seq<string>, id: string, newId: string)
    requires Matches(keys, id, newKeys, newId) && |values| == |keys|
    ensures First(newKeys, values, newId) == LinkedFirst(keys, values, id)
  {
    if keys != [] {
      FirstMatches(keys[1..], newKeys[1..], values[1..], id, newId);
    }
  }

  lemma MailboxLinks(t: Tree, u: Tree, i: nat)
    requires SameBut(t, u) && SameGraph(t, u) && i < |t.mailboxes|
    ensures |u.mailboxes| == |t.mailboxes|
    ensures Matches(ChildIds(t.mailDomains), t.mailboxes[i].parentId, ChildIds(u.mailDomains), u.mailboxes[i].parentId)
    ensures Matches(Ids(t.domains), t.mailboxes[i].parentId, Ids(u.domains), u.mailboxes[i].parentId)
  {
    Lengths(t, u);
    var b := Site(MailboxTable, i, true);
    forall j | 0 <= j < |t.mailDomains|
      ensures u.mailDomains[j].id == u.mailboxes[i].parentId <==> t.mailDomains[j].id == t.mailboxes[i].parentId && t.mailboxes[i].parentId != ""
    {
      var a := Site(MailDomainTable, j, false);
      assert IsSite(t, a) && IsSite(t, b) && IsSite(u, a) && IsSite(u, b);
      assert At(u, a) == At(u, b) <==> At(t, a) == At(t, b) && At(t, a) != "";
    }
    forall j | 0 <= j < |t.domains|
      ensures u.domains[j].id == u.mailboxes[i].parentId <==> t.domains[j].id == t.mailboxes[i].parentId && t.mailboxes[i].parentId != ""
    {
      var a := Site(DomainTable, j, false);
      assert IsSite(t, a) && IsSite(t, b) && IsSite(u, a) && IsSite(u, b);
      assert At(u, a) == At(u, b) <==> At(t, a) == At(t, b) && At(t, a) != "";
    }
  }

  lemma MailDomainLinks(t: Tree, u: Tree, i: nat)
    requires SameBut(t, u) && SameGraph(t, u) && i < |t.mailDomains|
    ensures |u.mailDomains| == |t.mailDomains|
    ensures Matches(Ids(t.domains), t.mailDomains[i].parentId, Ids(u.domains), u.mailDomains[i].parentId)
  {
    Lengths(t, u);
    var b := Site(MailDomainTable, i, true);
    forall j | 0 <= j < |t.domains|
      ensures u.domains[j].id == u.mailDomains[i].parentId <==> t.domains[j].id == t.mailDomains[i].parentId && t.mailDomains[i].parentId != ""
    {
      var a := Site(DomainTable, j, false);
      assert IsSite(t, a) && IsSite(t, b) && IsSite(u, a) && IsSite(u, b);
      assert At(u, a) == At(u, b) <==> At(t, a) == At(t, b) && At(t, a) != "";
    }
  }

  // What is found after the renaming is what was found before through ids that are not empty.
  lemma FoundAfter(t: Tree, u: Tree, asciis: seq<string>, i: nat)
    requires SameBut(t, u) && SameGraph(t, u) && i < |t.mailboxes| && |asciis| == |t.domains|
    ensures |u.mailboxes| == |t.mailboxes| && |u.domains| == |t.domains|
    ensures Found(u, asciis, u.mailboxes[i].parentId) == LinkedFound(t, asciis, t.mailboxes[i].parentId)
  {
    hide SameGraph, Matches, Last, LinkedLast;
    Lengths(t, u);
    forall j | 0 <= j < |t.mailDomains|
      ensures LinkedAsciis(t, asciis)[j] == MailDomainAsciis(u, asciis)[j]
    {
      MailDomainLinks(t, u, j);
      LastMatches(Ids(t.domains), Ids(u.domains), asciis, t.mailDomains[j].parentId, u.mailDomains[j].parentId);
    }
    assert LinkedAsciis(t, asciis) == MailDomainAsciis(u, asciis);
    MailboxLinks(t, u, i);
    var id, newId := t.mailboxes[i].parentId, u.mailboxes[i].parentId;
    LastMatches(ChildIds(t.mailDomains), ChildIds(u.mailDomains), LinkedAsciis(t, asciis), id, newId);
    LastMatches(Ids(t.domains), Ids(u.domains), asciis, id, newId);
  }

  // For every mailbox the name found does not hang on a link through an empty id.
  predicate PlanIsLinked(t: Tree, n: Names) {
    forall i :: 0 <= i < |t.mailboxes| ==>
      OrElse(LinkedFound(t, SourceAsciis(t, n), t.mailboxes[i].parentId), n.srcDomain) ==
      OrElse(Found(t, SourceAsciis(t, n), t.mailboxes[i].parentId), n.srcDomain)
  }

  lemma MailboxPlanUnchangedIff(t: Tree, u: Tree, n: Names, i: nat)
    requires SameBut(t, u) && SameGraph(t, u) && i < |t.mailboxes|
    ensures |u.mailboxes| == |t.mailboxes|
    ensures PlanMailbox(u, n, u.mailboxes[i]) == PlanMailbox(t, n, t.mailboxes[i]) <==>
      OrElse(LinkedFound(t, SourceAsciis(t, n), t.mailboxes[i].parentId), n.srcDomain) ==
      OrElse(Found(t, SourceAsciis(t, n), t.mailboxes[i].parentId), n.srcDomain)
  {
    hide SameGraph, Found, LinkedFound, MailPath;
    Lengths(t, u);
    assert SourceAsciis(t, n) == SourceAsciis(u, n);
    FoundAfter(t, u, SourceAsciis(t, n), i);
    PathsDiffer(OrElse(LinkedFound(t, SourceAsciis(t, n), t.mailboxes[i].parentId), n.srcDomain),
                OrElse(Found(t, SourceAsciis(t, n), t.mailboxes[i].parentId), n.srcDomain), t.mailboxes[i].body.localPart);
  }

  // The data move is the same whether it is planned before or after the ids are replaced, exactly when no mailbox is found through
  // an empty id.
  lemma PlanUnchangedIff(t: Tree, u: Tree, n: Names)
    requires SameBut(t, u) && SameGraph(t, u)
    ensures PlanOf(u, n) == PlanOf(t, n) <==> PlanIsLinked(t, n)
  {
    hide SameGraph, Found, LinkedFound, PlanMailbox, OrElse;
    Lengths(t, u);
    var p, q := PlanOf(t, n), PlanOf(u, n);
    forall i | 0 <= i < |t.mailboxes|
      ensures q.mailboxes[i] == p.mailboxes[i] <==>
        OrElse(LinkedFound(t, SourceAsciis(t, n), t.mailboxes[i].parentId), n.srcDomain) ==
        OrElse(Found(t, SourceAsciis(t, n), t.mailboxes[i].parentId), n.srcDomain)
    {
      MailboxPlanUnchangedIff(t, u, n, i);
    }
    assert q.databases == p.databases;
    if PlanIsLinked(t, n) {
      assert q.mailboxes == p.mailboxes;
    }
  }

  lemma {:induction false} NoBlankKey(keys: seq<string>, values: seq<string>)
    requires |keys| == |values| && forall i :: 0 <= i < |keys| ==> keys[i] != ""
    ensures Last(keys, values, "") == "" && First(keys, values, "") == ""
  {
    if keys != [] {
      var n := |keys| - 1;
      NoBlankKeyLast(keys, values);
      NoBlankKey(keys[1..], values[1..]);
    }
  }

  lemma {:induction false} NoBlankKeyLast(keys: seq<string>, values: seq<string>)
    requires |keys| == |values| && forall i :: 0 <= i < |keys| ==> keys[i] != ""
    ensures Last(keys, values, "") == ""
  {
    if keys != [] {
      NoBlankKeyLast(keys[..|keys| - 1], values[..|keys| - 1]);
    }
  }

  // An export whose rows have ids, as the store gives them, is one whose plan and keys do not hang on empty ids.
  lemma RowsWithIdsAreLinked(t: Tree, n: Names, i: nat)
    requires NoBlankMatch(t) && i < |t.mailboxes|
    ensures LinkedFound(t, SourceAsciis(t, n), t.mailboxes[i].parentId) == Found(t, SourceAsciis(t, n), t.mailboxes[i].parentId)
    ensures LinkedKeyAscii(t, t.mailboxes[i].parentId) == KeyAscii(t, t.mailboxes[i].parentId)
  {
    hide Last, First;
    var asciis := SourceAsciis(t, n);
    forall j | 0 <= j < |t.mailDomains|
      ensures LinkedLast(Ids(t.domains), asciis, t.mailDomains[j].parentId) == Last(Ids(t.domains), asciis, t.mailDomains[j].parentId)
      ensures LinkedFirst(Ids(t.domains), Asciis(t), t.mailDomains[j].parentId) == First(Ids(t.domains), Asciis(t), t.mailDomains[j].parentId)
    {
      if t.mailDomains[j].parentId == "" {
        NoBlankKey(Ids(t.domains), asciis);
        NoBlankKey(Ids(t.domains), Asciis(t));
      }
    }
    assert LinkedAsciis(t, asciis) == MailDomainAsciis(t, asciis);
    var asciis' := Mapped(t.mailDomains, (m: Child<MailDomain>) => LinkedFirst(Ids(t.domains), Asciis(t), m.parentId));
    assert asciis' == FirstMailDomainAsciis(t);
    if t.mailboxes[i].parentId == "" {
      NoBlankKey(Ids(t.domains), asciis);
      NoBlankKey(Ids(t.domains), Asciis(t));
      NoBlankKey(ChildIds(t.mailDomains), LinkedAsciis(t, asciis));
      NoBlankKey(ChildIds(t.mailDomains), asciis');
    }
  }

  // The key a mailbox's password hash is filed under does not depend on the ids either, under the same condition.
  lemma MailboxKeyUnchangedIff(t: Tree, u: Tree, i: nat)
    requires SameBut(t, u) && SameGraph(t, u) && i < |t.mailboxes|
    ensures |u.mailboxes| == |t.mailboxes|
    ensures MailboxKeyOf(u, u.mailboxes[i]) == MailboxKeyOf(t, t.mailboxes[i]) <==>
      LinkedKeyAscii(t, t.mailboxes[i].parentId) == KeyAscii(t, t.mailboxes[i].parentId)
  {
    hide SameGraph, KeyAscii, LinkedKeyAscii;
    Lengths(t, u);
    KeyAfter(t, u, i);
    TailsDifferIff(t.mailboxes[i].body.localPart + "@", LinkedKeyAscii(t, t.mailboxes[i].parentId), KeyAscii(t, t.mailboxes[i].parentId));
  }

  lemma TailsDifferIff(stem: string, a: string, b: string)
    ensures stem + a == stem + b <==> a == b
  {
    if a != b {
      TailsDiffer(stem, a, b);
    }
  }

  lemma KeyAfter(t: Tree, u: Tree, i: nat)
    requires SameBut(t, u) && SameGraph(t, u) && i < |t.mailboxes|
    ensures |u.mailboxes| == |t.mailboxes| && KeyAscii(u, u.mailboxes[i].parentId) == LinkedKeyAscii(t, t.mailboxes[i].parentId)
  {
    hide SameGraph, Matches, First, LinkedFirst;
    Lengths(t, u);
    assert Asciis(t) == Asciis(u);
    var asciis := Mapped(t.mailDomains, (m: Child<MailDomain>) => LinkedFirst(Ids(t.domains), Asciis(t), m.parentId));
    forall j | 0 <= j < |t.mailDomains|
      ensures asciis[j] == FirstMailDomainAsciis(u)[j]
    {
      MailDomainLinks(t, u, j);
      FirstMatches(Ids(t.domains), Ids(u.domains), Asciis(t), t.mailDomains[j].parentId, u.mailDomains[j].parentId);
    }
    assert asciis == FirstMailDomainAsciis(u);
    MailboxLinks(t, u, i);
    var id, newId := t.mailboxes[i].parentId, u.mailboxes[i].parentId;
    FirstMatches(ChildIds(t.mailDomains), ChildIds(u.mailDomains), asciis, id, newId);
    FirstMatches(Ids(t.domains), Ids(u.domains), Asciis(t), id, newId);
  }

  // ---------- the plan and the rewriting ----------

  lemma {:induction false} LastReturned(keys: seq<string>, values: seq<string>, n: Names, id: string)
    requires |keys| == |values|
    ensures Last(keys, Mapped(values, v => Returned(v, n)), id) == Returned(Last(keys, values, id), n)
  {
    if keys != [] {
      var k := |keys| - 1;
      assert Mapped(values, v => Returned(v, n))[..k] == Mapped(values[..k], v => Returned(v, n));
      LastReturned(keys[..k], values[..k], n, id);
    }
  }

  // Both lookups of planDataMove, among the names it recovered, find the recovered form of what was there before.
  lemma FoundReturned(t: Tree, n: Names, id: string)
    ensures var r := Rewritten(t, n);
      ViaMail(r, SourceAsciis(r, n), id) == Returned(ViaMail(t, Asciis(t), id), n) &&
      Last(Ids(r.domains), SourceAsciis(r, n), id) == Returned(Last(Ids(t.domains), Asciis(t), id), n)
  {
    hide RewriteFqdn, Last;
    var r := Rewritten(t, n);
    var names := SourceAsciis(r, n);
    assert names == Mapped(Asciis(t), v => Returned(v, n));
    assert Ids(r.domains) == Ids(t.domains);
    forall j | 0 <= j < |t.mailDomains|
      ensures MailDomainAsciis(r, names)[j] == Returned(MailDomainAsciis(t, Asciis(t))[j], n)
    {
      LastReturned(Ids(t.domains), Asciis(t), n, t.mailDomains[j].parentId);
    }
    assert MailDomainAsciis(r, names) == Mapped(MailDomainAsciis(t, Asciis(t)), v => Returned(v, n));
    LastReturned(ChildIds(t.mailDomains), MailDomainAsciis(t, Asciis(t)), n, id);
    LastReturned(Ids(t.domains), Asciis(t), n, id);
  }

  // Planned after the rewriting, a database is looked for under its old name exactly when that name had the source's prefix or did not
  // have the destination's, and it goes to the name the row now has.
  lemma PlanFindsDatabase(t: Tree, n: Names, i: nat)
    requires i < |t.databases|
    ensures var p, r := PlanOf(Rewritten(t, n), n), Rewritten(t, n);
      |p.databases| == |t.databases| && p.databases[i].engine == t.databases[i].body.engine &&
      p.databases[i].dest == r.databases[i].body.name &&
      (p.databases[i].source == t.databases[i].body.name <==> DatabaseReturns(t.databases[i].body.name, n.srcUser, n.destUser))
  {
    DatabaseReturnsIff(t.databases[i].body.name, n.srcUser, n.destUser);
  }

  lemma MailPathIs()
    ensures forall ascii, localPart :: MailPath(ascii, localPart) == "/var/vmail/" + ascii + "/" + localPart
  {
  }

  lemma PathsDiffer(a: string, b: string, localPart: string)
    ensures MailPath(a, localPart) == MailPath(b, localPart) <==> a == b
  {
    var root := "/var/vmail/";
    if a != b {
      HeadsDiffer(root + a, root + b, "/" + localPart) by {
        TailsDiffer(root, a, b);
      }
      assert MailPath(a, localPart) == root + a + ("/" + localPart) && MailPath(b, localPart) == root + b + ("/" + localPart);
    }
  }

  // Planned after the rewriting, a mailbox's directory is looked for under the domain it had exactly when that domain's name returns,
  // and it goes below the rewritten domain.
  lemma PlanFindsMailbox(t: Tree, n: Names, i: nat)
    requires i < |t.mailboxes|
    ensures var p, id, mb := PlanOf(Rewritten(t, n), n), t.mailboxes[i].parentId, t.mailboxes[i].body.localPart;
      var was := OrElse(Found(t, Asciis(t), id), n.srcDomain);
      var back := MailReturns(ViaMail(t, Asciis(t), id), Last(Ids(t.domains), Asciis(t), id), n.srcDomain, n.destDomain);
      |p.mailboxes| == |t.mailboxes| &&
      (p.mailboxes[i].source == "/var/vmail/" + was + "/" + mb <==> back) &&
      (back || (n.srcDomain != "" && n.destDomain != "") ==>
        p.mailboxes[i].dest == "/var/vmail/" + RewriteFqdn(was, n.srcDomain, n.destDomain) + "/" + mb)
  {
    hide RewriteFqdn, Inside, MailPath, MailReturns, Last, ViaMail;
    var r, id := Rewritten(t, n), t.mailboxes[i].parentId;
    var viaMail, direct := ViaMail(t, Asciis(t), id), Last(Ids(t.domains), Asciis(t), id);
    FoundReturned(t, n, id);
    MailPathIs();
    MailReturnsIff(viaMail, direct, n);
    PathsDiffer(OrElse(OrElse(Returned(viaMail, n), Returned(direct, n)), n.srcDomain), OrElse(OrElse(viaMail, direct), n.srcDomain),
                t.mailboxes[i].body.localPart);
    if n.srcDomain != "" && n.destDomain != "" {
      NeverBlank(viaMail, n);
      NeverBlank(direct, n);
      FqdnDestination(viaMail, n.srcDomain, n.destDomain);
      FqdnDestination(direct, n.srcDomain, n.destDomain);
    }
  }

  // ---------- what the plan and the rewritten rows hold ----------

  // The home is copied from where the export has it, by default the source user's, to the destination user's; databases keep their engine,
  // and the dump goes with each.
  lemma PlanCopies(t: Tree, n: Names)
    ensures var p := PlanOf(t, n);
      p.copySource == (if t.homedir != "" then t.homedir else "/home/" + n.srcUser) && p.copyDest == "/home/" + n.destUser &&
      p.username == n.destUser && |p.databases| == |t.databases| && |p.mailboxes| == |t.mailboxes| &&
      forall i :: 0 <= i < |t.databases| ==> p.databases[i].engine == t.databases[i].body.engine && p.databases[i].dump == t.mysqlDump
  {
  }

  lemma {:induction false} LastOfUnique(keys: seq<string>, values: seq<string>, i: nat)
    requires |keys| == |values| && i < |keys| && DistinctIds(keys)
    ensures Last(keys, values, keys[i]) == values[i]
  {
    var n := |keys| - 1;
    if i < n {
      LastOfUnique(keys[..n], values[..n], i);
    }
  }

  ghost predicate DistinctIds(ids: seq<string>) { forall i, j :: 0 <= i < j < |ids| ==> ids[i] != ids[j] }

  // With ids that are distinct, a mailbox is found under the name of its mail domain's domain.
  lemma FoundIs(t: Tree, m: nat, d: nat)
    requires DistinctIds(Ids(t.domains)) && DistinctIds(ChildIds(t.mailDomains))
    requires m < |t.mailDomains| && d < |t.domains| && t.mailDomains[m].parentId == t.domains[d].id && t.domains[d].body.ascii != ""
    ensures Found(t, Asciis(t), t.mailDomains[m].id) == t.domains[d].body.ascii
  {
    LastOfUnique(Ids(t.domains), Asciis(t), d);
    LastOfUnique(ChildIds(t.mailDomains), MailDomainAsciis(t, Asciis(t)), m);
  }

  // Such a mailbox is moved from its directory under the domain's old name to the one under its new name, if the name is one that returns.
  lemma MailboxMoves(t: Tree, n: Names, i: nat, m: nat, d: nat)
    requires DistinctIds(Ids(t.domains)) && DistinctIds(ChildIds(t.mailDomains)) && i < |t.mailboxes| && m < |t.mailDomains| && d < |t.domains|
    requires t.mailboxes[i].parentId == t.mailDomains[m].id && t.mailDomains[m].parentId == t.domains[d].id && t.domains[d].body.ascii != ""
    requires n.srcDomain != "" && n.destDomain != "" && FqdnReturns(t.domains[d].body.ascii, n.srcDomain, n.destDomain)
    ensures var p, r := PlanOf(Rewritten(t, n), n), Rewritten(t, n);
      |p.mailboxes| == |t.mailboxes| && |r.domains| == |t.domains| &&
      p.mailboxes[i].source == "/var/vmail/" + t.domains[d].body.ascii + "/" + t.mailboxes[i].body.localPart &&
      p.mailboxes[i].dest == "/var/vmail/" + r.domains[d].body.ascii + "/" + t.mailboxes[i].body.localPart
  {
    hide RewriteFqdn, Last, FqdnReturns, PlanOf, ViaMail;
    FoundIs(t, m, d);
    PlanFindsMailbox(t, n, i);
    BothRoots(ViaMail(t, Asciis(t), t.mailboxes[i].parentId), Last(Ids(t.domains), Asciis(t), t.mailboxes[i].parentId), n.srcDomain, n.destDomain);
  }

  // What each rewritten row holds; mail domains, mailboxes and keys are left alone.
  lemma RewrittenRows(t: Tree, n: Names)
    ensures var r := Rewritten(t, n);
      r == t.(domains := r.domains, websites := r.websites, applications := r.applications, zones := r.zones, records := r.records,
              databases := r.databases, aliases := r.aliases, crons := r.crons, ftps := r.ftps) &&
      |r.domains| == |t.domains| && |r.websites| == |t.websites| && |r.applications| == |t.applications| && |r.zones| == |t.zones| &&
      |r.records| == |t.records| && |r.databases| == |t.databases| && |r.aliases| == |t.aliases| && |r.crons| == |t.crons| && |r.ftps| == |t.ftps|
    ensures forall i :: 0 <= i < |t.domains| ==>
      Rewritten(t, n).domains[i] == Owned(t.domains[i].id, t.domains[i].accountId, Domain(RewriteFqdn(t.domains[i].body.fqdn, n.srcDomain, n.destDomain),
        RewriteFqdn(t.domains[i].body.ascii, n.srcDomain, n.destDomain), RewriteHomePath(t.domains[i].body.documentRoot, n)))
    ensures forall i :: 0 <= i < |t.records| ==>
      Rewritten(t, n).records[i] == Record(t.records[i].id, t.records[i].zoneId, RewriteHostToken(t.records[i].name, n.srcDomain, n.destDomain),
        RewriteHostToken(t.records[i].content, n.srcDomain, n.destDomain))
    ensures forall i :: 0 <= i < |t.zones| ==>
      Rewritten(t, n).zones[i] == t.zones[i].(body := Zone(RewriteFqdn(t.zones[i].body.name, n.srcDomain, n.destDomain)))
    ensures forall i :: 0 <= i < |t.aliases| ==>
      Rewritten(t, n).aliases[i] == t.aliases[i].(body := Alias(t.aliases[i].body.address,
        RewriteAddress(t.aliases[i].body.destination, n.srcDomain, n.destDomain)))
    ensures forall i :: 0 <= i < |t.ftps| ==>
      Rewritten(t, n).ftps[i] == t.ftps[i].(body := Ftp(RewriteFtpUser(t.ftps[i].body.username, n), RewriteHomePath(t.ftps[i].body.homePath, n),
        t.ftps[i].body.hash))
    ensures forall i :: 0 <= i < |t.databases| ==>
      Rewritten(t, n).databases[i] == t.databases[i].(body := Database(t.databases[i].body.engine,
        RewritePrefixedName(t.databases[i].body.name, n.srcUser, n.destUser)))
    ensures forall i :: 0 <= i < |t.crons| ==>
      Rewritten(t, n).crons[i] == t.crons[i].(body := Cron(RewriteHomePath(t.crons[i].body.workingDirectory, n)))
    ensures forall i :: 0 <= i < |t.websites| ==>
      Rewritten(t, n).websites[i] == t.websites[i].(body := Website(RewriteHomePath(t.websites[i].body.documentRoot, n)))
    ensures forall i :: 0 <= i < |t.applications| ==>
      Rewritten(t, n).applications[i] == t.applications[i].(body := Application(RewriteHomePath(t.applications[i].body.workingDirectory, n),
        RewriteHomePath(t.applications[i].body.listenTarget, n)))
  {
    hide RewriteFqdn, RewriteHomePath, RewriteHostToken, RewriteAddress, RewriteFtpUser, RewritePrefixedName;
  }

  lemma {:induction false} FirstOfUnique(keys: seq<string>, values: seq<string>, i: nat)
    requires |keys| == |values| && i < |keys| && DistinctIds(keys)
    ensures First(keys, values, keys[i]) == values[i]
  {
    if i > 0 {
      assert keys[0] != keys[i];
      FirstOfUnique(keys[1..], values[1..], i - 1);
    }
  }

  // With ids that are distinct, a mailbox's key is its local part, an at sign, and the name of its mail domain's domain.
  lemma KeyIs(t: Tree, mailbox: Child<Mailbox>, m: nat, d: nat)
    requires DistinctIds(Ids(t.domains)) && DistinctIds(ChildIds(t.mailDomains)) && m < |t.mailDomains| && d < |t.domains|
    requires mailbox.parentId == t.mailDomains[m].id && t.mailDomains[m].parentId == t.domains[d].id && t.domains[d].body.ascii != ""
    ensures MailboxKeyOf(t, mailbox) == mailbox.body.localPart + "@" + t.domains[d].body.ascii
  {
    hide First;
    FirstOfUnique(Ids(t.domains), Asciis(t), d);
    FirstOfUnique(ChildIds(t.mailDomains), FirstMailDomainAsciis(t), m);
  }
}
