// Importing an account under another name (internal/migration/native.go, lines 66-79, 160-177 and 237-504): names are
// rewritten through the export, a data move is planned that must find the source's data again, and then
// every id is replaced by a new one.
module Migration {
  import opened ExportTree
  import opened ExportNames
  import opened ExportIds
  import opened DataMove
  import opened PasswordHashes

  class Export {
    var account: Account
    var homedir: string
    var mysqlDump: string
    var domains: seq<Owned<Domain>>
    var websites: seq<Child<Website>>
    var applications: seq<Child<Application>>
    var databases: seq<Owned<Database>>
    var mailDomains: seq<Child<MailDomain>>
    var mailboxes: seq<Child<Mailbox>>
    var aliases: seq<Child<Alias>>
    var zones: seq<Child<Zone>>
    var records: seq<Record>
    var crons: seq<Owned<Cron>>
    var ftps: seq<Owned<Ftp>>
    var sshs: seq<Owned<Ssh>>

    function Value(): Tree
      reads this
    {
      Tree(account, homedir, mysqlDump, domains, websites, applications, databases, mailDomains, mailboxes, aliases, zones, records,
           crons, ftps, sshs)
    }

    constructor (t: Tree)
      ensures Value() == t
    {
      account, homedir, mysqlDump := t.account, t.homedir, t.mysqlDump;
      domains, websites, applications, databases := t.domains, t.websites, t.applications, t.databases;
      mailDomains, mailboxes, aliases, zones, records := t.mailDomains, t.mailboxes, t.aliases, t.zones, t.records;
      crons, ftps, sshs := t.crons, t.ftps, t.sshs;
    }

    method RewriteExportTree(n: Names)
      modifies this
      ensures Value() == Rewritten(old(Value()), n)
    {
      hide DomainRule, WebsiteRule, ApplicationRule, ZoneRule, RecordRule, DatabaseRule, AliasRule, CronRule, FtpRule, Mapped;
      RewriteSites(n);
      RewriteDns(n);
      RewriteRest(n);
    }

    // The first three loops.
    method RewriteSites(n: Names)
      modifies this
      ensures Value() == RewrittenSites(old(Value()), n)
    {
      hide DomainRule, WebsiteRule, ApplicationRule, Mapped;
      domains := RewriteRows(domains, DomainRule(n));
      websites := RewriteRows(websites, WebsiteRule(n));
      applications := RewriteRows(applications, ApplicationRule(n));
    }

    // The next two.
    method RewriteDns(n: Names)
      modifies this
      ensures Value() == RewrittenDns(old(Value()), n)
    {
      hide ZoneRule, RecordRule, Mapped;
      zones := RewriteRows(zones, ZoneRule(n));
      records := RewriteRows(records, RecordRule(n));
    }

    // The last four.
    method RewriteRest(n: Names)
      modifies this
      ensures Value() == RewrittenRest(old(Value()), n)
    {
      hide DatabaseRule, AliasRule, CronRule, FtpRule, Mapped;
      var d := RewriteRows(databases, DatabaseRule(n));
      var a := RewriteRows(aliases, AliasRule(n));
      var c := RewriteRows(crons, CronRule(n));
      var f := RewriteRows(ftps, FtpRule(n));
      databases, aliases, crons, ftps := d, a, c, f;
    }

    method PlanDataMove(n: Names) returns (p: Plan)
      ensures p == PlanOf(Value(), n)
    {
      hide RewriteFqdn, Last;
      var t := Value();
      var srcHome := if homedir == "" then "/home/" + n.srcUser else homedir;
      var domainById: map<string, string> := map[];
      NothingHeld(Ids(domains), SourceAsciis(t, n));
      for i := 0 to |domains|
        invariant HoldsLast(domainById, Ids(domains)[..i], SourceAsciis(t, n)[..i])
      {
        HoldsLastStep(domainById, Ids(domains), SourceAsciis(t, n), i);
        var srcAscii := RewriteFqdn(domains[i].body.ascii, n.destDomain, n.srcDomain);
        if n.destDomain == n.srcDomain {
          SameRootKeeps(domains[i].body.ascii, n.srcDomain);
          srcAscii := domains[i].body.ascii;
        }
        domainById := domainById[domains[i].id := srcAscii];
      }
      WholeHoldsLast(domainById, Ids(domains), SourceAsciis(t, n));
      var mdAscii: map<string, string> := map[];
      var names := MailDomainAsciis(t, SourceAsciis(t, n));
      NothingHeld(ChildIds(mailDomains), names);
      for i := 0 to |mailDomains|
        invariant HoldsLast(mdAscii, ChildIds(mailDomains)[..i], names[..i])
      {
        HoldsLastStep(mdAscii, ChildIds(mailDomains), names, i);
        mdAscii := mdAscii[mailDomains[i].id := Get(domainById, mailDomains[i].parentId)];
      }
      WholeHoldsLast(mdAscii, ChildIds(mailDomains), names);
      var dbs: seq<DatabaseMove> := [];
      for i := 0 to |databases|
        invariant |dbs| == i && forall j :: 0 <= j < i ==> dbs[j] == PlanDatabase(databases[j], mysqlDump, n)
      {
        var srcName := RewritePrefixedName(databases[i].body.name, n.destUser, n.srcUser);
        if n.destUser == n.srcUser {
          srcName := databases[i].body.name;
        }
        dbs := dbs + [DatabaseMove(databases[i].body.engine, srcName, databases[i].body.name, mysqlDump)];
      }
      var mails: seq<PathMove> := [];
      for i := 0 to |mailboxes|
        invariant |mails| == i && forall j :: 0 <= j < i ==> mails[j] == PlanMailbox(t, n, mailboxes[j])
      {
        var srcAscii := Get(mdAscii, mailboxes[i].parentId);
        if srcAscii == "" {
          srcAscii := Get(domainById, mailboxes[i].parentId);
        }
        if srcAscii == "" {
          srcAscii := n.srcDomain;
        }
        var destAscii := RewriteFqdn(srcAscii, n.srcDomain, n.destDomain);
        mails := mails + [PathMove(MailPath(srcAscii, mailboxes[i].body.localPart), MailPath(destAscii, mailboxes[i].body.localPart))];
      }
      assert dbs == PlanOf(t, n).databases && mails == PlanOf(t, n).mailboxes;
      p := Plan(srcHome, "/home/" + n.destUser, n.destUser, dbs, mails);
    }

    // The loops stop at the first row that matches.
    method MailboxKey(mailbox: Child<Mailbox>) returns (key: string)
      ensures key == MailboxKeyOf(Value(), mailbox)
    {
      var t := Value();
      var i := 0;
      while i < |mailDomains| && mailDomains[i].id != mailbox.parentId
        invariant i <= |mailDomains| && forall j :: 0 <= j < i ==> mailDomains[j].id != mailbox.parentId
      {
        i := i + 1;
      }
      FirstAfterMisses(ChildIds(mailDomains), FirstMailDomainAsciis(t), mailbox.parentId, i);
      var ascii := "";
      if i < |mailDomains| {
        ascii := DomainAscii(mailDomains[i].parentId);
      }
      if ascii == "" {
        ascii := DomainAscii(mailbox.parentId);
      }
      if ascii == "" {
        ascii := account.primaryDomain;
      }
      key := mailbox.body.localPart + "@" + ascii;
    }

    method DomainAscii(id: string) returns (ascii: string)
      ensures ascii == First(Ids(domains), Asciis(Value()), id)
    {
      var i := 0;
      while i < |domains| && domains[i].id != id
        invariant i <= |domains| && forall j :: 0 <= j < i ==> domains[j].id != id
      {
        i := i + 1;
      }
      FirstAfterMisses(Ids(domains), Asciis(Value()), id, i);
      ascii := if i < |domains| then domains[i].body.ascii else "";
    }

    method RemapExportIds(newId: nat -> string)
      requires Supply(newId)
      modifies this
      ensures SameBut(old(Value()), Value()) && SameGraph(old(Value()), Value()) && FromSupply(Value(), newId)
    {
      hide Supply, IdsApart, Answered, Issued, AllRecorded, SameBut, SameGraph, FromSupply;
      ghost var t := Value();
      var renamer := new Renamer(newId);
      var id := renamer.Next(account.id, Site(AccountTable, 0, false));
      account := account.(id := id);
      assert Progress(t, Value(), renamer.renamed, 1);
      RemapSites(renamer, t);
      RemapMail(renamer, t);
      RemapRest(renamer, t);
      ProgressEnds(t, Value(), renamer.renamed);
      RecordedGraph(t, Value(), newId, renamer.used, renamer.ids, renamer.issued, renamer.renamed);
    }

    // Tables 1 to 4 in the order of remapExportIDs.
    method RemapSites(renamer: Renamer, ghost t: Tree)
      requires renamer.Valid() && Progress(t, Value(), renamer.renamed, 1) && TablesBelow(renamer.renamed, 1)
      modifies renamer, `domains, `websites, `applications, `databases
      ensures renamer.Valid() && Progress(t, Value(), renamer.renamed, 5) && TablesBelow(renamer.renamed, 5)
    {
      hide TablesBelow, OwnedDone, ChildrenDone, RecordsDone, Adds, RowsBelow, Progress;
      ghost var u, m := Value(), renamer.renamed;
      m := renamer.renamed;
      TableIsNext(m, 1, DomainTable);
      domains := renamer.RemapOwned(DomainTable, domains, account.id);
      Advance(t, u, Value(), m, renamer.renamed, DomainTable);
      u := Value();
      m := renamer.renamed;
      TableIsNext(m, 2, WebsiteTable);
      websites := renamer.RemapChildren(WebsiteTable, websites, account.id);
      Advance(t, u, Value(), m, renamer.renamed, WebsiteTable);
      u := Value();
      m := renamer.renamed;
      TableIsNext(m, 3, ApplicationTable);
      applications := renamer.RemapChildren(ApplicationTable, applications, account.id);
      Advance(t, u, Value(), m, renamer.renamed, ApplicationTable);
      u := Value();
      m := renamer.renamed;
      TableIsNext(m, 4, DatabaseTable);
      databases := renamer.RemapOwned(DatabaseTable, databases, account.id);
      Advance(t, u, Value(), m, renamer.renamed, DatabaseTable);
      u := Value();
    }

    // Tables 5 to 8 in the order of remapExportIDs.
    method RemapMail(renamer: Renamer, ghost t: Tree)
      requires renamer.Valid() && Progress(t, Value(), renamer.renamed, 5) && TablesBelow(renamer.renamed, 5)
      modifies renamer, `mailDomains, `mailboxes, `aliases, `zones
      ensures renamer.Valid() && Progress(t, Value(), renamer.renamed, 9) && TablesBelow(renamer.renamed, 9)
    {
      hide TablesBelow, OwnedDone, ChildrenDone, RecordsDone, Adds, RowsBelow, Progress;
      ghost var u, m := Value(), renamer.renamed;
      m := renamer.renamed;
      TableIsNext(m, 5, MailDomainTable);
      mailDomains := renamer.RemapChildren(MailDomainTable, mailDomains, account.id);
      Advance(t, u, Value(), m, renamer.renamed, MailDomainTable);
      u := Value();
      m := renamer.renamed;
      TableIsNext(m, 6, MailboxTable);
      mailboxes := renamer.RemapChildren(MailboxTable, mailboxes, account.id);
      Advance(t, u, Value(), m, renamer.renamed, MailboxTable);
      u := Value();
      m := renamer.renamed;
      TableIsNext(m, 7, AliasTable);
      aliases := renamer.RemapChildren(AliasTable, aliases, account.id);
      Advance(t, u, Value(), m, renamer.renamed, AliasTable);
      u := Value();
      m := renamer.renamed;
      TableIsNext(m, 8, ZoneTable);
      zones := renamer.RemapChildren(ZoneTable, zones, account.id);
      Advance(t, u, Value(), m, renamer.renamed, ZoneTable);
      u := Value();
    }

    // Tables 9 to 12 in the order of remapExportIDs.
    method RemapRest(renamer: Renamer, ghost t: Tree)
      requires renamer.Valid() && Progress(t, Value(), renamer.renamed, 9) && TablesBelow(renamer.renamed, 9)
      modifies renamer, `records, `crons, `ftps, `sshs
      ensures renamer.Valid() && Progress(t, Value(), renamer.renamed, 13) && TablesBelow(renamer.renamed, 13)
    {
      hide TablesBelow, OwnedDone, ChildrenDone, RecordsDone, Adds, RowsBelow, Progress;
      ghost var u, m := Value(), renamer.renamed;
      m := renamer.renamed;
      TableIsNext(m, 9, RecordTable);
      records := renamer.RemapRecords(records);
      Advance(t, u, Value(), m, renamer.renamed, RecordTable);
      u := Value();
      m := renamer.renamed;
      TableIsNext(m, 10, CronTable);
      crons := renamer.RemapOwned(CronTable, crons, account.id);
      Advance(t, u, Value(), m, renamer.renamed, CronTable);
      u := Value();
      m := renamer.renamed;
      TableIsNext(m, 11, FtpTable);
      ftps := renamer.RemapOwned(FtpTable, ftps, account.id);
      Advance(t, u, Value(), m, renamer.renamed, FtpTable);
      u := Value();
      m := renamer.renamed;
      TableIsNext(m, 12, SshTable);
      sshs := renamer.RemapOwned(SshTable, sshs, account.id);
      Advance(t, u, Value(), m, renamer.renamed, SshTable);
      u := Value();
    }

    // What Export files beside the rows, whose own hashes do not reach the JSON text: each key's last hash.
    method CollectHashes() returns (boxes: map<string, string>, logins: map<string, string>)
      ensures HoldsHashes(boxes, BoxKeys(Value()), BoxHashes(Value())) && HoldsHashes(logins, LoginKeys(Value()), LoginHashes(Value()))
    {
      hide MailboxKeyOf, HoldsHashes;
      boxes, logins := map[], map[];
      NoHashesHeld(BoxKeys(Value()), BoxHashes(Value()));
      NoHashesHeld(LoginKeys(Value()), LoginHashes(Value()));
      for i := 0 to |mailboxes|
        invariant HoldsHashes(boxes, BoxKeys(Value())[..i], BoxHashes(Value())[..i])
      {
        HashStep(boxes, BoxKeys(Value()), BoxHashes(Value()), i);
        if mailboxes[i].body.hash == "" {
          continue;
        }
        var key := MailboxKey(mailboxes[i]);
        boxes := boxes[key := mailboxes[i].body.hash];
      }
      for i := 0 to |ftps|
        invariant HoldsHashes(logins, LoginKeys(Value())[..i], LoginHashes(Value())[..i])
      {
        HashStep(logins, LoginKeys(Value()), LoginHashes(Value()), i);
        if ftps[i].body.hash == "" {
          continue;
        }
        logins := logins[ftps[i].body.username := ftps[i].body.hash];
      }
      WholeHashes(BoxKeys(Value()), BoxHashes(Value()));
      WholeHashes(LoginKeys(Value()), LoginHashes(Value()));
    }

    method ApplySecretHashes(boxes: map<string, string>, logins: map<string, string>)
      modifies this`mailboxes, this`ftps
      ensures Value() == WithHashes(old(Value()), boxes, logins)
    {
      hide MailboxKeyOf;
      ghost var t := Value();
      for i := 0 to |mailboxes|
        invariant Value() == t.(mailboxes := mailboxes) && |mailboxes| == |t.mailboxes|
        invariant forall j :: 0 <= j < |mailboxes| ==> mailboxes[j] == if j < i then BoxWithHash(t, t.mailboxes[j], boxes) else t.mailboxes[j]
      {
        if mailboxes[i].body.hash != "" {
          continue;
        }
        KeysOf(t, Value(), mailboxes[i]);
        var key := MailboxKey(mailboxes[i]);
        var h := Get(boxes, key);
        if h != "" {
          mailboxes := mailboxes[i := mailboxes[i].(body := mailboxes[i].body.(hash := h))];
        }
      }
      for i := 0 to |ftps|
        invariant Value() == t.(mailboxes := mailboxes, ftps := ftps) && |ftps| == |t.ftps|
        invariant mailboxes == WithHashes(t, boxes, logins).mailboxes
        invariant forall j :: 0 <= j < |ftps| ==> ftps[j] == if j < i then LoginWithHash(t.ftps[j], logins) else t.ftps[j]
      {
        if ftps[i].body.hash != "" {
          continue;
        }
        var h := Get(logins, ftps[i].body.username);
        if h != "" {
          ftps := ftps[i := ftps[i].(body := ftps[i].body.(hash := h))];
        }
      }
      assert ftps == WithHashes(t, boxes, logins).ftps;
    }

    // importAs, lines 160-177: the plan is made between the rewriting and the renaming of ids, and still fits the export afterwards.
    method Rename(username: string, domain: string, newId: nat -> string) returns (plan: Plan)
      requires Supply(newId)
      modifies this
      ensures username == "" && domain == "" ==> Value() == old(Value()) && plan == PlanOf(Value(), Identity(Value()))
      ensures username != "" || domain != "" ==>
        var t, n := old(Value()), Target(old(Value()), username, domain);
        var r := Rewritten(Renamed(t, n), n);
        plan == PlanOf(r, n) && SameBut(r, Value()) && SameGraph(r, Value()) && FromSupply(Value(), newId) &&
        (plan == PlanOf(Value(), n) <==> PlanIsLinked(r, n))
    {
      hide SameBut, SameGraph, FromSupply, Supply, PlanOf, Rewritten, PlanIsLinked;
      ghost var t := Value();
      var n := Target(Value(), username, domain);
      account := account.(username := n.destUser, primaryDomain := n.destDomain);
      var needRemap := username != "" || domain != "";
      if needRemap {
        RewriteExportTree(n);
      }
      ghost var r := Value();
      plan := PlanDataMove(n);
      if needRemap {
        RemapExportIds(newId);
        PlanUnchangedIff(r, Value(), n);
      }
    }
  }

  function Target(t: Tree, username: string, domain: string): Names {
    Names(t.account.username, OrElse(username, t.account.username), t.account.primaryDomain, OrElse(domain, t.account.primaryDomain))
  }

  function Identity(t: Tree): Names { Target(t, "", "") }

  function Renamed(t: Tree, n: Names): Tree { t.(account := t.account.(username := n.destUser, primaryDomain := n.destDomain)) }

  lemma NothingHeld(keys: seq<string>, values: seq<string>)
    requires |keys| == |values|
    ensures HoldsLast(map[], keys[..0], values[..0])
  {
  }

  lemma SameRootKeeps(name: string, root: string)
    ensures RewriteFqdn(name, root, root) == name
  {
  }

  lemma WholeHoldsLast(m: map<string, string>, keys: seq<string>, values: seq<string>)
    requires |keys| == |values| && HoldsLast(m, keys[..|keys|], values[..|values|])
    ensures HoldsLast(m, keys, values)
  {
    assert keys[..|keys|] == keys && values[..|values|] == values;
  }

  // The name and the domain given for the import are taken, or those of the export if none are.
  lemma TargetIs(t: Tree, username: string, domain: string)
    ensures Target(t, username, domain) ==
      Names(t.account.username, if username != "" then username else t.account.username,
            t.account.primaryDomain, if domain != "" then domain else t.account.primaryDomain)
    ensures Renamed(t, Target(t, username, domain)).account ==
      Account(t.account.id, if username != "" then username else t.account.username, if domain != "" then domain else t.account.primaryDomain)
  {
  }
}
