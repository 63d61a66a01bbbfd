// The host-wide mail maps (internal/mail/maps.go, lines 67-77, 163-207 and 221-363): one pass over the store
// against a scan per account, and independence of map iteration order.
module MailMaps {
  import opened SortedLines
  import opened GoText
  import opened SharedTypes

  datatype Account = Account(id: string, username: string, status: string, packageId: string, uid: int, gid: int)
  datatype Package = Package(id: string, dailyLimit: int)
  datatype Domain = Domain(id: string, ascii: string)
  datatype MailDomain = MailDomain(id: string, accountId: string, domainId: string, catchall: string)
  datatype Mailbox = Mailbox(localPart: string, accountId: string, domainId: string, hash: string, quota: int)
  datatype Alias = Alias(accountId: string, domainId: string, address: string, destination: string)

  datatype Store = Store(accounts: seq<Account>, packages: seq<Package>, domains: seq<Domain>,
                         mailDomains: seq<MailDomain>, mailboxes: seq<Mailbox>, aliases: seq<Alias>)

  datatype Snapshot = Snapshot(recipients: seq<Recipient>, domainNames: seq<string>, catchallVirtual: string,
                               aliasMap: string, senderLogin: string)

  const ALIAS_HEADER := "# panel virtual alias map — generated, do not edit\n"
  const SENDER_HEADER := "# panel sender-login map — generated, do not edit\n"

  // ---------- text ----------

  function Concat(lines: seq<string>): string {
    if lines == [] then "" else lines[0] + Concat(lines[1..])
  }

  function JoinWith(parts: seq<string>, sep: string): string {
    if parts == [] then "" else if |parts| == 1 then parts[0] else parts[0] + sep + JoinWith(parts[1..], sep)
  }

  // The destinations of an alias, a bare name being completed with the alias's domain.
  function Destinations(parts: seq<string>, ascii: string): seq<string>
    decreases |parts|
  {
    if parts == [] then []
    else
      var before := Destinations(parts[..|parts| - 1], ascii);
      var dest := TrimSpace(parts[|parts| - 1]);
      if dest == "" then before else before + [if '@' in dest then dest else dest + "@" + ascii]
  }

  function AliasDestinations(al: Alias, ascii: string): seq<string> {
    Destinations(Split(al.destination, ','), ascii)
  }

  function CatchallLocal(policy: string): string {
    var p := TrimSpace(ToLower(policy));
    if p == "" || p == "reject" then "" else p
  }

  function SenderLine(address: string, login: string): string {
    address + " " + login + "\n"
  }

  // ---------- tables ----------

  // The table as a map, a later row replacing an earlier one of the same id.
  function ById<T>(rows: seq<T>, id: T -> string): map<string, T>
    decreases |rows|
  {
    if rows == [] then map[] else ById(rows[..|rows| - 1], id)[id(rows[|rows| - 1]) := rows[|rows| - 1]]
  }

  // The first row with the id.
  function FirstById<T>(rows: seq<T>, id: T -> string, key: string): Option<T> {
    if rows == [] then None else if id(rows[0]) == key then Some(rows[0]) else FirstById(rows[1..], id, key)
  }

  predicate UniqueIds<T>(rows: seq<T>, id: T -> string) {
    (forall i :: 0 <= i < |rows| ==> id(rows[i]) != "") &&
    (forall i, j :: 0 <= i < j < |rows| ==> id(rows[i]) != id(rows[j]))
  }

  const AccountId := (a: Account) => a.id
  const PackageId := (p: Package) => p.id
  const DomainId := (d: Domain) => d.id
  const MailDomainId := (md: MailDomain) => md.id

  predicate WellFormed(st: Store) {
    UniqueIds(st.accounts, AccountId) && UniqueIds(st.packages, PackageId) &&
    UniqueIds(st.domains, DomainId) && UniqueIds(st.mailDomains, MailDomainId)
  }

  lemma {:induction false} ByIdMembers<T>(rows: seq<T>, id: T -> string)
    requires UniqueIds(rows, id)
    ensures forall k :: k in ById(rows, id) ==> id(ById(rows, id)[k]) == k && k != "" && ById(rows, id)[k] in rows
    ensures forall r :: r in rows ==> id(r) in ById(rows, id) && ById(rows, id)[id(r)] == r
    decreases |rows|
  {
    if rows != [] {
      var n := |rows| - 1;
      ByIdMembers(rows[..n], id);
      assert rows == rows[..n] + [rows[n]];
    }
  }

  lemma {:induction false} FirstByIdMembers<T>(rows: seq<T>, id: T -> string, key: string)
    requires UniqueIds(rows, id)
    ensures FirstById(rows, id, key).Some? ==> id(FirstById(rows, id, key).value) == key && FirstById(rows, id, key).value in rows
    ensures forall r :: r in rows && id(r) == key ==> FirstById(rows, id, key) == Some(r)
  {
    if rows != [] {
      assert rows == [rows[0]] + rows[1..];
      FirstByIdMembers(rows[1..], id, key);
    }
  }

  lemma LookupsAgree<T>(rows: seq<T>, id: T -> string, key: string)
    requires UniqueIds(rows, id)
    ensures FirstById(rows, id, key) == if key in ById(rows, id) then Some(ById(rows, id)[key]) else None
  {
    ByIdMembers(rows, id);
    FirstByIdMembers(rows, id, key);
  }

  method BuildById<T>(rows: seq<T>, id: T -> string) returns (m: map<string, T>)
    ensures m == ById(rows, id)
  {
    m := map[];
    for i := 0 to |rows|
      invariant m == ById(rows[..i], id)
    {
      assert rows[..i + 1][..i] == rows[..i];
      m := m[id(rows[i]) := rows[i]];
    }
    assert rows[..|rows|] == rows;
  }

  // ---------- what each builder puts in the sender map ----------

  predicate Active(acc: Account) {
    acc.status != "terminated" && acc.status != "terminating"
  }

  // ListMailAliases: an empty account id lists every alias.
  predicate Lists(accountId: string, al: Alias) {
    accountId == "" || al.accountId == accountId
  }

  // The domain of a mail domain, found by scanning.
  function ScannedDomain(st: Store, mailDomainId: string): Option<Domain> {
    match FirstById(st.mailDomains, MailDomainId, mailDomainId)
    case None => None
    case Some(md) => FirstById(st.domains, DomainId, md.domainId)
  }

  datatype Maps = Maps(accounts: map<string, Account>, packages: map<string, Package>, domains: map<string, Domain>,
                       mailDomains: map<string, MailDomain>)

  function MapsOf(st: Store): Maps {
    Maps(ById(st.accounts, AccountId), ById(st.packages, PackageId), ById(st.domains, DomainId), ById(st.mailDomains, MailDomainId))
  }

  const ZERO_DOMAIN := Domain("", "")
  const ZERO_MAIL_DOMAIN := MailDomain("", "", "", "")

  function MailDomainOf(m: Maps, id: string): MailDomain {
    if id in m.mailDomains then m.mailDomains[id] else ZERO_MAIL_DOMAIN
  }

  function DomainOf(m: Maps, id: string): Domain {
    if id in m.domains then m.domains[id] else ZERO_DOMAIN
  }

  predicate ActiveIn(m: Maps, accountId: string) {
    accountId in m.accounts && Active(m.accounts[accountId])
  }

  // The alias yields this sender line in a domain.
  predicate AliasGives(al: Alias, ascii: string, line: string) {
    ascii != "" && al.address != "" && al.destination != "" &&
    exists dest :: dest in AliasDestinations(al, ascii) && line == SenderLine(al.address + "@" + ascii, dest)
  }

  predicate RecipientGives(recs: seq<Recipient>, line: string) {
    exists i :: 0 <= i < |recs| && recs[i].address != "" && line == SenderLine(recs[i].address, recs[i].address)
  }

  predicate ScanAliasGives(st: Store, al: Alias, line: string) {
    var d := ScannedDomain(st, al.domainId);
    d.Some? && AliasGives(al, d.value.ascii, line)
  }

  predicate MapAliasGives(m: Maps, al: Alias, line: string) {
    ActiveIn(m, al.accountId) && MailDomainOf(m, al.domainId).id != "" &&
    AliasGives(al, DomainOf(m, MailDomainOf(m, al.domainId).domainId).ascii, line)
  }

  // Lines of the scan over accounts and their aliases.
  predicate ScanGives(st: Store, recs: seq<Recipient>, line: string) {
    RecipientGives(recs, line) ||
    exists i, j :: 0 <= i < |st.accounts| && 0 <= j < |st.aliases| &&
      Active(st.accounts[i]) && Lists(st.accounts[i].id, st.aliases[j]) && ScanAliasGives(st, st.aliases[j], line)
  }

  // Lines of the pass over all aliases.
  predicate PassGives(st: Store, recs: seq<Recipient>, line: string) {
    RecipientGives(recs, line) ||
    exists j :: 0 <= j < |st.aliases| && MapAliasGives(MapsOf(st), st.aliases[j], line)
  }

  // The text of a map whose lines are exactly those with a property, sorted, each once.
  ghost predicate IsListing(text: string, header: string, has: string -> bool) {
    exists lines :: Sorted(lines) && NoRepeats(lines) && (forall l :: l in lines <==> has(l)) && text == header + Concat(lines)
  }

  lemma ListingTextUnique(a: string, b: string, header: string, p: string -> bool, q: string -> bool)
    requires IsListing(a, header, p) && IsListing(b, header, q) && forall l :: p(l) <==> q(l)
    ensures a == b
  {
    var x :| Sorted(x) && NoRepeats(x) && (forall l :: l in x <==> p(l)) && a == header + Concat(x);
    var y :| Sorted(y) && NoRepeats(y) && (forall l :: l in y <==> q(l)) && b == header + Concat(y);
    ListingUnique(x, y);
  }

  lemma AliasLookupsAgree(st: Store, al: Alias, line: string)
    requires WellFormed(st)
    ensures ScanAliasGives(st, al, line) <==>
      MailDomainOf(MapsOf(st), al.domainId).id != "" &&
      AliasGives(al, DomainOf(MapsOf(st), MailDomainOf(MapsOf(st), al.domainId).domainId).ascii, line)
  {
    hide AliasGives, UniqueIds;
    var m := MapsOf(st);
    LookupsAgree(st.mailDomains, MailDomainId, al.domainId);
    ByIdMembers(st.mailDomains, MailDomainId);
    var md := MailDomainOf(m, al.domainId);
    LookupsAgree(st.domains, DomainId, md.domainId);
    if AliasGives(al, "", line) {
      AliasNeedsDomain(al, line);
    }
  }

  lemma AliasNeedsDomain(al: Alias, line: string)
    ensures !AliasGives(al, "", line)
  {
  }

  // The scan and the pass give the same lines.
  lemma SenderLinesAgree(st: Store, recs: seq<Recipient>, line: string)
    requires WellFormed(st)
    ensures ScanGives(st, recs, line) <==> PassGives(st, recs, line)
  {
    hide RecipientGives, ScanAliasGives, AliasGives, MailDomainOf, DomainOf;
    var m := MapsOf(st);
    ByIdMembers(st.accounts, AccountId);
    forall j | 0 <= j < |st.aliases|
      ensures (exists i :: 0 <= i < |st.accounts| && Active(st.accounts[i]) && Lists(st.accounts[i].id, st.aliases[j]) &&
                ScanAliasGives(st, st.aliases[j], line)) <==> MapAliasGives(m, st.aliases[j], line)
    {
      var al := st.aliases[j];
      AliasLookupsAgree(st, al, line);
      if i :| 0 <= i < |st.accounts| && Active(st.accounts[i]) && Lists(st.accounts[i].id, al) && ScanAliasGives(st, al, line) {
        assert st.accounts[i] in st.accounts;
      }
      if MapAliasGives(m, al, line) {
        var acc := m.accounts[al.accountId];
        assert acc in st.accounts;
        var i :| 0 <= i < |st.accounts| && st.accounts[i] == acc;
      }
    }
  }

  // ---------- the sender map, built line by line ----------

  // The add closure: a list of lines and the set of keys already in it.
  class LineList {
    var lines: seq<string>
    var seen: set<string>

    constructor ()
      ensures Valid() && lines == []
    {
      lines, seen := [], {};
    }

    ghost predicate Valid()
      reads this
    {
      NoRepeats(lines) && forall key :: key in seen <==> key + "\n" in lines
    }

    method Add(address: string, login: string)
      requires Valid()
      modifies this
      ensures Valid()
      ensures forall l :: l in lines <==> l in old(lines) || (address != "" && login != "" && l == SenderLine(address, login))
    {
      if address == "" || login == "" {
        return;
      }
      var key := address + " " + login;
      if key in seen {
        return;
      }
      seen := seen + {key};
      NewLine(old(lines), seen, key);
      lines := lines + [address + " " + login + "\n"];
    }
  }

  lemma NewLine(lines: seq<string>, seen: set<string>, key: string)
    requires NoRepeats(lines) && key + "\n" !in lines && key in seen
    requires forall k :: k in seen <==> k == key || k + "\n" in lines
    ensures NoRepeats(lines + [key + "\n"])
    ensures forall k :: k in seen <==> k + "\n" in lines + [key + "\n"]
  {
    forall k
      ensures k + "\n" == key + "\n" <==> k == key
    {
      assert (k + "\n")[..|k|] == k && (key + "\n")[..|key|] == key;
    }
  }

  // Adds the lines of one alias.
  method AddAlias(list: LineList, al: Alias, ascii: string) returns (dests: seq<string>)
    requires list.Valid() && ascii != "" && al.address != "" && al.destination != ""
    modifies list
    ensures list.Valid()
    ensures forall l :: l in list.lines <==> l in old(list.lines) || AliasGives(al, ascii, l)
    ensures dests == AliasDestinations(al, ascii)
  {
    dests := [];
    var parts := Split(al.destination, ',');
    for i := 0 to |parts|
      invariant list.Valid() && dests == Destinations(parts[..i], ascii)
      invariant forall d :: d in dests ==> d != ""
      invariant forall l :: l in list.lines <==>
        l in old(list.lines) || exists d :: d in dests && l == SenderLine(al.address + "@" + ascii, d)
    {
      assert parts[..i + 1][..i] == parts[..i];
      var dest := TrimSpace(parts[i]);
      if dest == "" {
        continue;
      }
      if '@' !in dest {
        dest := dest + "@" + ascii;
      }
      dests := dests + [dest];
      list.Add(al.address + "@" + ascii, dest);
    }
    assert parts[..|parts|] == parts;
  }

  lemma RecipientNext(recs: seq<Recipient>, n: nat)
    requires n < |recs|
    ensures forall l :: RecipientGives(recs[..n + 1], l) <==>
      RecipientGives(recs[..n], l) || (recs[n].address != "" && l == SenderLine(recs[n].address, recs[n].address))
  {
    var a, b := recs[..n], recs[..n + 1];
    forall l
      ensures RecipientGives(b, l) <==>
        RecipientGives(a, l) || (recs[n].address != "" && l == SenderLine(recs[n].address, recs[n].address))
    {
      if i :| 0 <= i < |a| && a[i].address != "" && l == SenderLine(a[i].address, a[i].address) {
        assert b[i] == a[i];
      }
      if i :| 0 <= i < |b| && b[i].address != "" && l == SenderLine(b[i].address, b[i].address) {
        assert i == n || b[i] == a[i];
      }
      assert b[n] == recs[n];
    }
  }

  method SenderLogin(st: Store, recs: seq<Recipient>) returns (text: string)
    ensures IsListing(text, SENDER_HEADER, l => ScanGives(st, recs, l))
  {
    hide AliasGives, FirstById;
    var list := new LineList();
    for i := 0 to |recs|
      invariant list.Valid() && fresh(list)
      invariant forall l :: l in list.lines <==> RecipientGives(recs[..i], l)
    {
      list.Add(recs[i].address, recs[i].address);
      RecipientNext(recs, i);
    }
    assert recs[..|recs|] == recs;
    for i := 0 to |st.accounts|
      invariant list.Valid() && fresh(list)
      invariant forall l :: l in list.lines <==> RecipientGives(recs, l) || ScannedUpTo(st, i, l)
    {
      var acc := st.accounts[i];
      ghost var before := list.lines;
      if Active(acc) {
        for j := 0 to |st.aliases|
          invariant list.Valid() && fresh(list)
          invariant forall l :: l in list.lines <==> l in before || AccountScannedUpTo(st, i, j, l)
        {
          var al := st.aliases[j];
          if Lists(acc.id, al) {
            var d := ScannedDomain(st, al.domainId);
            if d.Some? && d.value.ascii != "" && al.address != "" && al.destination != "" {
              var _ := AddAlias(list, al, d.value.ascii);
            } else {
              NothingGiven(st, al);
            }
          }
          AccountScanNext(st, i, j);
        }
      }
      ScanNext(st, i);
    }
    assert forall l :: l in list.lines <==> ScanGives(st, recs, l) by { ScannedAll(st, recs); }
    var sorted := SortStrings(list.lines);
    SortingKeeps(list.lines, sorted);
    text := SENDER_HEADER + Concat(sorted);
  }

  lemma NothingGiven(st: Store, al: Alias)
    requires var d := ScannedDomain(st, al.domainId);
      d.None? || d.value.ascii == "" || al.address == "" || al.destination == ""
    ensures forall l :: !ScanAliasGives(st, al, l)
  {
  }

  // Lines of the first j aliases under account i.
  predicate AccountScannedUpTo(st: Store, i: nat, j: nat, line: string)
    requires i < |st.accounts| && j <= |st.aliases|
  {
    exists k :: 0 <= k < j && Lists(st.accounts[i].id, st.aliases[k]) && ScanAliasGives(st, st.aliases[k], line)
  }

  // Lines of the first i accounts.
  predicate ScannedUpTo(st: Store, i: nat, line: string)
    requires i <= |st.accounts|
  {
    exists k :: 0 <= k < i && Active(st.accounts[k]) && AccountScannedUpTo(st, k, |st.aliases|, line)
  }

  lemma AccountScanNext(st: Store, i: nat, j: nat)
    requires i < |st.accounts| && j < |st.aliases|
    ensures forall l :: AccountScannedUpTo(st, i, j + 1, l) <==>
      AccountScannedUpTo(st, i, j, l) || (Lists(st.accounts[i].id, st.aliases[j]) && ScanAliasGives(st, st.aliases[j], l))
  {
    hide ScanAliasGives;
  }

  lemma ScanNext(st: Store, i: nat)
    requires i < |st.accounts|
    ensures forall l :: ScannedUpTo(st, i + 1, l) <==>
      ScannedUpTo(st, i, l) || (Active(st.accounts[i]) && AccountScannedUpTo(st, i, |st.aliases|, l))
  {
    hide AccountScannedUpTo;
  }

  lemma ScannedAll(st: Store, recs: seq<Recipient>)
    ensures forall l :: RecipientGives(recs, l) || ScannedUpTo(st, |st.accounts|, l) <==> ScanGives(st, recs, l)
  {
    hide ScanAliasGives, RecipientGives;
    forall l
      ensures ScannedUpTo(st, |st.accounts|, l) <==>
        exists i, j :: 0 <= i < |st.accounts| && 0 <= j < |st.aliases| &&
          Active(st.accounts[i]) && Lists(st.accounts[i].id, st.aliases[j]) && ScanAliasGives(st, st.aliases[j], l)
    {
      if exists i, j :: 0 <= i < |st.accounts| && 0 <= j < |st.aliases| &&
          Active(st.accounts[i]) && Lists(st.accounts[i].id, st.aliases[j]) && ScanAliasGives(st, st.aliases[j], l)
      {
        var i, j :| 0 <= i < |st.accounts| && 0 <= j < |st.aliases| &&
          Active(st.accounts[i]) && Lists(st.accounts[i].id, st.aliases[j]) && ScanAliasGives(st, st.aliases[j], l);
        assert AccountScannedUpTo(st, i, |st.aliases|, l);
      }
    }
  }

  // ---------- the snapshot ----------

  // The recipient a mailbox becomes, if any.
  function RecipientOf(m: Maps, mb: Mailbox): Option<Recipient> {
    if !ActiveIn(m, mb.accountId) then None
    else
      var acc := m.accounts[mb.accountId];
      var md := MailDomainOf(m, mb.domainId);
      var d := DomainOf(m, md.domainId);
      if md.id == "" || d.id == "" || d.ascii == "" then None
      else
        Some(Recipient(mb.localPart + "@" + d.ascii, d.ascii, mb.localPart, "/var/vmail/" + d.ascii + "/" + mb.localPart,
                       acc.uid, acc.gid, mb.quota, if mb.hash == "" then "!" else mb.hash, acc.username,
                       if acc.packageId in m.packages then m.packages[acc.packageId].dailyLimit else 0))
  }

  predicate HasAddress(recs: seq<Recipient>, address: string) {
    exists i :: 0 <= i < |recs| && recs[i].address == address
  }

  // The recipients of the mailboxes, the first of each address.
  function RecipientsOf(m: Maps, boxes: seq<Mailbox>): seq<Recipient>
    decreases |boxes|
  {
    if boxes == [] then []
    else
      var before := RecipientsOf(m, boxes[..|boxes| - 1]);
      match RecipientOf(m, boxes[|boxes| - 1])
      case None => before
      case Some(rec) => if HasAddress(before, rec.address) then before else before + [rec]
  }

  predicate OneEachAddress(recs: seq<Recipient>) {
    forall i, j :: 0 <= i < j < |recs| ==> recs[i].address != recs[j].address
  }

  predicate SortedByAddress(recs: seq<Recipient>) {
    forall i, j :: 0 <= i < j < |recs| ==> LessEq(recs[i].address, recs[j].address)
  }

  lemma {:induction false} RecipientsDistinct(m: Maps, boxes: seq<Mailbox>)
    ensures OneEachAddress(RecipientsOf(m, boxes))
    decreases |boxes|
  {
    hide RecipientOf;
    if boxes != [] {
      RecipientsDistinct(m, boxes[..|boxes| - 1]);
    }
  }

  method BuildRecipients(m: Maps, boxes: seq<Mailbox>) returns (recs: seq<Recipient>)
    ensures recs == RecipientsOf(m, boxes)
  {
    hide RecipientOf;
    recs := [];
    var seen: set<string> := {};
    for i := 0 to |boxes|
      invariant recs == RecipientsOf(m, boxes[..i])
      invariant forall a :: a in seen <==> HasAddress(recs, a)
    {
      assert boxes[..i + 1][..i] == boxes[..i];
      var rec := RecipientOf(m, boxes[i]);
      if rec.None? || rec.value.address in seen {
        continue;
      }
      seen := seen + {rec.value.address};
      AddressNext(recs, rec.value);
      recs := recs + [rec.value];
    }
    assert boxes[..|boxes|] == boxes;
  }

  lemma AddressNext(recs: seq<Recipient>, rec: Recipient)
    ensures forall a :: HasAddress(recs + [rec], a) <==> HasAddress(recs, a) || a == rec.address
  {
    forall a
      ensures HasAddress(recs + [rec], a) <==> HasAddress(recs, a) || a == rec.address
    {
      if i :| 0 <= i < |recs| && recs[i].address == a {
        assert (recs + [rec])[i].address == a;
      }
      assert (recs + [rec])[|recs|] == rec;
    }
  }

  // sort.Slice by address.
  method SortRecipients(recs: seq<Recipient>) returns (r: seq<Recipient>)
    ensures SortedByAddress(r) && multiset(r) == multiset(recs)
  {
    r := [];
    for i := 0 to |recs|
      invariant SortedByAddress(r) && multiset(r) == multiset(recs[..i])
    {
      assert recs[..i + 1] == recs[..i] + [recs[i]];
      r := InsertRecipient(r, recs[i]);
    }
    assert recs[..|recs|] == recs;
  }

  method InsertRecipient(s: seq<Recipient>, x: Recipient) returns (r: seq<Recipient>)
    requires SortedByAddress(s)
    ensures SortedByAddress(r) && multiset(r) == multiset(s) + multiset{x}
  {
    hide LessEq;
    var i := 0;
    while i < |s| && LessEq(s[i].address, x.address)
      invariant 0 <= i <= |s| && forall j :: 0 <= j < i ==> LessEq(s[j].address, x.address)
    {
      i := i + 1;
    }
    forall j | i <= j < |s|
      ensures LessEq(x.address, s[j].address)
    {
      LessEqTotal(x.address, s[i].address);
      if j > i {
        LessEqTransitive(x.address, s[i].address, s[j].address);
      }
    }
    r := s[..i] + [x] + s[i..];
    assert s == s[..i] + s[i..];
  }

  // The catch-all line of a mail domain, if any, and the domain name it contributes.
  function NameOf(m: Maps, md: MailDomain): string {
    if ActiveIn(m, md.accountId) then DomainOf(m, md.domainId).ascii else ""
  }

  function CatchallOf(m: Maps, md: MailDomain): Option<string> {
    var ascii, local := NameOf(m, md), CatchallLocal(md.catchall);
    if ascii == "" || local == "" then None else Some("@" + ascii + " " + ascii + "/" + local + "/Maildir/\n")
  }

  ghost function CatchallCount(m: Maps, ids: set<string>, line: string): nat
    requires ids <= m.mailDomains.Keys
  {
    |set k | k in ids && CatchallOf(m, m.mailDomains[k]) == Some(line)|
  }

  ghost predicate NameIn(m: Maps, ids: set<string>, name: string)
    requires ids <= m.mailDomains.Keys
  {
    name != "" && exists k :: k in ids && NameOf(m, m.mailDomains[k]) == name
  }

  // Ranges over the mail domains in whatever order the map gives them.
  method BuildDomains(m: Maps) returns (names: seq<string>, catchalls: seq<string>)
    ensures NoRepeats(names) && forall n :: n in names <==> NameIn(m, m.mailDomains.Keys, n)
    ensures forall l :: multiset(catchalls)[l] == CatchallCount(m, m.mailDomains.Keys, l)
  {
    hide NameOf, CatchallOf, NameIn, CatchallCount;
    NothingYet(m);
    names, catchalls := [], [];
    var seen: set<string> := {};
    var todo := m.mailDomains.Keys;
    ghost var done: set<string> := {};
    while todo != {}
      invariant done !! todo && done + todo == m.mailDomains.Keys
      invariant NoRepeats(names) && (forall n :: n in seen <==> n in names)
      invariant forall n :: n in names <==> NameIn(m, done, n)
      invariant forall l :: multiset(catchalls)[l] == CatchallCount(m, done, l)
      decreases todo
    {
      var k :| k in todo;
      var md := m.mailDomains[k];
      CatchallNext(m, done, k);
      NameNext(m, done, k);
      todo := todo - {k};
      done := done + {k};
      var ascii := NameOf(m, md);
      if ascii != "" && ascii !in seen {
        seen := seen + {ascii};
        names := names + [ascii];
      }
      var line := CatchallOf(m, md);
      if line.Some? {
        catchalls := catchalls + [line.value];
      }
    }
  }

  lemma NothingYet(m: Maps)
    ensures forall l :: CatchallCount(m, {}, l) == 0 && !NameIn(m, {}, l)
  {
  }

  lemma CatchallNext(m: Maps, ids: set<string>, k: string)
    requires ids <= m.mailDomains.Keys && k in m.mailDomains && k !in ids
    ensures forall l ::
      CatchallCount(m, ids + {k}, l) == CatchallCount(m, ids, l) + (if CatchallOf(m, m.mailDomains[k]) == Some(l) then 1 else 0)
  {
    hide CatchallOf;
    forall l
      ensures CatchallCount(m, ids + {k}, l) == CatchallCount(m, ids, l) + (if CatchallOf(m, m.mailDomains[k]) == Some(l) then 1 else 0)
    {
      var a := set x | x in ids && CatchallOf(m, m.mailDomains[x]) == Some(l);
      var b := set x | x in ids + {k} && CatchallOf(m, m.mailDomains[x]) == Some(l);
      assert b == if CatchallOf(m, m.mailDomains[k]) == Some(l) then a + {k} else a;
    }
  }

  lemma NameNext(m: Maps, ids: set<string>, k: string)
    requires ids <= m.mailDomains.Keys && k in m.mailDomains
    ensures forall n :: NameIn(m, ids + {k}, n) <==> NameIn(m, ids, n) || (n != "" && n == NameOf(m, m.mailDomains[k]))
  {
    hide NameOf;
  }

  // The line of an alias in the alias map, if any.
  function AliasLineOf(m: Maps, al: Alias): Option<string> {
    var md := MailDomainOf(m, al.domainId);
    var ascii := DomainOf(m, md.domainId).ascii;
    if !ActiveIn(m, al.accountId) || md.id == "" || ascii == "" || al.address == "" || al.destination == "" then None
    else
      var dests := AliasDestinations(al, ascii);
      if dests == [] then None else Some(al.address + "@" + ascii + " " + JoinWith(dests, ",") + "\n")
  }

  function AliasLines(m: Maps, aliases: seq<Alias>): seq<string>
    decreases |aliases|
  {
    if aliases == [] then []
    else
      var before := AliasLines(m, aliases[..|aliases| - 1]);
      match AliasLineOf(m, aliases[|aliases| - 1])
      case None => before
      case Some(line) => before + [line]
  }

  predicate PassedUpTo(m: Maps, aliases: seq<Alias>, n: nat, line: string)
    requires n <= |aliases|
  {
    exists j :: 0 <= j < n && MapAliasGives(m, aliases[j], line)
  }

  lemma PassNext(m: Maps, aliases: seq<Alias>, n: nat)
    requires n < |aliases|
    ensures forall l :: PassedUpTo(m, aliases, n + 1, l) <==> PassedUpTo(m, aliases, n, l) || MapAliasGives(m, aliases[n], l)
  {
    hide MapAliasGives;
  }

  lemma PassGivesNothing(m: Maps, al: Alias)
    requires var md := MailDomainOf(m, al.domainId);
      !ActiveIn(m, al.accountId) || md.id == "" || DomainOf(m, md.domainId).ascii == "" || al.address == "" || al.destination == ""
    ensures forall l :: !MapAliasGives(m, al, l)
  {
  }

  method BuildAliases(m: Maps, aliases: seq<Alias>, list: LineList) returns (lines: seq<string>)
    requires list.Valid()
    modifies list
    ensures list.Valid() && lines == AliasLines(m, aliases)
    ensures forall l :: l in list.lines <==> l in old(list.lines) || PassedUpTo(m, aliases, |aliases|, l)
  {
    hide AliasGives, AliasDestinations, MailDomainOf, DomainOf;
    lines := [];
    for i := 0 to |aliases|
      invariant list.Valid() && lines == AliasLines(m, aliases[..i])
      invariant forall l :: l in list.lines <==> l in old(list.lines) || PassedUpTo(m, aliases, i, l)
    {
      assert aliases[..i + 1][..i] == aliases[..i];
      PassNext(m, aliases, i);
      var al := aliases[i];
      var md := MailDomainOf(m, al.domainId);
      var d := DomainOf(m, md.domainId);
      if !ActiveIn(m, al.accountId) || md.id == "" || d.ascii == "" || al.address == "" || al.destination == "" {
        PassGivesNothing(m, al);
        continue;
      }
      var dests := AddAlias(list, al, d.ascii);
      if dests == [] {
        continue;
      }
      lines := lines + [al.address + "@" + d.ascii + " " + JoinWith(dests, ",") + "\n"];
    }
    assert aliases[..|aliases|] == aliases;
  }

  // What a snapshot of a store is; the order in which a map was ranged over does not appear in it.
  ghost predicate IsSnapshot(st: Store, snap: Snapshot) {
    var m := MapsOf(st);
    SortedByAddress(snap.recipients) && multiset(snap.recipients) == multiset(RecipientsOf(m, st.mailboxes)) &&
    Sorted(snap.domainNames) && NoRepeats(snap.domainNames) &&
    (forall n :: n in snap.domainNames <==> NameIn(m, m.mailDomains.Keys, n)) &&
    (exists lines :: Sorted(lines) && snap.catchallVirtual == Concat(lines) &&
      forall l :: multiset(lines)[l] == CatchallCount(m, m.mailDomains.Keys, l)) &&
    (exists lines :: Sorted(lines) && snap.aliasMap == ALIAS_HEADER + Concat(lines) &&
      multiset(lines) == multiset(AliasLines(m, st.aliases))) &&
    IsListing(snap.senderLogin, SENDER_HEADER, l => PassGives(st, snap.recipients, l))
  }

  method SnapshotHost(st: Store) returns (snap: Snapshot)
    ensures IsSnapshot(st, snap)
  {
    hide MapAliasGives, NameIn, CatchallCount, Sorted, AliasLines, RecipientsOf, ById;
    var accounts := BuildById(st.accounts, AccountId);
    var packages := BuildById(st.packages, PackageId);
    var domains := BuildById(st.domains, DomainId);
    var mailDomains := BuildById(st.mailDomains, MailDomainId);
    var m := Maps(accounts, packages, domains, mailDomains);
    var recs := BuildRecipients(m, st.mailboxes);
    recs := SortRecipients(recs);
    var names, catchalls := BuildDomains(m);
    var sortedNames := SortStrings(names);
    SortingKeeps(names, sortedNames);
    var sortedCatchalls := SortStrings(catchalls);
    var list := new LineList();
    for i := 0 to |recs|
      invariant list.Valid() && fresh(list)
      invariant forall l :: l in list.lines <==> RecipientGives(recs[..i], l)
    {
      list.Add(recs[i].address, recs[i].address);
      RecipientNext(recs, i);
    }
    assert recs[..|recs|] == recs;
    var aliasLines := BuildAliases(m, st.aliases, list);
    aliasLines := SortStrings(aliasLines);
    var senderLines := SortStrings(list.lines);
    SortingKeeps(list.lines, senderLines);
    snap := Snapshot(recs, sortedNames, Concat(sortedCatchalls), ALIAS_HEADER + Concat(aliasLines),
                     SENDER_HEADER + Concat(senderLines));
    assert forall l :: l in senderLines <==> PassGives(st, recs, l);
  }

  // ---------- main results ----------

  lemma FirstRecipients(a: seq<Recipient>, b: seq<Recipient>)
    requires SortedByAddress(a) && SortedByAddress(b) && multiset(a) == multiset(b) && OneEachAddress(a) && a != []
    ensures b != [] && a[0] == b[0]
  {
    hide LessEq;
    assert a[0] in multiset(b) && |b| > 0 && b[0] in multiset(a);
    var i :| 0 <= i < |b| && b[i] == a[0];
    var j :| 0 <= j < |a| && a[j] == b[0];
    LessEqTotal(a[0].address, a[0].address);
    LessEqTotal(b[0].address, b[0].address);
    LessEqAntisymmetric(a[0].address, b[0].address);
  }

  lemma TailKeepsOrder(a: seq<Recipient>)
    requires a != []
    ensures SortedByAddress(a) ==> SortedByAddress(a[1..])
    ensures OneEachAddress(a) ==> OneEachAddress(a[1..])
  {
    hide LessEq;
  }

  lemma {:induction false} RecipientsUnique(a: seq<Recipient>, b: seq<Recipient>)
    requires SortedByAddress(a) && SortedByAddress(b) && multiset(a) == multiset(b) && OneEachAddress(a)
    ensures a == b
    decreases |a|
  {
    hide LessEq, SortedByAddress, OneEachAddress;
    if a == [] {
      assert |multiset(a)| == 0 && |multiset(b)| == |b|;
    } else {
      FirstRecipients(a, b);
      assert a == [a[0]] + a[1..] && b == [b[0]] + b[1..];
      var x, y := a[1..], b[1..];
      TailCounts(a);
      TailCounts(b);
      TailKeepsOrder(a);
      TailKeepsOrder(b);
      RecipientsUnique(x, y);
    }
  }

  lemma OneEachIsKept(a: seq<Recipient>, b: seq<Recipient>)
    requires multiset(a) == multiset(b) && OneEachAddress(a)
    ensures OneEachAddress(b)
  {
    OneEachCounts(a);
    forall i, j | 0 <= i < j < |b|
      ensures b[i].address != b[j].address
    {
      if b[i] == b[j] {
        RepeatCountsTwice(b, i, j);
      } else {
        assert b[i] in multiset(a) && b[j] in multiset(a);
      }
    }
  }

  lemma OneEachCounts(a: seq<Recipient>)
    requires OneEachAddress(a)
    ensures forall r :: multiset(a)[r] <= 1
    ensures forall q, r :: q in multiset(a) && r in multiset(a) && q.address == r.address ==> q == r
  {
    forall r
      ensures multiset(a)[r] <= 1
    {
      CountWithoutRepeats(a, r);
    }
  }

  // A store has one snapshot: no field depends on the order in which the mail-domain map is ranged over.
  lemma SnapshotUnique(st: Store, a: Snapshot, b: Snapshot)
    requires IsSnapshot(st, a) && IsSnapshot(st, b)
    ensures a == b
  {
    hide NameIn, CatchallCount, Sorted, NoRepeats, AliasLines, RecipientsOf, ById, PassGives, Concat, SortedByAddress;
    var m := MapsOf(st);
    RecipientsDistinct(m, st.mailboxes);
    OneEachIsKept(RecipientsOf(m, st.mailboxes), a.recipients);
    RecipientsUnique(a.recipients, b.recipients);
    ListingUnique(a.domainNames, b.domainNames);
    CatchallsUnique(st, a, b);
    AliasMapUnique(st, a, b);
    ListingTextUnique(a.senderLogin, b.senderLogin, SENDER_HEADER,
                      l => PassGives(st, a.recipients, l), l => PassGives(st, b.recipients, l));
  }

  lemma CatchallsUnique(st: Store, a: Snapshot, b: Snapshot)
    requires IsSnapshot(st, a) && IsSnapshot(st, b)
    ensures a.catchallVirtual == b.catchallVirtual
  {
    hide NameIn, CatchallCount, Sorted, NoRepeats, ById, Concat, SortedByAddress, IsListing;
    var m := MapsOf(st);
    var x :| Sorted(x) && a.catchallVirtual == Concat(x) &&
      forall l :: multiset(x)[l] == CatchallCount(m, m.mailDomains.Keys, l);
    var y :| Sorted(y) && b.catchallVirtual == Concat(y) &&
      forall l :: multiset(y)[l] == CatchallCount(m, m.mailDomains.Keys, l);
    assert forall l :: multiset(x)[l] == multiset(y)[l];
    SortedUnique(x, y);
  }

  lemma AliasMapUnique(st: Store, a: Snapshot, b: Snapshot)
    requires IsSnapshot(st, a) && IsSnapshot(st, b)
    ensures a.aliasMap == b.aliasMap
  {
    hide NameIn, CatchallCount, Sorted, NoRepeats, AliasLines, ById, Concat, SortedByAddress, IsListing;
    var m := MapsOf(st);
    var x :| Sorted(x) && a.aliasMap == ALIAS_HEADER + Concat(x) && multiset(x) == multiset(AliasLines(m, st.aliases));
    var y :| Sorted(y) && b.aliasMap == ALIAS_HEADER + Concat(y) && multiset(y) == multiset(AliasLines(m, st.aliases));
    SortedUnique(x, y);
  }

  // The same rows, in any order.
  ghost predicate SameRows(st: Store, other: Store) {
    (forall a :: a in st.accounts <==> a in other.accounts) && (forall d :: d in st.domains <==> d in other.domains) &&
    (forall md :: md in st.mailDomains <==> md in other.mailDomains) && (forall al :: al in st.aliases <==> al in other.aliases)
  }

  lemma ScanGivesSameRows(st: Store, other: Store, recs: seq<Recipient>, line: string)
    requires WellFormed(st) && WellFormed(other) && SameRows(st, other)
    ensures ScanGives(other, recs, line) ==> ScanGives(st, recs, line)
  {
    hide RecipientGives, AliasGives;
    if ScanGives(other, recs, line) && !RecipientGives(recs, line) {
      var i, j :| 0 <= i < |other.accounts| && 0 <= j < |other.aliases| &&
        Active(other.accounts[i]) && Lists(other.accounts[i].id, other.aliases[j]) && ScanAliasGives(other, other.aliases[j], line);
      assert other.accounts[i] in st.accounts && other.aliases[j] in st.aliases;
      var k :| 0 <= k < |st.accounts| && st.accounts[k] == other.accounts[i];
      var l :| 0 <= l < |st.aliases| && st.aliases[l] == other.aliases[j];
      ScannedDomainSameRows(st, other, other.aliases[j].domainId);
    }
  }

  lemma ScannedDomainSameRows(st: Store, other: Store, id: string)
    requires WellFormed(st) && WellFormed(other) && SameRows(st, other) && ScannedDomain(other, id).Some?
    ensures ScannedDomain(st, id) == ScannedDomain(other, id)
  {
    FirstByIdMembers(other.mailDomains, MailDomainId, id);
    FirstByIdMembers(st.mailDomains, MailDomainId, id);
    var md := FirstById(other.mailDomains, MailDomainId, id).value;
    FirstByIdMembers(other.domains, DomainId, md.domainId);
    FirstByIdMembers(st.domains, DomainId, md.domainId);
  }

  // The sender map of the snapshot is the one that scanning account by account produces for the snapshot's
  // recipients, even if the store lists its rows in another order the second time.
  lemma SenderLoginAgrees(st: Store, other: Store, snap: Snapshot, text: string)
    requires WellFormed(st) && WellFormed(other) && SameRows(st, other) && IsSnapshot(st, snap)
    requires IsListing(text, SENDER_HEADER, l => ScanGives(other, snap.recipients, l))
    ensures text == snap.senderLogin
  {
    hide WellFormed, SameRows, ScanGives, PassGives;
    forall l
      ensures ScanGives(other, snap.recipients, l) <==> PassGives(st, snap.recipients, l)
    {
      SameRowsSymmetric(st, other);
      ScanGivesSameRows(st, other, snap.recipients, l);
      ScanGivesSameRows(other, st, snap.recipients, l);
      SenderLinesAgree(st, snap.recipients, l);
    }
    ListingTextUnique(text, snap.senderLogin, SENDER_HEADER,
                      l => ScanGives(other, snap.recipients, l), l => PassGives(st, snap.recipients, l));
  }

  lemma SameRowsSymmetric(st: Store, other: Store)
    requires SameRows(st, other)
    ensures SameRows(other, st)
  {
  }
}
