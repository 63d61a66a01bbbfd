// What the snapshot of internal/mail/maps.go (lines 239-363) holds, said in the fields of the store's rows alone.
module MailRows {
  import opened GoText
  import opened SortedLines
  import opened SharedTypes
  import opened MailMaps

  // The account exists and is neither terminated nor being terminated.
  ghost predicate Serving(st: Store, accountId: string, acc: Account) {
    acc in st.accounts && acc.id == accountId && acc.status != "terminated" && acc.status != "terminating"
  }

  // The mail domain exists, and so does its domain, with this name.
  ghost predicate Named(st: Store, mailDomainId: string, ascii: string) {
    ascii != "" && exists md, d :: md in st.mailDomains && d in st.domains && md.id == mailDomainId && d.id == md.domainId && d.ascii == ascii
  }

  // The mailbox is served under the address.
  ghost predicate HasMail(st: Store, mb: Mailbox, address: string) {
    exists acc, ascii :: Serving(st, mb.accountId, acc) && Named(st, mb.domainId, ascii) && address == mb.localPart + "@" + ascii
  }

  ghost predicate DailyLimit(st: Store, packageId: string, limit: int) {
    (exists p :: p in st.packages && p.id == packageId && p.dailyLimit == limit) ||
    (limit == 0 && forall p :: p in st.packages ==> p.id != packageId)
  }

  // The recipient that the mailbox is printed as.
  ghost predicate IsRecipient(st: Store, mb: Mailbox, r: Recipient) {
    exists acc :: Serving(st, mb.accountId, acc) && Named(st, mb.domainId, r.domain) &&
      r.localPart == mb.localPart && r.address == mb.localPart + "@" + r.domain && r.home == "/var/vmail/" + r.domain + "/" + mb.localPart &&
      r.uid == acc.uid && r.gid == acc.gid && r.account == acc.username && r.quota == mb.quota &&
      r.hash == (if mb.hash == "" then "!" else mb.hash) && DailyLimit(st, acc.packageId, r.dailyLimit)
  }

  lemma ServingIff(st: Store, accountId: string)
    requires WellFormed(st)
    ensures ActiveIn(MapsOf(st), accountId) <==> exists acc :: Serving(st, accountId, acc)
    ensures forall acc :: Serving(st, accountId, acc) ==> accountId in MapsOf(st).accounts && MapsOf(st).accounts[accountId] == acc
    ensures ActiveIn(MapsOf(st), accountId) ==> Serving(st, accountId, MapsOf(st).accounts[accountId])
  {
    ByIdMembers(st.accounts, AccountId);
    if ActiveIn(MapsOf(st), accountId) {
      assert Serving(st, accountId, MapsOf(st).accounts[accountId]);
    }
  }

  // The name that the pass finds through its maps.
  function NameFound(m: Maps, mailDomainId: string): string { DomainOf(m, MailDomainOf(m, mailDomainId).domainId).ascii }

  lemma NamedIff(st: Store, mailDomainId: string, ascii: string)
    requires WellFormed(st)
    ensures Named(st, mailDomainId, ascii) <==> ascii != "" && NameFound(MapsOf(st), mailDomainId) == ascii
    ensures NameFound(MapsOf(st), mailDomainId) != "" ==>
      MailDomainOf(MapsOf(st), mailDomainId).id != "" && DomainOf(MapsOf(st), MailDomainOf(MapsOf(st), mailDomainId).domainId).id != ""
  {
    hide ById;
    var m := MapsOf(st);
    ByIdMembers(st.mailDomains, MailDomainId);
    ByIdMembers(st.domains, DomainId);
    if NameFound(m, mailDomainId) != "" {
      var md := MailDomainOf(m, mailDomainId);
      if mailDomainId !in m.mailDomains {
        NoDomainWithoutId(st);
      }
      assert md in st.mailDomains && DomainOf(m, md.domainId) in st.domains;
    }
  }

  lemma NoDomainWithoutId(st: Store)
    requires WellFormed(st)
    ensures "" !in MapsOf(st).domains
  {
    ByIdMembers(st.domains, DomainId);
  }

  lemma RecipientOfIs(st: Store, mb: Mailbox)
    requires WellFormed(st)
    ensures RecipientOf(MapsOf(st), mb).Some? ==> IsRecipient(st, mb, RecipientOf(MapsOf(st), mb).value)
    ensures forall a :: HasMail(st, mb, a) <==> RecipientOf(MapsOf(st), mb).Some? && RecipientOf(MapsOf(st), mb).value.address == a
  {
    hide ById, Named, Serving, WellFormed;
    var m := MapsOf(st);
    ServingIff(st, mb.accountId);
    var name := NameFound(m, mb.domainId);
    forall ascii
      ensures Named(st, mb.domainId, ascii) <==> ascii != "" && name == ascii
    {
      NamedIff(st, mb.domainId, ascii);
    }
    NamedIff(st, mb.domainId, name);
    if ActiveIn(m, mb.accountId) {
      LimitIs(st, m.accounts[mb.accountId]);
    }
  }

  lemma LimitIs(st: Store, acc: Account)
    requires WellFormed(st)
    ensures var m := MapsOf(st); DailyLimit(st, acc.packageId, if acc.packageId in m.packages then m.packages[acc.packageId].dailyLimit else 0)
  {
    ByIdMembers(st.packages, PackageId);
  }

  // ---------- recipients ----------

  lemma {:induction false} RecipientsOfAre(m: Maps, boxes: seq<Mailbox>)
    ensures forall r :: r in RecipientsOf(m, boxes) ==>
      exists j :: 0 <= j < |boxes| && RecipientOf(m, boxes[j]) == Some(r) && FreeBefore(m, boxes, j, r.address)
    ensures forall j :: 0 <= j < |boxes| && RecipientOf(m, boxes[j]).Some? ==> HasAddress(RecipientsOf(m, boxes), RecipientOf(m, boxes[j]).value.address)
    decreases |boxes|
  {
    hide RecipientOf;
    if boxes != [] {
      var k := |boxes| - 1;
      RecipientsOfAre(m, boxes[..k]);
      var before, all := RecipientsOf(m, boxes[..k]), RecipientsOf(m, boxes);
      forall r | r in all
        ensures exists j :: 0 <= j < |boxes| && RecipientOf(m, boxes[j]) == Some(r) && FreeBefore(m, boxes, j, r.address)
      {
        if r in before {
          var j :| 0 <= j < k && RecipientOf(m, boxes[..k][j]) == Some(r) && FreeBefore(m, boxes[..k], j, r.address);
          assert RecipientOf(m, boxes[j]) == Some(r) && FreeBefore(m, boxes, j, r.address);
        } else {
          AddressesFree(m, boxes, boxes[..k], r.address);
          assert RecipientOf(m, boxes[k]) == Some(r);
        }
      }
      forall j | 0 <= j < |boxes| && RecipientOf(m, boxes[j]).Some?
        ensures HasAddress(all, RecipientOf(m, boxes[j]).value.address)
      {
        var address := RecipientOf(m, boxes[j]).value.address;
        if j < k {
          assert boxes[..k][j] == boxes[j];
          var i :| 0 <= i < |before| && before[i].address == address;
          assert all[i] == before[i];
        } else if !HasAddress(before, address) {
          assert all[|before|].address == address;
        } else {
          assert all == before;
        }
      }
    }
  }

  // No mailbox before the j-th has the address.
  ghost predicate FreeBefore(m: Maps, boxes: seq<Mailbox>, j: nat, address: string)
    requires j <= |boxes|
  {
    forall i :: 0 <= i < j ==> RecipientOf(m, boxes[i]).None? || RecipientOf(m, boxes[i]).value.address != address
  }

  lemma AddressesFree(m: Maps, boxes: seq<Mailbox>, init: seq<Mailbox>, address: string)
    requires boxes != [] && init == boxes[..|boxes| - 1] && !HasAddress(RecipientsOf(m, init), address)
    requires forall j :: 0 <= j < |init| && RecipientOf(m, init[j]).Some? ==> HasAddress(RecipientsOf(m, init), RecipientOf(m, init[j]).value.address)
    ensures FreeBefore(m, boxes, |boxes| - 1, address)
  {
    hide RecipientOf, HasAddress, RecipientsOf;
    forall i | 0 <= i < |boxes| - 1
      ensures RecipientOf(m, boxes[i]).None? || RecipientOf(m, boxes[i]).value.address != address
    {
      assert init[i] == boxes[i];
    }
  }

  // The recipient is that of the j-th mailbox, and no mailbox before it is served under the address.
  ghost predicate FirstOf(st: Store, j: nat, r: Recipient)
    requires j < |st.mailboxes|
  {
    IsRecipient(st, st.mailboxes[j], r) && forall i :: 0 <= i < j ==> !HasMail(st, st.mailboxes[i], r.address)
  }

  lemma BoxesAre(st: Store)
    requires WellFormed(st)
    ensures forall j :: 0 <= j < |st.mailboxes| && RecipientOf(MapsOf(st), st.mailboxes[j]).Some? ==>
      IsRecipient(st, st.mailboxes[j], RecipientOf(MapsOf(st), st.mailboxes[j]).value)
    ensures forall j, a :: 0 <= j < |st.mailboxes| ==>
      (HasMail(st, st.mailboxes[j], a) <==> RecipientOf(MapsOf(st), st.mailboxes[j]).Some? && RecipientOf(MapsOf(st), st.mailboxes[j]).value.address == a)
  {
    hide WellFormed, RecipientOf, HasMail, IsRecipient, MapsOf;
    forall j | 0 <= j < |st.mailboxes|
      ensures RecipientOf(MapsOf(st), st.mailboxes[j]).Some? ==> IsRecipient(st, st.mailboxes[j], RecipientOf(MapsOf(st), st.mailboxes[j]).value)
      ensures forall a :: HasMail(st, st.mailboxes[j], a) <==>
        RecipientOf(MapsOf(st), st.mailboxes[j]).Some? && RecipientOf(MapsOf(st), st.mailboxes[j]).value.address == a
    {
      RecipientOfIs(st, st.mailboxes[j]);
    }
  }

  // The snapshot's recipients in the rows' own fields: an address has a recipient exactly when some mailbox is served under it, the recipient
  // is that of the first such mailbox, and no address has two.
  lemma RecipientsAre(st: Store, snap: Snapshot)
    requires WellFormed(st) && IsSnapshot(st, snap)
    ensures forall address :: HasAddress(snap.recipients, address) <==> exists j :: 0 <= j < |st.mailboxes| && HasMail(st, st.mailboxes[j], address)
    ensures forall r :: r in snap.recipients ==> exists j :: 0 <= j < |st.mailboxes| && FirstOf(st, j, r)
    ensures OneEachAddress(snap.recipients)
  {
    hide WellFormed, HasMail, FirstOf, RecipientsOf, HasAddress, IsListing, NameIn, CatchallCount, PassGives, MapsOf;
    var all := RecipientsOf(MapsOf(st), st.mailboxes);
    RecipientsDistinct(MapsOf(st), st.mailboxes);
    OneEachIsKept(all, snap.recipients);
    forall r | r in snap.recipients
      ensures exists j :: 0 <= j < |st.mailboxes| && FirstOf(st, j, r)
    {
      assert r in multiset(snap.recipients) && r in multiset(all);
      FirstIs(st, r);
    }
    forall address
      ensures HasAddress(snap.recipients, address) <==> exists j :: 0 <= j < |st.mailboxes| && HasMail(st, st.mailboxes[j], address)
    {
      SameAddresses(all, snap.recipients, address);
      AddressIff(st, address);
    }
  }

  lemma FirstIs(st: Store, r: Recipient)
    requires WellFormed(st) && r in RecipientsOf(MapsOf(st), st.mailboxes)
    ensures exists j :: 0 <= j < |st.mailboxes| && FirstOf(st, j, r)
  {
    hide WellFormed, RecipientOf, HasMail, IsRecipient, RecipientsOf, MapsOf;
    var m := MapsOf(st);
    RecipientsOfAre(m, st.mailboxes);
    BoxesAre(st);
    var j :| 0 <= j < |st.mailboxes| && RecipientOf(m, st.mailboxes[j]) == Some(r) && FreeBefore(m, st.mailboxes, j, r.address);
    assert FirstOf(st, j, r);
  }

  lemma AddressIff(st: Store, address: string)
    requires WellFormed(st)
    ensures HasAddress(RecipientsOf(MapsOf(st), st.mailboxes), address) <==> exists j :: 0 <= j < |st.mailboxes| && HasMail(st, st.mailboxes[j], address)
  {
    hide WellFormed, RecipientOf, HasMail, IsRecipient, RecipientsOf, MapsOf, FreeBefore;
    var m := MapsOf(st);
    var all := RecipientsOf(m, st.mailboxes);
    RecipientsOfAre(m, st.mailboxes);
    BoxesAre(st);
    if i :| 0 <= i < |all| && all[i].address == address {
      assert all[i] in all;
      var j :| 0 <= j < |st.mailboxes| && RecipientOf(m, st.mailboxes[j]) == Some(all[i]);
      assert HasMail(st, st.mailboxes[j], address);
    }
  }

  lemma SameAddresses(a: seq<Recipient>, b: seq<Recipient>, address: string)
    requires multiset(a) == multiset(b)
    ensures HasAddress(a, address) <==> HasAddress(b, address)
  {
    if i :| 0 <= i < |a| && a[i].address == address {
      assert a[i] in multiset(b);
    }
    if i :| 0 <= i < |b| && b[i].address == address {
      assert b[i] in multiset(a);
    }
  }

  // ---------- domain names and catch-all lines ----------

  // The mail domain belongs to a serving account and has this name.
  ghost predicate NamesMail(st: Store, md: MailDomain, ascii: string) {
    ascii != "" && (exists acc :: Serving(st, md.accountId, acc)) && exists d :: d in st.domains && d.id == md.domainId && d.ascii == ascii
  }

  lemma NameOfIs(st: Store, md: MailDomain, ascii: string)
    requires WellFormed(st)
    ensures NamesMail(st, md, ascii) <==> ascii != "" && NameOf(MapsOf(st), md) == ascii
  {
    ServingIff(st, md.accountId);
    ByIdMembers(st.domains, DomainId);
  }

  lemma DomainNamesAre(st: Store, snap: Snapshot, name: string)
    requires WellFormed(st) && IsSnapshot(st, snap)
    ensures name in snap.domainNames <==> exists md :: md in st.mailDomains && NamesMail(st, md, name)
  {
    hide NameOf, NamesMail, ById;
    var m := MapsOf(st);
    ByIdMembers(st.mailDomains, MailDomainId);
    forall md
      ensures NamesMail(st, md, name) <==> name != "" && NameOf(m, md) == name
    {
      NameOfIs(st, md, name);
    }
    if md :| md in st.mailDomains && NamesMail(st, md, name) {
      assert MailDomainId(md) in m.mailDomains.Keys;
    }
  }

  // The mail domain gives this catch-all line.
  ghost predicate Catches(st: Store, md: MailDomain, line: string) {
    var local := TrimSpace(ToLower(md.catchall));
    local != "" && local != "reject" &&
    exists ascii :: NamesMail(st, md, ascii) && line == "@" + ascii + " " + ascii + "/" + local + "/Maildir/\n"
  }

  // The catch-all map is the sorted lines of the mail domains, a line as often as there are mail domains that give it.
  lemma CatchallsAre(st: Store, snap: Snapshot) returns (lines: seq<string>)
    requires WellFormed(st) && IsSnapshot(st, snap)
    ensures Sorted(lines) && snap.catchallVirtual == Concat(lines)
    ensures forall l :: multiset(lines)[l] == |set md | md in st.mailDomains && Catches(st, md, l) :: md.id|
  {
    hide CatchallOf, Catches, ById, Sorted, Concat, IsListing;
    var m := MapsOf(st);
    lines :| Sorted(lines) && snap.catchallVirtual == Concat(lines) && forall l :: multiset(lines)[l] == CatchallCount(m, m.mailDomains.Keys, l);
    forall l
      ensures multiset(lines)[l] == |set md | md in st.mailDomains && Catches(st, md, l) :: md.id|
    {
      CatchallIds(st, l);
    }
  }

  lemma CatchallIds(st: Store, l: string)
    requires WellFormed(st)
    ensures var m := MapsOf(st);
      (set k | k in m.mailDomains.Keys && CatchallOf(m, m.mailDomains[k]) == Some(l)) == set md | md in st.mailDomains && Catches(st, md, l) :: md.id
  {
    hide CatchallOf, Catches, ById;
    var m := MapsOf(st);
    ByIdMembers(st.mailDomains, MailDomainId);
    forall md
      ensures Catches(st, md, l) <==> CatchallOf(m, md) == Some(l)
    {
      CatchesIs(st, md, l);
    }
  }

  lemma CatchesIs(st: Store, md: MailDomain, l: string)
    requires WellFormed(st)
    ensures Catches(st, md, l) <==> CatchallOf(MapsOf(st), md) == Some(l)
  {
    hide NameOf, NamesMail;
    forall ascii
      ensures NamesMail(st, md, ascii) <==> ascii != "" && NameOf(MapsOf(st), md) == ascii
    {
      NameOfIs(st, md, ascii);
    }
    assert NamesMail(st, md, NameOf(MapsOf(st), md)) <==> NameOf(MapsOf(st), md) != "";
  }

  // ---------- alias and sender lines ----------

  // The alias can be used: its account serves, its domain has this name, and it has an address and a destination.
  ghost predicate Usable(st: Store, al: Alias, ascii: string) {
    (exists acc :: Serving(st, al.accountId, acc)) && Named(st, al.domainId, ascii) && al.address != "" && al.destination != ""
  }

  // One part of a comma-separated destination: nothing if it is blank, otherwise the trimmed part, completed with the domain if it has none.
  function OneDestination(part: string, ascii: string): seq<string> {
    var t := TrimSpace(part);
    if t == "" then [] else if '@' in t then [t] else [t + "@" + ascii]
  }

  lemma DestinationsLast(parts: seq<string>, part: string, ascii: string)
    ensures Destinations(parts + [part], ascii) == Destinations(parts, ascii) + OneDestination(part, ascii)
  {
    assert (parts + [part])[..|parts|] == parts;
  }

  lemma DestinationsCons(part: string, parts: seq<string>, ascii: string)
    ensures Destinations([part] + parts, ascii) == OneDestination(part, ascii) + Destinations(parts, ascii)
    decreases |parts|
  {
    if parts == [] {
      DestinationsLast([], part, ascii);
      assert [part] + parts == [] + [part];
    } else {
      var k := |parts| - 1;
      DestinationsCons(part, parts[..k], ascii);
      DestinationsLast([part] + parts[..k], parts[k], ascii);
      DestinationsLast(parts[..k], parts[k], ascii);
      assert [part] + parts == [part] + parts[..k] + [parts[k]] && parts == parts[..k] + [parts[k]];
    }
  }

  // Destinations are read from the left, comma by comma.
  lemma DestinationsAre(al: Alias, ascii: string)
    ensures ',' !in al.destination ==> AliasDestinations(al, ascii) == OneDestination(al.destination, ascii)
    ensures forall part, rest :: ',' !in part && al.destination == part + [','] + rest ==>
      AliasDestinations(al, ascii) == OneDestination(part, ascii) + AliasDestinations(al.(destination := rest), ascii)
  {
    if ',' !in al.destination {
      SplitNone(al.destination, ',');
      DestinationsLast([], al.destination, ascii);
      assert [] + [al.destination] == [al.destination];
    }
    forall part, rest | ',' !in part && al.destination == part + [','] + rest
      ensures AliasDestinations(al, ascii) == OneDestination(part, ascii) + AliasDestinations(al.(destination := rest), ascii)
    {
      SplitAt(part, ',', rest);
      DestinationsCons(part, Split(rest, ','), ascii);
    }
  }

  // The line of the alias map: address, destinations with commas between.
  ghost predicate IsAliasLine(st: Store, al: Alias, line: string) {
    exists ascii :: Usable(st, al, ascii) && AliasDestinations(al, ascii) != [] &&
      line == al.address + "@" + ascii + " " + Commas(AliasDestinations(al, ascii)) + "\n"
  }

  function Commas(parts: seq<string>): string {
    if parts == [] then "" else if |parts| == 1 then parts[0] else parts[0] + "," + Commas(parts[1..])
  }

  lemma {:induction false} JoinIsCommas(parts: seq<string>)
    ensures JoinWith(parts, ",") == Commas(parts)
  {
    if |parts| > 1 {
      JoinIsCommas(parts[1..]);
    }
  }

  lemma AliasLineIs(st: Store, al: Alias, line: string)
    requires WellFormed(st)
    ensures IsAliasLine(st, al, line) <==> AliasLineOf(MapsOf(st), al) == Some(line)
  {
    hide ById, Named, Serving, WellFormed, AliasDestinations, JoinWith, Commas;
    var m := MapsOf(st);
    ServingIff(st, al.accountId);
    var name := NameFound(m, al.domainId);
    forall ascii
      ensures Named(st, al.domainId, ascii) <==> ascii != "" && name == ascii
    {
      NamedIff(st, al.domainId, ascii);
    }
    NamedIff(st, al.domainId, name);
    JoinIsCommas(AliasDestinations(al, name));
    assert Usable(st, al, name) <==> ActiveIn(m, al.accountId) && name != "" && al.address != "" && al.destination != "";
  }

  // The alias map is its header and the sorted lines of the aliases, one for each alias that gives one.
  lemma AliasMapIs(st: Store, snap: Snapshot) returns (lines: seq<string>)
    requires WellFormed(st) && IsSnapshot(st, snap)
    ensures Sorted(lines) && snap.aliasMap == "# panel virtual alias map — generated, do not edit\n" + Concat(lines)
    ensures forall l :: multiset(lines)[l] == |set j | 0 <= j < |st.aliases| && IsAliasLine(st, st.aliases[j], l)|
  {
    hide AliasLineOf, Giving, IsAliasLine, Sorted, Concat, IsListing, NameIn, CatchallCount, MapsOf;
    var m := MapsOf(st);
    lines :| Sorted(lines) && snap.aliasMap == ALIAS_HEADER + Concat(lines) && multiset(lines) == multiset(AliasLines(m, st.aliases));
    forall l
      ensures multiset(lines)[l] == |set j | 0 <= j < |st.aliases| && IsAliasLine(st, st.aliases[j], l)|
    {
      CountLines(m, st.aliases, l);
      forall j | 0 <= j < |st.aliases|
        ensures IsAliasLine(st, st.aliases[j], l) <==> AliasLineOf(m, st.aliases[j]) == Some(l)
      {
        AliasLineIs(st, st.aliases[j], l);
      }
      assert (set j | 0 <= j < |st.aliases| && IsAliasLine(st, st.aliases[j], l)) == Giving(m, st.aliases, l);
    }
  }

  function Giving(m: Maps, aliases: seq<Alias>, l: string): (r: set<nat>)
    ensures forall j: nat :: j in r <==> j < |aliases| && AliasLineOf(m, aliases[j]) == Some(l)
  {
    set j: nat | j < |aliases| && AliasLineOf(m, aliases[j]) == Some(l)
  }

  lemma GivingNext(m: Maps, before: seq<Alias>, last: Alias, l: string)
    ensures |Giving(m, before + [last], l)| == |Giving(m, before, l)| + if AliasLineOf(m, last) == Some(l) then 1 else 0
  {
    hide AliasLineOf, Giving;
    var all, some := Giving(m, before + [last], l), Giving(m, before, l);
    if AliasLineOf(m, last) == Some(l) {
      assert all == some + {|before|};
    } else {
      assert all == some;
    }
  }

  lemma {:induction false} CountLines(m: Maps, aliases: seq<Alias>, l: string)
    ensures multiset(AliasLines(m, aliases))[l] == |Giving(m, aliases, l)|
    decreases |aliases|
  {
    hide AliasLineOf, Giving;
    if aliases == [] {
      assert Giving(m, aliases, l) == {};
    } else {
      var before, last := aliases[..|aliases| - 1], aliases[|aliases| - 1];
      CountLines(m, before, l);
      GivingNext(m, before, last, l);
      assert aliases == before + [last];
    }
  }

  // A sender line: a recipient's address for itself, or a usable alias's address for one of its destinations.
  ghost predicate IsSenderLine(st: Store, snap: Snapshot, line: string) {
    (exists r :: r in snap.recipients && r.address != "" && line == r.address + " " + r.address + "\n") ||
    exists j, ascii, dest :: 0 <= j < |st.aliases| && Usable(st, st.aliases[j], ascii) && dest in AliasDestinations(st.aliases[j], ascii) &&
      line == st.aliases[j].address + "@" + ascii + " " + dest + "\n"
  }

  // The sender map is its header and these lines, sorted, each once.
  lemma SenderMapIs(st: Store, snap: Snapshot) returns (lines: seq<string>)
    requires WellFormed(st) && IsSnapshot(st, snap)
    ensures Sorted(lines) && NoRepeats(lines) && snap.senderLogin == "# panel sender-login map — generated, do not edit\n" + Concat(lines)
    ensures forall l :: l in lines <==> IsSenderLine(st, snap, l)
  {
    hide PassGives, IsSenderLine, Sorted, Concat, NoRepeats, NameIn, CatchallCount, AliasLines, WellFormed;
    lines :| Sorted(lines) && NoRepeats(lines) && (forall l :: l in lines <==> PassGives(st, snap.recipients, l)) &&
      snap.senderLogin == SENDER_HEADER + Concat(lines);
    forall l
      ensures l in lines <==> IsSenderLine(st, snap, l)
    {
      SenderLineIs(st, snap, l);
    }
  }

  lemma SenderLineIs(st: Store, snap: Snapshot, line: string)
    requires WellFormed(st)
    ensures IsSenderLine(st, snap, line) <==> PassGives(st, snap.recipients, line)
  {
    hide Usable, MapAliasGives, WellFormed, AliasDestinations, MapsOf;
    assert RecipientGives(snap.recipients, line) <==> exists r :: r in snap.recipients && r.address != "" && line == r.address + " " + r.address + "\n";
    forall j | 0 <= j < |st.aliases|
      ensures MapAliasGives(MapsOf(st), st.aliases[j], line) <==>
        exists ascii, dest :: Usable(st, st.aliases[j], ascii) && dest in AliasDestinations(st.aliases[j], ascii) &&
          line == st.aliases[j].address + "@" + ascii + " " + dest + "\n"
    {
      AliasGivesIs(st, st.aliases[j], line);
    }
  }

  lemma AliasGivesIs(st: Store, al: Alias, line: string)
    requires WellFormed(st)
    ensures MapAliasGives(MapsOf(st), al, line) <==>
      exists ascii, dest :: Usable(st, al, ascii) && dest in AliasDestinations(al, ascii) && line == al.address + "@" + ascii + " " + dest + "\n"
  {
    hide ById, Named, Serving, WellFormed, AliasDestinations;
    var m := MapsOf(st);
    ServingIff(st, al.accountId);
    var name := NameFound(m, al.domainId);
    forall ascii
      ensures Named(st, al.domainId, ascii) <==> ascii != "" && name == ascii
    {
      NamedIff(st, al.domainId, ascii);
    }
    NamedIff(st, al.domainId, name);
    assert Usable(st, al, name) <==> ActiveIn(m, al.accountId) && name != "" && al.address != "" && al.destination != "";
  }

  // A text is the lines one after the other.
  lemma {:induction false} ConcatIs(a: seq<string>, b: seq<string>, line: string)
    ensures Concat([line]) == line && Concat([]) == "" && Concat(a + b) == Concat(a) + Concat(b)
  {
    assert [line][1..] == [];
    if a == [] {
      assert a + b == b;
    } else {
      ConcatIs(a[1..], b, line);
      assert (a + b)[1..] == a[1..] + b;
    }
  }
}
