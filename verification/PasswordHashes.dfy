// Carrying password hashes beside an export whose rows lose them (internal/migration/native.go, lines 66-79 and 237-254).
module PasswordHashes {
  import opened ExportTree
  import opened DataMove

  function BoxKeys(t: Tree): (s: seq<string>)
    ensures |s| == |t.mailboxes|
  {
    Mapped(t.mailboxes, (m: Child<Mailbox>) => MailboxKeyOf(t, m))
  }

  function BoxHashes(t: Tree): (s: seq<string>)
    ensures |s| == |t.mailboxes|
  {
    Mapped(t.mailboxes, (m: Child<Mailbox>) => m.body.hash)
  }

  function LoginKeys(t: Tree): (s: seq<string>)
    ensures |s| == |t.ftps|
  {
    Mapped(t.ftps, (f: Owned<Ftp>) => f.body.username)
  }

  function LoginHashes(t: Tree): (s: seq<string>)
    ensures |s| == |t.ftps|
  {
    Mapped(t.ftps, (f: Owned<Ftp>) => f.body.hash)
  }

  // The last hash among the rows with the key, if any has one.
  function LastHash(keys: seq<string>, hashes: seq<string>, key: string): string
    requires |keys| == |hashes|
  {
    if keys == [] then "" else
      var n := |keys| - 1;
      if keys[n] == key && hashes[n] != "" then hashes[n] else LastHash(keys[..n], hashes[..n], key)
  }

  ghost predicate HoldsHashes(m: map<string, string>, keys: seq<string>, hashes: seq<string>)
    requires |keys| == |hashes|
  {
    forall key :: Get(m, key) == LastHash(keys, hashes, key)
  }

  lemma NoHashesHeld(keys: seq<string>, hashes: seq<string>)
    requires |keys| == |hashes|
    ensures HoldsHashes(map[], keys[..0], hashes[..0])
  {
  }

  lemma WholeHashes(keys: seq<string>, hashes: seq<string>)
    requires |keys| == |hashes|
    ensures keys[..|keys|] == keys && hashes[..|keys|] == hashes
  {
  }

  lemma HashStep(m: map<string, string>, keys: seq<string>, hashes: seq<string>, i: nat)
    requires |keys| == |hashes| && i < |keys| && HoldsHashes(m, keys[..i], hashes[..i])
    ensures HoldsHashes(if hashes[i] == "" then m else m[keys[i] := hashes[i]], keys[..i + 1], hashes[..i + 1])
  {
    var k, h := keys[..i + 1], hashes[..i + 1];
    assert k[..i] == keys[..i] && h[..i] == hashes[..i] && |k| - 1 == i;
    forall key
      ensures Get(if hashes[i] == "" then m else m[keys[i] := hashes[i]], key) == LastHash(k, h, key)
    {
      assert Get(m, key) == LastHash(keys[..i], hashes[..i], key);
    }
  }

  function BoxWithHash(t: Tree, m: Child<Mailbox>, boxes: map<string, string>): Child<Mailbox> {
    if m.body.hash != "" then m else m.(body := m.body.(hash := Get(boxes, MailboxKeyOf(t, m))))
  }

  function LoginWithHash(f: Owned<Ftp>, logins: map<string, string>): Owned<Ftp> {
    if f.body.hash != "" then f else f.(body := f.body.(hash := Get(logins, f.body.username)))
  }

  function WithHashes(t: Tree, boxes: map<string, string>, logins: map<string, string>): Tree {
    t.(mailboxes := Mapped(t.mailboxes, (m: Child<Mailbox>) => BoxWithHash(t, m, boxes)),
       ftps := Mapped(t.ftps, (f: Owned<Ftp>) => LoginWithHash(f, logins)))
  }

  // The rows as the JSON text carries them.
  function Stripped(t: Tree): Tree {
    t.(mailboxes := Mapped(t.mailboxes, (m: Child<Mailbox>) => m.(body := m.body.(hash := ""))),
       ftps := Mapped(t.ftps, (f: Owned<Ftp>) => f.(body := f.body.(hash := ""))))
  }

  // Hashes do not enter a mailbox's key.
  lemma KeysOf(t: Tree, u: Tree, m: Child<Mailbox>)
    requires u.domains == t.domains && u.mailDomains == t.mailDomains && u.account == t.account
    ensures MailboxKeyOf(u, m) == MailboxKeyOf(t, m) && MailboxKeyOf(t, m.(body := m.body.(hash := ""))) == MailboxKeyOf(t, m)
  {
    assert FirstMailDomainAsciis(t) == FirstMailDomainAsciis(u) && Asciis(t) == Asciis(u);
  }

  ghost predicate OneHashPerKey(keys: seq<string>, hashes: seq<string>)
    requires |keys| == |hashes|
  {
    forall i, j :: 0 <= i < |keys| && 0 <= j < |keys| && keys[i] == keys[j] ==> hashes[i] == hashes[j]
  }

  lemma {:induction false} LastHashIsOneOf(keys: seq<string>, hashes: seq<string>, key: string)
    requires |keys| == |hashes|
    ensures var h := LastHash(keys, hashes, key);
      if h == "" then forall i :: 0 <= i < |keys| && keys[i] == key ==> hashes[i] == ""
      else exists i :: 0 <= i < |keys| && keys[i] == key && hashes[i] == h
  {
    if keys != [] {
      var n := |keys| - 1;
      LastHashIsOneOf(keys[..n], hashes[..n], key);
      if keys[n] != key || hashes[n] == "" {
        if LastHash(keys, hashes, key) != "" {
          var i :| 0 <= i < n && keys[..n][i] == key && hashes[..n][i] == LastHash(keys, hashes, key);
          assert keys[i] == key && hashes[i] == LastHash(keys, hashes, key);
        } else {
          assert forall i :: 0 <= i < n ==> keys[..n][i] == keys[i] && hashes[..n][i] == hashes[i];
        }
      }
    }
  }

  lemma LastHashesIff(keys: seq<string>, hashes: seq<string>)
    requires |keys| == |hashes|
    ensures (forall i :: 0 <= i < |keys| ==> LastHash(keys, hashes, keys[i]) == hashes[i]) <==> OneHashPerKey(keys, hashes)
  {
    hide LastHash;
    forall i | 0 <= i < |keys|
      ensures OneHashPerKey(keys, hashes) ==> LastHash(keys, hashes, keys[i]) == hashes[i]
    {
      LastHashIsOneOf(keys, hashes, keys[i]);
    }
  }

  // Exporting with hashes and importing again gives every mailbox and every login its own hash back exactly when rows that are filed
  // under one key have one hash.
  lemma HashesReturnIff(t: Tree, boxes: map<string, string>, logins: map<string, string>)
    requires HoldsHashes(boxes, BoxKeys(t), BoxHashes(t)) && HoldsHashes(logins, LoginKeys(t), LoginHashes(t))
    ensures WithHashes(Stripped(t), boxes, logins) == t <==>
      OneHashPerKey(BoxKeys(t), BoxHashes(t)) && OneHashPerKey(LoginKeys(t), LoginHashes(t))
  {
    hide MailboxKeyOf, LastHash, OneHashPerKey;
    var s := Stripped(t);
    var r := WithHashes(s, boxes, logins);
    forall i | 0 <= i < |t.mailboxes|
      ensures r.mailboxes[i] == t.mailboxes[i] <==> LastHash(BoxKeys(t), BoxHashes(t), BoxKeys(t)[i]) == BoxHashes(t)[i]
    {
      KeysOf(t, s, s.mailboxes[i]);
      KeysOf(t, s, t.mailboxes[i]);
    }
    forall i | 0 <= i < |t.ftps|
      ensures r.ftps[i] == t.ftps[i] <==> LastHash(LoginKeys(t), LoginHashes(t), LoginKeys(t)[i]) == LoginHashes(t)[i]
    {
    }
    LastHashesIff(BoxKeys(t), BoxHashes(t));
    LastHashesIff(LoginKeys(t), LoginHashes(t));
    SameTables(r, t);
  }

  // An export with one domain, two mail domains of it, and under each a mailbox of the same local part.
  function TwoBoxes(a: string, b: string): Tree {
    Tree(Account("acc", "u", "x.org"), "", "", [Owned("d", "acc", Domain("x.org", "x.org", ""))], [], [], [],
         [Child("m1", "acc", "d", MailDomain("")), Child("m2", "acc", "d", MailDomain(""))],
         [Child("b1", "acc", "m1", Mailbox("info", a)), Child("b2", "acc", "m2", Mailbox("info", b))],
         [], [], [], [], [], [])
  }

  // The import gives the first of the two the other's hash.
  lemma SharedKeyMixesHashes(a: string, b: string, boxes: map<string, string>, logins: map<string, string>)
    requires a != b && b != "" && HoldsHashes(boxes, BoxKeys(TwoBoxes(a, b)), BoxHashes(TwoBoxes(a, b)))
    ensures var t := TwoBoxes(a, b);
      var r := WithHashes(Stripped(t), boxes, logins);
      |r.mailboxes| == 2 && t.mailboxes[0].body.hash == a && r.mailboxes[0].body.hash == b && r != t
  {
    var t := TwoBoxes(a, b);
    KeysOf(t, Stripped(t), t.mailboxes[0]);
    KeysOf(t, Stripped(t), Stripped(t).mailboxes[0]);
    TwoKeys(a, b);
    hide MailboxKeyOf;
    assert Get(boxes, BoxKeys(t)[1]) == b;
  }

  lemma TwoKeys(a: string, b: string)
    ensures BoxKeys(TwoBoxes(a, b))[0] == BoxKeys(TwoBoxes(a, b))[1]
  {
    var t := TwoBoxes(a, b);
    assert FirstMailDomainAsciis(t) == ["x.org", "x.org"] && ChildIds(t.mailDomains) == ["m1", "m2"];
    assert "m1"[1] != "m2"[1] && ["m1", "m2"][1..] == ["m2"] && ["x.org", "x.org"][1..] == ["x.org"];
    assert First(["m1", "m2"], ["x.org", "x.org"], "m2") == First(["m2"], ["x.org"], "m2");
    assert KeyAscii(t, "m1") == "x.org" && KeyAscii(t, "m2") == "x.org";
  }

  lemma SameTables(r: Tree, t: Tree)
    requires r == t.(mailboxes := r.mailboxes, ftps := r.ftps) && |r.mailboxes| == |t.mailboxes| && |r.ftps| == |t.ftps|
    ensures r == t <==> (forall i :: 0 <= i < |t.mailboxes| ==> r.mailboxes[i] == t.mailboxes[i]) &&
                        (forall i :: 0 <= i < |t.ftps| ==> r.ftps[i] == t.ftps[i])
  {
    if (forall i :: 0 <= i < |t.mailboxes| ==> r.mailboxes[i] == t.mailboxes[i]) && (forall i :: 0 <= i < |t.ftps| ==> r.ftps[i] == t.ftps[i]) {
      assert r.mailboxes == t.mailboxes && r.ftps == t.ftps;
    }
  }

  // A row that has a hash keeps it, and one without takes what is filed under its key; nothing else in the export changes.
  lemma HashesAre(t: Tree, boxes: map<string, string>, logins: map<string, string>)
    ensures var r := WithHashes(t, boxes, logins);
      r == t.(mailboxes := r.mailboxes, ftps := r.ftps) && |r.mailboxes| == |t.mailboxes| && |r.ftps| == |t.ftps|
    ensures forall i :: 0 <= i < |t.mailboxes| ==>
      var m, key := t.mailboxes[i], MailboxKeyOf(t, t.mailboxes[i]);
      WithHashes(t, boxes, logins).mailboxes[i] == Child(m.id, m.accountId, m.parentId,
        Mailbox(m.body.localPart, if m.body.hash != "" then m.body.hash else if key in boxes then boxes[key] else ""))
    ensures forall i :: 0 <= i < |t.ftps| ==>
      var f := t.ftps[i];
      WithHashes(t, boxes, logins).ftps[i] == Owned(f.id, f.accountId, Ftp(f.body.username, f.body.homePath,
        if f.body.hash != "" then f.body.hash else if f.body.username in logins then logins[f.body.username] else ""))
  {
    hide MailboxKeyOf;
  }
}
