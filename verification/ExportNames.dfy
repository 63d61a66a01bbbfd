// Rewriting domain names, database names and paths to another account (internal/migration/native.go, lines 374-434), and which of them
// can be found again.
module ExportNames {
  import opened GoText
  import opened ExportTree

  // ---------- rewriting names ----------

  function RewriteFqdn(name: string, oldRoot: string, newRoot: string): string {
    if name == "" || oldRoot == "" || oldRoot == newRoot then name
    else if name == oldRoot then newRoot
    else if HasSuffix(name, "." + oldRoot) then name[..|name| - |oldRoot|] + newRoot
    else name
  }

  function RewritePrefixedName(name: string, oldUser: string, newUser: string): string {
    if name == "" || oldUser == "" || oldUser == newUser then name
    else if HasPrefix(name, oldUser + "_") then newUser + "_" + name[|oldUser + "_"|..]
    else name
  }

  function RewriteHomePath(p: string, n: Names): string {
    if p == "" then p else
      var q := if n.srcUser != "" && n.srcUser != n.destUser && (p == "/home/" + n.srcUser || HasPrefix(p, "/home/" + n.srcUser + "/"))
               then "/home/" + n.destUser + p[|"/home/" + n.srcUser|..] else p;
      if n.srcDomain != "" && n.srcDomain != n.destDomain then ReplaceAll(q, n.srcDomain, n.destDomain) else q
  }

  function RewriteHostToken(s: string, oldRoot: string, newRoot: string): string {
    if s == "" || oldRoot == "" || oldRoot == newRoot then s
    else if s == oldRoot || HasSuffix(s, "." + oldRoot) then RewriteFqdn(s, oldRoot, newRoot)
    else if Contains(s, oldRoot) then ReplaceAll(s, oldRoot, newRoot)
    else s
  }

  // The part before the first '@', if there is one.
  function LocalLength(addr: string): (k: nat)
    ensures k <= |addr|
  {
    if addr == "" || addr[0] == '@' then 0 else 1 + LocalLength(addr[1..])
  }

  function RewriteAddress(addr: string, oldRoot: string, newRoot: string): string {
    var k := LocalLength(addr);
    if k == |addr| then RewriteFqdn(addr, oldRoot, newRoot)
    else addr[..k] + "@" + RewriteFqdn(addr[k + 1..], oldRoot, newRoot)
  }

  // strings.TrimPrefix(u, oldUser + "_") under its own guard, without the guards of RewritePrefixedName.
  function RewriteFtpUser(u: string, n: Names): string {
    if HasPrefix(u, n.srcUser + "_") then n.destUser + "_" + u[|n.srcUser + "_"|..] else u
  }

  function RewriteDomain(d: Domain, n: Names): Domain {
    Domain(RewriteFqdn(d.fqdn, n.srcDomain, n.destDomain), RewriteFqdn(d.ascii, n.srcDomain, n.destDomain),
           RewriteHomePath(d.documentRoot, n))
  }

  function RewriteDatabase(d: Database, n: Names): Database {
    d.(name := RewritePrefixedName(d.name, n.srcUser, n.destUser))
  }

  // ---------- which names can be found again ----------

  // name is root or a name below it.
  predicate Inside(name: string, root: string) {
    name != "" && root != "" && (name == root || HasSuffix(name, "." + root))
  }

  predicate Prefixed(name: string, user: string) {
    user != "" && HasPrefix(name, user + "_")
  }

  predicate FqdnReturns(name: string, src: string, dest: string) {
    name == "" || src == dest || (if Inside(name, src) then dest != "" else !Inside(name, dest))
  }

  predicate DatabaseReturns(name: string, src: string, dest: string) {
    name == "" || src == dest || (if Prefixed(name, src) then dest != "" else !Prefixed(name, dest))
  }

  lemma StemAndRoot(name: string, root: string)
    requires Inside(name, root)
    ensures |root| <= |name| && name == name[..|name| - |root|] + root
    ensures var stem := name[..|name| - |root|]; stem == "" || stem[|stem| - 1] == '.'
    ensures forall other :: RewriteFqdn(name, root, other) == if root == other then name else name[..|name| - |root|] + other
  {
    if name != root {
      var tail := name[|name| - |root| - 1..];
      assert tail == "." + root;
      assert tail[1..] == root;
      assert name[|name| - |root|..] == tail[1..];
    }
  }

  lemma StemMakesInside(stem: string, root: string)
    requires root != "" && (stem == "" || stem[|stem| - 1] == '.')
    ensures Inside(stem + root, root)
    ensures (stem + root)[..|stem + root| - |root|] == stem
  {
    if stem == "" {
      assert stem + root == root;
    } else {
      var n := stem + root;
      assert n[|n| - |"." + root|..] == "." + root;
    }
  }

  lemma TailsDiffer(stem: string, a: string, b: string)
    requires a != b
    ensures stem + a != stem + b
  {
    assert (stem + a)[|stem|..] == a && (stem + b)[|stem|..] == b;
  }

  lemma HeadsDiffer(a: string, b: string, rest: string)
    requires a != b
    ensures a + rest != b + rest
  {
    assert (a + rest)[..|a|] == a && (b + rest)[..|b|] == b && |a + rest| - |rest| == |a|;
  }

  // Rewriting there and back gives a name back exactly when it was below the source, or not below the destination.
  lemma FqdnReturnsIff(name: string, src: string, dest: string)
    ensures RewriteFqdn(RewriteFqdn(name, src, dest), dest, src) == name <==> FqdnReturns(name, src, dest)
  {
    if name != "" && src != dest {
      if Inside(name, src) {
        StemAndRoot(name, src);
        var stem := name[..|name| - |src|];
        if dest != "" {
          StemMakesInside(stem, dest);
          StemAndRoot(stem + dest, dest);
        } else {
          assert stem + dest == stem;
        }
      } else if Inside(name, dest) {
        StemAndRoot(name, dest);
        var stem := name[..|name| - |dest|];
        TailsDiffer(stem, src, dest);
      }
    }
  }

  // Wherever rewriting there and back leads, the name it finds is rewritten to the same destination name.
  lemma FqdnDestination(name: string, src: string, dest: string)
    requires src != "" && dest != ""
    ensures var there := RewriteFqdn(name, src, dest); RewriteFqdn(RewriteFqdn(there, dest, src), src, dest) == there
  {
    if name != "" && src != dest {
      FqdnReturnsIff(name, src, dest);
      if !FqdnReturns(name, src, dest) {
        StemAndRoot(name, dest);
        var stem := name[..|name| - |dest|];
        StemMakesInside(stem, src);
        StemAndRoot(stem + src, src);
      }
    }
  }

  // The same for the user prefix of a database name.
  lemma DatabaseReturnsIff(name: string, src: string, dest: string)
    ensures RewritePrefixedName(RewritePrefixedName(name, src, dest), dest, src) == name <==> DatabaseReturns(name, src, dest)
  {
    if name != "" && src != dest {
      var s, d := src + "_", dest + "_";
      if Prefixed(name, src) {
        var rest := name[|s|..];
        assert name == s + rest;
        assert (d + rest)[..|d|] == d && (d + rest)[|d|..] == rest;
        if dest == "" {
          assert |d + rest| < |s + rest|;
        }
      } else if Prefixed(name, dest) {
        var rest := name[|d|..];
        assert name == d + rest;
        HeadsDiffer(src, dest, "_" + rest);
        assert s + rest == src + ("_" + rest) && d + rest == dest + ("_" + rest);
      }
    }
  }

  // What was below the destination before is looked for below the source.
  lemma NamesThatDoNotReturn()
    ensures RewriteFqdn(RewriteFqdn("w.b", "a", "b"), "b", "a") == "w.a"
    ensures RewritePrefixedName(RewritePrefixedName("b_x", "a", "b"), "b", "a") == "a_x"
  {
    assert "w.b"[1..] == ".b" && "w.b"[..2] == "w." && "." + "b" == ".b" && "w." + "a" == "w.a" && "." + "a" == ".a";
    assert "a" + "_" == "a_" && "b" + "_" == "b_" && "b_x"[..2] == "b_" && "b_x"[2..] == "x" && "a_" + "x" == "a_x";
  }

  // ---------- names found by one of two lookups ----------

  function OrElse(a: string, b: string): string { if a == "" then b else a }

  function Returned(name: string, n: Names): string {
    RewriteFqdn(RewriteFqdn(name, n.srcDomain, n.destDomain), n.destDomain, n.srcDomain)
  }

  // Whether the name a mailbox is found under returns: viaMail is the name of its mail domain, direct that of the domain with its id. With
  // an empty root a name can be rewritten to nothing, and then the next fallback is taken.
  predicate MailReturns(viaMail: string, direct: string, src: string, dest: string) {
    var name := OrElse(viaMail, direct);
    if name == "" || (src != "" && dest != "") || name != src + dest then FqdnReturns(name, src, dest)
    else if src == "" then viaMail != "" && Inside(direct, dest) && direct == dest + dest
    else viaMail == "" || direct == "" || direct == src || (Inside(direct, src) && direct == src + src)
  }

  // Rewriting when one of the roots is empty.
  lemma EmptyRoot(name: string, root: string)
    requires root != ""
    ensures Cut(name, root, RewriteFqdn(RewriteFqdn(name, "", root), root, ""))
    ensures Cut(name, root, RewriteFqdn(RewriteFqdn(name, root, ""), "", root))
  {
    if Inside(name, root) {
      StemAndRoot(name, root);
      assert name[..|name| - |root|] + "" == name[..|name| - |root|];
    }
  }

  lemma MailReturnsIff(viaMail: string, direct: string, n: Names)
    ensures OrElse(OrElse(Returned(viaMail, n), Returned(direct, n)), n.srcDomain) == OrElse(OrElse(viaMail, direct), n.srcDomain) <==>
      MailReturns(viaMail, direct, n.srcDomain, n.destDomain)
  {
    hide RewriteFqdn, Cut, MailReturns;
    var root := n.srcDomain + n.destDomain;
    FqdnReturnsIff(viaMail, n.srcDomain, n.destDomain);
    FqdnReturnsIff(direct, n.srcDomain, n.destDomain);
    FqdnReturnsIff("", n.srcDomain, n.destDomain);
    if n.srcDomain == n.destDomain {
      SameRoots(viaMail, direct, n.srcDomain);
    } else if n.srcDomain == "" || n.destDomain == "" {
      assert root == if n.srcDomain == "" then n.destDomain else n.srcDomain;
      EmptyRoot(viaMail, root);
      EmptyRoot(direct, root);
      if n.srcDomain == "" {
        EmptySource(viaMail, direct, root, Returned(viaMail, n), Returned(direct, n));
      } else {
        EmptyDestination(viaMail, direct, root, Returned(viaMail, n), Returned(direct, n));
      }
    } else {
      NeverBlank(viaMail, n);
      NeverBlank(direct, n);
      BothRoots(viaMail, direct, n.srcDomain, n.destDomain);
    }
  }

  lemma SameRoots(viaMail: string, direct: string, root: string)
    ensures MailReturns(viaMail, direct, root, root)
  {
  }

  lemma BothRoots(viaMail: string, direct: string, src: string, dest: string)
    requires src != "" && dest != ""
    ensures MailReturns(viaMail, direct, src, dest) == FqdnReturns(OrElse(viaMail, direct), src, dest)
  {
  }

  lemma NeverBlank(name: string, n: Names)
    requires n.srcDomain != "" && n.destDomain != ""
    ensures Returned(name, n) == "" <==> name == ""
  {
  }

  // What is left of a name whose root is rewritten to nothing is shorter, and ends in a dot.
  predicate Cut(name: string, root: string, left: string) {
    if Inside(name, root) then name == left + root && (left == "" || left[|left| - 1] == '.') else left == name
  }

  lemma EmptySource(viaMail: string, direct: string, root: string, v: string, d: string)
    requires root != "" && Cut(viaMail, root, v) && Cut(direct, root, d)
    ensures OrElse(OrElse(v, d), "") == OrElse(OrElse(viaMail, direct), "") <==> MailReturns(viaMail, direct, "", root)
  {
    hide HasSuffix;
    assert "" + root == root && root + "" == root;
    CutItself(viaMail, root, v);
    CutItself(direct, root, d);
  }

  lemma EmptyDestination(viaMail: string, direct: string, root: string, v: string, d: string)
    requires root != "" && Cut(viaMail, root, v) && Cut(direct, root, d)
    ensures OrElse(OrElse(v, d), root) == OrElse(OrElse(viaMail, direct), root) <==> MailReturns(viaMail, direct, root, "")
  {
    hide HasSuffix;
    assert "" + root == root && root + "" == root;
    CutItself(viaMail, root, v);
    CutItself(direct, root, d);
  }

  lemma CutItself(name: string, root: string, left: string)
    requires root != "" && Cut(name, root, left)
    ensures left == name <==> !Inside(name, root)
    ensures name != "" && left == "" <==> name == root
    ensures left == root && Inside(name, root) <==> Inside(name, root) && name == root + root
  {
    if Inside(name, root) {
      assert |left + root| == |left| + |root|;
      HeadsDifferIff(left, root, root);
    }
  }

  lemma HeadsDifferIff(a: string, b: string, rest: string)
    ensures a + rest == b + rest <==> a == b
  {
    if a != b {
      HeadsDiffer(a, b, rest);
    }
  }

  // ---------- what rewriting gives ----------

  // The root becomes the new root, a name below it is moved below the new one, and any other name stays.
  lemma FqdnIs(oldRoot: string, newRoot: string)
    requires oldRoot != ""
    ensures RewriteFqdn(oldRoot, oldRoot, newRoot) == newRoot
    ensures forall stem :: RewriteFqdn(stem + "." + oldRoot, oldRoot, newRoot) == stem + "." + newRoot
    ensures forall name :: name != oldRoot && (forall stem :: name != stem + "." + oldRoot) ==> RewriteFqdn(name, oldRoot, newRoot) == name
  {
    forall stem
      ensures RewriteFqdn(stem + "." + oldRoot, oldRoot, newRoot) == stem + "." + newRoot
    {
      BelowRoot(stem, oldRoot, newRoot);
    }
    forall name | name != oldRoot && forall stem :: name != stem + "." + oldRoot
      ensures RewriteFqdn(name, oldRoot, newRoot) == name
    {
      SuffixSplits(name, oldRoot);
    }
  }

  lemma SuffixSplits(name: string, root: string)
    ensures HasSuffix(name, "." + root) ==> exists stem :: name == stem + "." + root
  {
    if HasSuffix(name, "." + root) {
      assert name == name[..|name| - |"." + root|] + "." + root;
    }
  }

  lemma PrefixSplits(name: string, p: string)
    ensures HasPrefix(name, p) ==> exists rest :: name == p + rest
  {
    if HasPrefix(name, p) {
      assert name == p + name[|p|..];
    }
  }

  lemma BelowRoot(stem: string, oldRoot: string, newRoot: string)
    requires oldRoot != ""
    ensures RewriteFqdn(stem + "." + oldRoot, oldRoot, newRoot) == stem + "." + newRoot
  {
    var name := stem + "." + oldRoot;
    assert |name| > |oldRoot| && name[|name| - |"." + oldRoot|..] == "." + oldRoot;
    assert name[..|name| - |oldRoot|] == stem + ".";
  }

  // A database with the user's prefix gets the new user's, any other keeps its name.
  lemma PrefixedNameIs(oldUser: string, newUser: string)
    requires oldUser != ""
    ensures forall rest :: RewritePrefixedName(oldUser + "_" + rest, oldUser, newUser) == newUser + "_" + rest
    ensures forall name :: (forall rest :: name != oldUser + "_" + rest) ==> RewritePrefixedName(name, oldUser, newUser) == name
  {
    forall rest
      ensures RewritePrefixedName(oldUser + "_" + rest, oldUser, newUser) == newUser + "_" + rest
    {
      WithPrefix(oldUser + "_", rest);
    }
    forall name | forall rest :: name != oldUser + "_" + rest
      ensures RewritePrefixedName(name, oldUser, newUser) == name
    {
      PrefixSplits(name, oldUser + "_");
    }
  }

  lemma WithPrefix(p: string, rest: string)
    ensures HasPrefix(p + rest, p) && (p + rest)[|p|..] == rest
  {
  }

  // The same for logins.
  lemma FtpUserIs(n: Names)
    ensures forall rest :: RewriteFtpUser(n.srcUser + "_" + rest, n) == n.destUser + "_" + rest
    ensures forall name :: (forall rest :: name != n.srcUser + "_" + rest) ==> RewriteFtpUser(name, n) == name
  {
    forall rest
      ensures RewriteFtpUser(n.srcUser + "_" + rest, n) == n.destUser + "_" + rest
    {
      WithPrefix(n.srcUser + "_", rest);
    }
    forall name | forall rest :: name != n.srcUser + "_" + rest
      ensures RewriteFtpUser(name, n) == name
    {
      PrefixSplits(name, n.srcUser + "_");
    }
  }

  // Every occurrence of the source's domain replaced by the destination's.
  function InDomain(p: string, n: Names): string {
    if n.srcDomain == "" then p else ReplaceAll(p, n.srcDomain, n.destDomain)
  }

  lemma {:induction false} ReplacedByItself(s: string, w: string)
    requires w != ""
    ensures ReplaceAll(s, w, w) == s
    decreases |s|
  {
    if s != "" {
      if HasPrefix(s, w) {
        ReplacedByItself(s[|w|..], w);
        assert s == w + s[|w|..];
      } else {
        ReplacedByItself(s[1..], w);
      }
    }
  }

  // The user's home and what is below it is moved to the new home, other paths stay where they are; in both the domain is replaced.
  lemma HomePathIs(n: Names, rest: string, p: string)
    requires n.srcUser != ""
    ensures RewriteHomePath("/home/" + n.srcUser, n) == InDomain("/home/" + n.destUser, n)
    ensures RewriteHomePath("/home/" + n.srcUser + "/" + rest, n) == InDomain("/home/" + n.destUser + "/" + rest, n)
    ensures p != "/home/" + n.srcUser && !HasPrefix(p, "/home/" + n.srcUser + "/") ==> RewriteHomePath(p, n) == InDomain(p, n)
  {
    hide ReplaceAll;
    var home, moved := "/home/" + n.srcUser, "/home/" + n.destUser;
    WithPrefix(home + "/", rest);
    assert (home + "/" + rest)[|home|..] == "/" + rest && home[|home|..] == "";
    assert moved + ("/" + rest) == moved + "/" + rest && moved + "" == moved;
    NoDomainChange(moved, n);
    NoDomainChange(moved + "/" + rest, n);
    NoDomainChange(p, n);
  }

  lemma NoDomainChange(p: string, n: Names)
    ensures n.srcDomain == n.destDomain ==> InDomain(p, n) == p
    ensures InDomain("", n) == ""
  {
    if n.srcDomain == n.destDomain && n.srcDomain != "" {
      ReplacedByItself(p, n.srcDomain);
    }
  }

  // A host in a DNS record is rewritten as a name if it is the root or below it; elsewhere every occurrence of the root is replaced.
  lemma HostTokenIs(s: string, oldRoot: string, newRoot: string)
    requires oldRoot != ""
    ensures RewriteHostToken(s, oldRoot, newRoot) == if Inside(s, oldRoot) then RewriteFqdn(s, oldRoot, newRoot) else ReplaceAll(s, oldRoot, newRoot)
  {
    if oldRoot == newRoot {
      ReplacedByItself(s, oldRoot);
    }
    if !Contains(s, oldRoot) {
      NotContained(s, oldRoot, newRoot);
    }
  }

  // Of an address the part before the at sign stays and the host is rewritten; a text without one is a host.
  lemma AddressIs(local: string, host: string, oldRoot: string, newRoot: string)
    requires '@' !in local
    ensures RewriteAddress(local + "@" + host, oldRoot, newRoot) == local + "@" + RewriteFqdn(host, oldRoot, newRoot)
    ensures RewriteAddress(local, oldRoot, newRoot) == RewriteFqdn(local, oldRoot, newRoot)
  {
    LocalIs(local, host);
    var a := local + "@" + host;
    assert a[..|local|] == local && a[|local| + 1..] == host;
  }

  lemma {:induction false} LocalIs(local: string, host: string)
    requires '@' !in local
    ensures LocalLength(local + "@" + host) == |local| && LocalLength(local) == |local|
  {
    if local == "" {
      assert local + "@" + host == "@" + host;
    } else {
      LocalIs(local[1..], host);
      assert (local + "@" + host)[1..] == local[1..] + "@" + host && local[0] in local;
    }
  }
}
