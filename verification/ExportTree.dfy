// The account export (internal/migration/native.go, lines 11-31) and the names it is moved between.
module ExportTree {

  // A row with an owner, and a row that also refers to a parent row.
  datatype Owned<B> = Owned(id: string, accountId: string, body: B)
  datatype Child<B> = Child(id: string, accountId: string, parentId: string, body: B)
  // A DNS record refers to its zone and has no owner field.
  datatype Record = Record(id: string, zoneId: string, name: string, content: string)

  datatype Account = Account(id: string, username: string, primaryDomain: string)
  datatype Domain = Domain(fqdn: string, ascii: string, documentRoot: string)
  datatype Website = Website(documentRoot: string)
  datatype Application = Application(workingDirectory: string, listenTarget: string)
  datatype Database = Database(engine: string, name: string)
  datatype MailDomain = MailDomain(catchall: string)
  datatype Mailbox = Mailbox(localPart: string, hash: string)
  datatype Alias = Alias(address: string, destination: string)
  datatype Zone = Zone(name: string)
  datatype Cron = Cron(workingDirectory: string)
  datatype Ftp = Ftp(username: string, homePath: string, hash: string)
  datatype Ssh = Ssh(key: string)

  // The value of an export.
  datatype Tree = Tree(account: Account, homedir: string, mysqlDump: string,
                       domains: seq<Owned<Domain>>, websites: seq<Child<Website>>, applications: seq<Child<Application>>,
                       databases: seq<Owned<Database>>, mailDomains: seq<Child<MailDomain>>, mailboxes: seq<Child<Mailbox>>,
                       aliases: seq<Child<Alias>>, zones: seq<Child<Zone>>, records: seq<Record>,
                       crons: seq<Owned<Cron>>, ftps: seq<Owned<Ftp>>, sshs: seq<Owned<Ssh>>)

  // The user and primary domain an export comes from and the ones it goes to.
  datatype Names = Names(srcUser: string, destUser: string, srcDomain: string, destDomain: string)
}
