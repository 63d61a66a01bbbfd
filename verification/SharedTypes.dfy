// Types that several parts use.
module SharedTypes {
  // A value that may be missing.
  datatype Option<+T> = None | Some(value: T)

  // A mailbox as the mail maps and the send limits print it (internal/mail/maps.go, lines 11-22).
  datatype Recipient = Recipient(address: string, domain: string, localPart: string, home: string, uid: int, gid: int,
                                 quota: int, hash: string, account: string, dailyLimit: int)
}
