/**
 * What one call of processItem does, stated over MailQueue.ProcessItemRun:
 * which items are skipped, which mails are sent and in what order, when the
 * last-item check runs and when the batch owner is notified, and what the
 * completion message looks like.
 */
module MailQueueProperties {
  import opened Wrappers
  import opened PhpValues
  import opened MailQueue

  /** The number of mails among the effects. */
  function CountMails(effects: seq<Effect>): (n: nat)
    ensures n <= |effects|
  {
    if effects == [] then 0
    else (if effects[0].Mail? then 1 else 0) + CountMails(effects[1..])
  }

  /**
   * A private message save was attempted: some effect is a `MessageSave`, whether
   * or not that save succeeded.
   */
  predicate MessageSaveAttempted(effects: seq<Effect>) {
    exists i :: 0 <= i < |effects| && effects[i].MessageSave?
  }

  /** The mail sticks to the content: fixed module and key, its reply-to, subject and message. */
  predicate UsesContent(m: MailRequest, content: MailContent) {
    && m.moduleName == MailModule
    && m.key == MailKey
    && m.replyTo == content.replyTo
    && m.context.subject == content.subject
    && m.context.message == content.message
  }

  /** The item gets as far as the per-recipient loops: valid, content loaded, e-mail bundle. */
  predicate ReachesSending(s: Services, data: QueueItem) {
    && ValidateQueueItem(data)
    && data.mail.value in s.contents
    && s.contents[data.mail.value].bundle == EmailBundle
  }

  /** How many users the `users` key loads; none unless the array is truthy. */
  function UsersLoaded(s: Services, data: QueueItem): nat {
    if ArrayTruthy(data.users) then |LoadMultiple(s.users, data.users.value)| else 0
  }

  /** How many raw addresses pass the validator; none unless the array is truthy. */
  function AddressesAccepted(s: Services, data: QueueItem): nat {
    if ArrayTruthy(data.mailAddresses) then |ValidAddresses(s.isValidEmail, data.mailAddresses.value)| else 0
  }

  lemma {:induction false} CountMailsAppend(a: seq<Effect>, b: seq<Effect>)
    ensures CountMails(a + b) == CountMails(a) + CountMails(b)
  {
    if a == [] {
      assert a + b == b;
    } else {
      assert (a + b)[1..] == a[1..] + b;
      CountMailsAppend(a[1..], b);
    }
  }

  /** Every effect of the user loop is a mail: one per user. */
  lemma {:induction false} CountUserSends(users: seq<User>, content: MailContent)
    ensures CountMails(UserSends(users, content)) == |users|
  {
    if users != [] {
      CountMailsAppend([UserMail(users[0], content)], UserSends(users[1..], content));
      CountUserSends(users[1..], content);
    }
  }

  /** Every effect of the address loop is a mail: one per entry that validates. */
  lemma {:induction false} CountAddressSends(isValid: string -> bool, addrs: seq<MailAddress>, langcode: string, content: MailContent)
    ensures CountMails(AddressSends(isValid, addrs, langcode, content)) == |ValidAddresses(isValid, addrs)|
  {
    if addrs != [] {
      var rest := AddressSends(isValid, addrs[1..], langcode, content);
      if isValid(addrs[0].emailAddress) {
        CountMailsAppend([AddressMail(addrs[0], langcode, content)], rest);
      }
      CountAddressSends(isValid, addrs[1..], langcode, content);
    }
  }

  /** Effects none of which is a mail count no mail. */
  lemma {:induction false} NoMailCounted(effects: seq<Effect>)
    requires forall e :: e in effects ==> !e.Mail?
    ensures CountMails(effects) == 0
  {
    if effects != [] {
      assert effects[0] in effects;
      NoMailCounted(effects[1..]);
    }
  }

  /** The completion message involves no mail. */
  lemma NotifyPhaseSendsNoMail(s: Services, content: MailContent)
    ensures CountMails(NotifyPhase(s, content)) == 0
  {
    NoMailCounted(NotifyPhase(s, content));
  }

  /**
   * The mails of one call: one per loaded user (when `users` is a non-empty array)
   * plus one per raw address that validates (when `user_mail_addresses` is a
   * non-empty array); none at all for an item that does not reach the loops.
   */
  lemma ProcessItemMailCount(s: Services, data: QueueItem)
    ensures CountMails(ProcessItemRun(s, data).effects)
         == (if ReachesSending(s, data) then UsersLoaded(s, data) + AddressesAccepted(s, data) else 0)
  {
    if ReachesSending(s, data) {
      var id := data.mail.value;
      var content := s.contents[id];
      var u, a, n := UserPhase(s, data, content), AddressPhase(s, data, content), NotifyPhase(s, content);
      CountMailsAppend(u, a);
      CountMailsAppend(u + a, [LastItemQuery(id)]);
      CountMailsAppend(u + a + [LastItemQuery(id)], n);
      if ArrayTruthy(data.users) { CountUserSends(LoadMultiple(s.users, data.users.value), content); }
      if ArrayTruthy(data.mailAddresses) {
        CountAddressSends(s.isValidEmail, data.mailAddresses.value, s.defaultLangcode, content);
      }
      NotifyPhaseSendsNoMail(s, content);
    }
  }

  /**
   * The call starts with one mail per loaded user, in load order, to that user's
   * address and in that user's language; the mails for raw addresses follow.
   */
  lemma UserMailsComeFirst(s: Services, data: QueueItem)
    requires ReachesSending(s, data) && ArrayTruthy(data.users)
    ensures var users := LoadMultiple(s.users, data.users.value);
            var content := s.contents[data.mail.value];
            var effects := ProcessItemRun(s, data).effects;
            var addressMails := AddressPhase(s, data, content);
            && |users| + |addressMails| <= |effects|
            && (forall i :: 0 <= i < |users| ==>
                 effects[i].Mail? && effects[i].request.to == users[i].email
                 && effects[i].request.langcode == users[i].langcode
                 && effects[i].request.context.displayName == None
                 && UsesContent(effects[i].request, content))
            && effects[|users|..|users| + |addressMails|] == addressMails
  {
    var content := s.contents[data.mail.value];
    var u, a := UserPhase(s, data, content), AddressPhase(s, data, content);
    var rest := [LastItemQuery(data.mail.value)] + NotifyPhase(s, content);
    assert ProcessItemRun(s, data).effects == u + a + rest;
    ThreeParts(u, a, rest);
  }

  /**
   * The mails for the raw addresses follow the user mails (none when `users` is not
   * truthy) directly: one per validating entry, in the default language. This holds
   * for an item that sets only `user_mail_addresses` too.
   */
  lemma AddressMailsAfterUsers(s: Services, data: QueueItem)
    requires ReachesSending(s, data) && ArrayTruthy(data.mailAddresses)
    ensures var content := s.contents[data.mail.value];
            var k := UsersLoaded(s, data);
            var mails := AddressSends(s.isValidEmail, data.mailAddresses.value, s.defaultLangcode, content);
            var effects := ProcessItemRun(s, data).effects;
            && k + |mails| <= |effects|
            && effects[k..k + |mails|] == mails
  {
    var content := s.contents[data.mail.value];
    var u, a := UserPhase(s, data, content), AddressPhase(s, data, content);
    var rest := [LastItemQuery(data.mail.value)] + NotifyPhase(s, content);
    assert ProcessItemRun(s, data).effects == u + a + rest;
    assert |u| == UsersLoaded(s, data);
    ThreeParts(u, a, rest);
  }

  /** Where the parts of `u + a + rest` sit. */
  lemma ThreeParts(u: seq<Effect>, a: seq<Effect>, rest: seq<Effect>)
    ensures var t := u + a + rest;
            && |u| + |a| <= |t|
            && (forall i :: 0 <= i < |u| ==> t[i] == u[i])
            && t[|u|..|u| + |a|] == a
  {
    assert (u + a + rest)[|u|..|u| + |a|] == a;
  }

  /**
   * Each user that loads gets exactly one mail, and no id that does not load
   * leads to a user: loadMultiple returns the distinct stored ids of the list.
   */
  lemma LoadedUsersAreTheStoredIds(s: Services, ids: seq<Uid>)
    requires UsersKeyedById(s)
    ensures forall u :: u in LoadMultiple(s.users, ids) ==> u.id in ids && u.id in s.users
    ensures forall x :: x in ids && x in s.users ==> s.users[x] in LoadMultiple(s.users, ids)
    ensures forall i, j :: 0 <= i < j < |LoadMultiple(s.users, ids)| ==>
              LoadMultiple(s.users, ids)[i].id != LoadMultiple(s.users, ids)[j].id
  {
    var found := LoadableIds(s.users, ids);
    var users := LoadMultiple(s.users, ids);
    forall u | u in users ensures u.id in ids && u.id in s.users {
      var i :| 0 <= i < |users| && users[i] == u;
      assert found[i] in found;
    }
    forall x | x in ids && x in s.users ensures s.users[x] in users {
      var i :| 0 <= i < |found| && found[i] == x;
      assert users[i] == s.users[x];
    }
  }

  /** A raw address that fails validation is skipped, and the entries after it are still handled. */
  lemma InvalidAddressSkipped(isValid: string -> bool, before: seq<MailAddress>, bad: MailAddress, after: seq<MailAddress>,
                              langcode: string, content: MailContent)
    requires !isValid(bad.emailAddress)
    ensures AddressSends(isValid, before + [bad] + after, langcode, content)
         == AddressSends(isValid, before, langcode, content) + AddressSends(isValid, after, langcode, content)
  {
    AddressSendsAppend(isValid, before + [bad], after, langcode, content);
    AddressSendsAppend(isValid, before, [bad], langcode, content);
    assert [bad][1..] == [];
    assert AddressSends(isValid, [bad], langcode, content) == [];
    assert AddressSends(isValid, before, langcode, content) + [] == AddressSends(isValid, before, langcode, content);
  }

  /** A raw address that validates gets its mail, in the default language and with its display name. */
  lemma ValidAddressSent(isValid: string -> bool, before: seq<MailAddress>, good: MailAddress, after: seq<MailAddress>,
                         langcode: string, content: MailContent)
    requires isValid(good.emailAddress)
    ensures AddressSends(isValid, before + [good] + after, langcode, content)
         == AddressSends(isValid, before, langcode, content)
            + [Mail(MailFor(good.emailAddress, langcode, content, good.displayName))]
            + AddressSends(isValid, after, langcode, content)
  {
    AddressSendsAppend(isValid, before + [good], after, langcode, content);
    AddressSendsAppend(isValid, before, [good], langcode, content);
    assert [good][1..] == [];
    assert AddressSends(isValid, [good], langcode, content) == [AddressMail(good, langcode, content)];
  }

  /** Every mail of a call uses module `system`, key `action_send_email` and the content's fields. */
  lemma EveryMailUsesContent(s: Services, data: QueueItem)
    requires ValidateQueueItem(data) && data.mail.value in s.contents
    ensures forall e :: e in ProcessItemRun(s, data).effects && e.Mail? ==>
              UsesContent(e.request, s.contents[data.mail.value])
  {
    if ReachesSending(s, data) {
      var content := s.contents[data.mail.value];
      var effects := ProcessItemRun(s, data).effects;
      NotifyPhaseSendsNoMail(s, content);
      forall e | e in AddressPhase(s, data, content) ensures e.Mail? && UsesContent(e.request, content) {
        var addrs := data.mailAddresses.value;
        var i :| 0 <= i < |AddressPhase(s, data, content)| && AddressPhase(s, data, content)[i] == e;
        AddressSendsAt(s.isValidEmail, addrs, s.defaultLangcode, content, i);
      }
    }
  }

  /** The last-item query runs exactly for the items that reach the recipient loops. */
  lemma LastItemCheckedIff(s: Services, data: QueueItem)
    ensures (exists e :: e in ProcessItemRun(s, data).effects && e.LastItemQuery?) <==> ReachesSending(s, data)
    ensures ReachesSending(s, data) ==> LastItemQuery(data.mail.value) in ProcessItemRun(s, data).effects
  {
    if ReachesSending(s, data) {
      var id := data.mail.value;
      var content := s.contents[id];
      var u, a := UserPhase(s, data, content), AddressPhase(s, data, content);
      var effects := ProcessItemRun(s, data).effects;
      assert effects[|u + a|] == LastItemQuery(id);
    }
  }

  /**
   * The last-item query comes after every mail of the call, and only the
   * notification, which holds no mail and no query, comes after it.
   */
  lemma QueryAfterMails(s: Services, data: QueueItem)
    requires ReachesSending(s, data)
    ensures var n := UsersLoaded(s, data) + AddressesAccepted(s, data);
            var effects := ProcessItemRun(s, data).effects;
            && n < |effects|
            && effects[n] == LastItemQuery(data.mail.value)
            && (forall i :: 0 <= i < n ==> effects[i].Mail?)
            && (forall i :: n < i < |effects| ==> !effects[i].Mail? && !effects[i].LastItemQuery?)
  {
    var id := data.mail.value;
    var content := s.contents[id];
    var u, a, m := UserPhase(s, data, content), AddressPhase(s, data, content), NotifyPhase(s, content);
    assert ProcessItemRun(s, data).effects == (u + a) + [LastItemQuery(id)] + m;
    forall i | 0 <= i < |a| ensures a[i].Mail? {
      AddressSendsAt(s.isValidEmail, data.mailAddresses.value, s.defaultLangcode, content, i);
    }
    forall i | 0 <= i < |u + a| ensures (u + a)[i].Mail? {
      if i >= |u| { assert (u + a)[i] == a[i - |u|]; }
    }
    forall e | e in m ensures !e.Mail? && !e.LastItemQuery? {}
    MailsQueryRest(u + a, LastItemQuery(id), m);
  }

  /** Where the mails, the query and the rest sit in `mails + [query] + rest`. */
  lemma MailsQueryRest(mails: seq<Effect>, query: Effect, rest: seq<Effect>)
    requires forall i :: 0 <= i < |mails| ==> mails[i].Mail?
    requires forall e :: e in rest ==> !e.Mail? && !e.LastItemQuery?
    ensures var t := mails + [query] + rest;
            && t[|mails|] == query
            && (forall i :: 0 <= i < |mails| ==> t[i].Mail?)
            && (forall i :: |mails| < i < |t| ==> !t[i].Mail? && !t[i].LastItemQuery?)
  {
    var t := mails + [query] + rest;
    forall i | |mails| < i < |t| ensures !t[i].Mail? && !t[i].LastItemQuery? {
      assert t[i] == rest[i - |mails| - 1];
      assert rest[i - |mails| - 1] in rest;
    }
  }

  lemma MessageSaveAttemptedAppend(a: seq<Effect>, b: seq<Effect>)
    ensures MessageSaveAttempted(a + b) <==> MessageSaveAttempted(a) || MessageSaveAttempted(b)
  {
    if MessageSaveAttempted(a + b) {
      var i :| 0 <= i < |a + b| && (a + b)[i].MessageSave?;
      if i >= |a| { assert b[i - |a|] == (a + b)[i]; }
    }
    if MessageSaveAttempted(a) {
      var i :| 0 <= i < |a| && a[i].MessageSave?;
      assert (a + b)[i] == a[i];
    }
    if MessageSaveAttempted(b) {
      var i :| 0 <= i < |b| && b[i].MessageSave?;
      assert (a + b)[|a| + i] == b[i];
    }
  }

  /** The recipient loops only send mail: they attempt no message save. */
  lemma RecipientPhasesSaveNothing(s: Services, data: QueueItem, content: MailContent)
    ensures !MessageSaveAttempted(UserPhase(s, data, content))
    ensures !MessageSaveAttempted(AddressPhase(s, data, content))
  {
    var a := AddressPhase(s, data, content);
    forall i | 0 <= i < |a| ensures a[i].Mail? {
      AddressSendsAt(s.isValidEmail, data.mailAddresses.value, s.defaultLangcode, content, i);
    }
  }

  /**
   * The owner is notified exactly when the item reaches the recipient loops, the
   * count query finds one matching row, the owner loads, the subject is not empty
   * and user 1 loads.
   */
  lemma MessageSaveAttemptedIff(s: Services, data: QueueItem)
    ensures MessageSaveAttempted(ProcessItemRun(s, data).effects) <==>
      && ReachesSending(s, data)
      && s.queueMatches == 1
      && s.contents[data.mail.value].ownerId in s.users
      && StringTruthy(s.contents[data.mail.value].subject)
      && AdminUid in s.users
  {
    if ReachesSending(s, data) {
      var id := data.mail.value;
      var content := s.contents[id];
      var u, a, n := UserPhase(s, data, content), AddressPhase(s, data, content), NotifyPhase(s, content);
      RecipientPhasesSaveNothing(s, data, content);
      MessageSaveAttemptedAppend(u, a);
      MessageSaveAttemptedAppend(u + a, [LastItemQuery(id)]);
      MessageSaveAttemptedAppend(u + a + [LastItemQuery(id)], n);
      assert !MessageSaveAttempted([LastItemQuery(id)]);
      if n != [] {
        assert n[1].MessageSave?;
      }
    }
  }

  /**
   * When a message save is attempted, it is sendMessage for the content's owner and
   * the content's subject, and it comes right after the last-item query. The message
   * saved is the completion text for the owner's name and that subject.
   */
  lemma OwnerNotified(s: Services, data: QueueItem)
    requires ReachesSending(s, data) && MessageSaveAttempted(ProcessItemRun(s, data).effects)
    ensures var content := s.contents[data.mail.value];
            var n := UsersLoaded(s, data) + AddressesAccepted(s, data);
            var effects := ProcessItemRun(s, data).effects;
            && content.ownerId in s.users
            && n + 2 < |effects|
            && effects[n + 1..] == SendMessageEffects(s, s.users[content.ownerId], content.subject)
            && effects[n + 2].MessageSave?
            && effects[n + 2].message.body == GetMessage(s.users[content.ownerId].displayName, content.subject)
  {
    MessageSaveAttemptedIff(s, data);
    var id := data.mail.value;
    var content := s.contents[id];
    var u, a, m := UserPhase(s, data, content), AddressPhase(s, data, content), NotifyPhase(s, content);
    var effects := ProcessItemRun(s, data).effects;
    assert effects == (u + a + [LastItemQuery(id)]) + m;
    assert |u| + |a| == UsersLoaded(s, data) + AddressesAccepted(s, data);
    assert effects[|u| + |a| + 1..] == m;
    var owner := s.users[content.ownerId];
    var sender := s.users[AdminUid];
    var pm := CompletionMessage(sender, owner, content.subject);
    var b := SaveAttempt(MessageSave(pm, s.messageSaveOk), s.messageSaveOk);
    var c := SaveAttempt(ThreadAdd(pm, s.threadSaveOk), s.threadSaveOk);
    assert m == [ThreadForMembers(Keys(ThreadMembers(sender, owner)))] + b + c;
    LookupThenSaves(m[0], b, c);
  }

  /** An item whose `users` is an empty array still passes validation and reaches the last-item check. */
  lemma EmptyUsersReachLastItem(s: Services, id: ContentId, addrs: Option<seq<MailAddress>>)
    requires id in s.contents && s.contents[id].bundle == EmailBundle
    requires !ArrayTruthy(addrs)
    ensures var data := QueueItem(Some(id), Some([]), addrs);
            && ValidateQueueItem(data)
            && ProcessItemRun(s, data) == Run(Returned, [LastItemQuery(id)] + NotifyPhase(s, s.contents[id]))
  {
    var data := QueueItem(Some(id), Some([]), addrs);
    var content := s.contents[id];
    assert UserPhase(s, data, content) == [];
    assert AddressPhase(s, data, content) == [];
    assert [] + [] + [LastItemQuery(id)] == [LastItemQuery(id)];
  }

  /** Validation only checks that the keys are set: lists may be empty, and neither list suffices alone to fail. */
  lemma ValidationChecksPresenceOnly(id: ContentId, users: Option<seq<Uid>>, addrs: Option<seq<MailAddress>>)
    ensures ValidateQueueItem(QueueItem(Some(id), Some([]), addrs))
    ensures ValidateQueueItem(QueueItem(Some(id), users, Some([])))
    ensures !ValidateQueueItem(QueueItem(None, users, addrs))
    ensures !ValidateQueueItem(QueueItem(Some(id), None, None))
  {
  }

  // ---------------------------------------------------------------------------
  // sendMessage

  /**
   * `$members` maps each member's id to that member: the recipient is found under
   * its id, and so is user 1 unless the recipient took its place.
   */
  lemma ThreadMembersLookup(sender: User, recipient: User)
    ensures Lookup(ThreadMembers(sender, recipient), recipient.id) == Some(recipient)
    ensures recipient.id != sender.id ==> Lookup(ThreadMembers(sender, recipient), sender.id) == Some(sender)
  {
    var one := Put([], sender.id, sender);
    LookupPut(one, recipient.id, recipient, recipient.id);
    LookupPut(one, recipient.id, recipient, sender.id);
    LookupPut([], sender.id, sender, sender.id);
  }

  /**
   * When sendMessage acts, it looks up the thread, saves one message owned by user 1
   * carrying the completion text, then adds that same message to the thread. The
   * second save is attempted whether or not the first failed; each failure adds
   * exactly one logged error and nothing is retried.
   */
  lemma SendMessageAttemptsBothSaves(s: Services, recipient: User, subject: string)
    requires UsersKeyedById(s)
    requires StringTruthy(subject) && AdminUid in s.users
    ensures var r := SendMessageEffects(s, recipient, subject);
            var pm := PrivateMessage(AdminUid, GetMessage(recipient.displayName, subject), MessageFormat);
            var k := if s.messageSaveOk then 2 else 3;
            && |r| == k + (if s.threadSaveOk then 1 else 2)
            && r[0] == ThreadForMembers(if recipient.id == AdminUid then [AdminUid] else [AdminUid, recipient.id])
            && r[1] == MessageSave(pm, s.messageSaveOk)
            && (!s.messageSaveOk ==> r[2] == ErrorLogged(LogChannel))
            && r[k] == ThreadAdd(pm, s.threadSaveOk)
            && (!s.threadSaveOk ==> r[k + 1] == ErrorLogged(LogChannel))
  {
    var sender := s.users[AdminUid];
    assert sender.id == AdminUid;
    var pm := CompletionMessage(sender, recipient, subject);
    var a := [ThreadForMembers(Keys(ThreadMembers(sender, recipient)))];
    var b := SaveAttempt(MessageSave(pm, s.messageSaveOk), s.messageSaveOk);
    var c := SaveAttempt(ThreadAdd(pm, s.threadSaveOk), s.threadSaveOk);
    assert SendMessageEffects(s, recipient, subject) == a + b + c;
    LookupThenSaves(a[0], b, c);
  }

  /** Where the parts of `[lookup] + save + add` sit. */
  lemma LookupThenSaves(lookup: Effect, save: seq<Effect>, add: seq<Effect>)
    ensures var r := [lookup] + save + add;
            && |r| == 1 + |save| + |add|
            && r[0] == lookup
            && (forall i :: 0 <= i < |save| ==> r[1 + i] == save[i])
            && (forall i :: 0 <= i < |add| ==> r[1 + |save| + i] == add[i])
  {
  }

  // ---------------------------------------------------------------------------
  // getMessage

  /** The subject can be read back from the message addressed to the same recipient. */
  lemma MessageSubjectRoundTrip(recipientName: string, subject: string)
    ensures |MessageHead(recipientName)| + |SentenceClose| <= |GetMessage(recipientName, subject)|
    ensures SubjectOf(GetMessage(recipientName, subject), recipientName) == subject
  {
    var head := MessageHead(recipientName);
    var body := GetMessage(recipientName, subject);
    assert body == head + subject + SentenceClose;
    assert body[|head|..|body| - |SentenceClose|] == subject;
  }

  /** Two messages to the same recipient that are equal name the same subject. */
  lemma MessageDeterminesSubject(recipientName: string, subject1: string, subject2: string)
    requires GetMessage(recipientName, subject1) == GetMessage(recipientName, subject2)
    ensures subject1 == subject2
  {
    MessageSubjectRoundTrip(recipientName, subject1);
    MessageSubjectRoundTrip(recipientName, subject2);
  }

  /** Two completion messages to the same recipient are equal only for the same subject. */
  lemma CompletionMessageNamesSubject(sender: User, recipient: User, subject1: string, subject2: string)
    requires CompletionMessage(sender, recipient, subject1) == CompletionMessage(sender, recipient, subject2)
    ensures subject1 == subject2
  {
    MessageDeterminesSubject(recipient.displayName, subject1, subject2);
  }

  /** The message is the prefix line, the greeting line, an empty line and the subject sentence. */
  lemma MessageLayout(recipientName: string, subject: string)
    ensures var body := GetMessage(recipientName, subject);
            var greeting := GreetingOpen + recipientName + GreetingClose;
            var p := |MessagePrefix|;
            var g := p + 1 + |greeting|;
            && |body| == g + 2 + |SentenceOpen| + |subject| + |SentenceClose|
            && body[..p] == MessagePrefix
            && body[p] == '\n'
            && body[p + 1..g] == greeting
            && body[g] == '\n' && body[g + 1] == '\n'
            && body[g + 2..] == SentenceOpen + subject + SentenceClose
  {
    var greeting := GreetingOpen + recipientName + GreetingClose;
    var sentence := SentenceOpen + subject + SentenceClose;
    Regroup(MessagePrefix, Eol, GreetingOpen, recipientName, GreetingClose, SentenceOpen, subject, SentenceClose);
    LinesLayout(MessagePrefix, greeting, sentence);
  }

  lemma Regroup(p: string, e: string, go: string, n: string, gc: string, so: string, t: string, sc: string)
    ensures p + e + go + n + gc + e + e + so + t + sc == p + e + (go + n + gc) + e + e + (so + t + sc)
  {
  }

  /** Where the parts of `a + "\n" + b + "\n" + "\n" + c` sit. */
  lemma LinesLayout(a: string, b: string, c: string)
    ensures var t := a + Eol + b + Eol + Eol + c;
            var g := |a| + 1 + |b|;
            && |t| == g + 2 + |c|
            && t[..|a|] == a && t[|a|] == '\n'
            && t[|a| + 1..g] == b
            && t[g] == '\n' && t[g + 1] == '\n'
            && t[g + 2..] == c
  {
    var t := a + Eol + b + Eol + Eol + c;
    assert t == a + ("\n" + b + "\n\n" + c);
  }

  // ---------------------------------------------------------------------------
  // A worked example: a batch of two users.

  function DigestContent(): MailContent {
    MailContent(EmailBundle, "Digest", "Weekly news", "noreply@example.com", 3)
  }

  function DigestServices(owner: User, admin: User, u7: User, u9: User, matches: int, saveOk: bool, addOk: bool): Services {
    Services(map["42" := DigestContent()], map[1 := admin, 3 := owner, 7 := u7, 9 := u9],
             (e: string) => true, "en", matches, saveOk, addOk)
  }

  lemma TwoUsersLoad(store: map<Uid, User>)
    requires 7 in store && 9 in store
    ensures LoadMultiple(store, [7, 9]) == [store[7], store[9]]
  {
    var ids: seq<Uid> := [7, 9];
    assert ids[..1] == [7];
    assert [7][..0] == [];
    assert LoadableIds(store, [7]) == [7];
    assert LoadableIds(store, ids) == [7, 9];
  }

  /**
   * Item {mail: "42", users: [7, 9]} for an e-mail content with subject "Digest":
   * two mails, to users 7 and 9, then the last-item query. A message save is
   * attempted exactly when the query finds one row, and then the rest of the call is
   * sendMessage for the owner (user 3) and the subject "Digest".
   */
  lemma TwoUserBatch(owner: User, admin: User, u7: User, u9: User, matches: int, saveOk: bool, addOk: bool)
    ensures var run := ProcessItemRun(DigestServices(owner, admin, u7, u9, matches, saveOk, addOk),
                                      QueueItem(Some("42"), Some([7, 9]), None));
            && run.outcome == Returned
            && CountMails(run.effects) == 2
            && run.effects[..3] == [UserMail(u7, DigestContent()), UserMail(u9, DigestContent()), LastItemQuery("42")]
            && (MessageSaveAttempted(run.effects) <==> matches == 1)
            && (matches == 1 ==> run.effects[3..] == SendMessageEffects(DigestServices(owner, admin, u7, u9, matches, saveOk, addOk),
                                                                        owner, "Digest"))
  {
    var s := DigestServices(owner, admin, u7, u9, matches, saveOk, addOk);
    var data := QueueItem(Some("42"), Some([7, 9]), None);
    assert ReachesSending(s, data);
    TwoUsersLoad(s.users);
    ProcessItemMailCount(s, data);
    MessageSaveAttemptedIff(s, data);
    var run := ProcessItemRun(s, data);
    var mails := UserSends([u7, u9], DigestContent());
    assert mails == [UserMail(u7, DigestContent()), UserMail(u9, DigestContent())];
    assert run.effects == mails + [LastItemQuery("42")] + NotifyPhase(s, DigestContent());
    if matches == 1 {
      OwnerNotified(s, data);
    }
  }
}
