/**
 * The queue worker as an object. Its visible effects on the outside services (mails,
 * the last-item count query, the thread lookup, the two saves and logged errors) are
 * appended to `log` in the order the worker makes them; entity loads, the validator
 * and the default-language lookup only read, and are not logged. Each method states
 * the effects it appends in terms of the functions of MailQueue.
 */
module MailQueueWorker {
  import opened Wrappers
  import opened PhpValues
  import opened MailQueue

  class UserMailQueueProcessor {
    /** The injected services. */
    const services: Services
    /** The logged effects so far, oldest first. */
    var log: seq<Effect>

    constructor (services: Services)
      ensures this.services == services && log == []
    {
      this.services := services;
      log := [];
    }

    /** Handles one queue item. */
    method ProcessItem(data: QueueItem) returns (outcome: Outcome)
      modifies this
      ensures outcome == ProcessItemRun(services, data).outcome
      ensures log == old(log) + ProcessItemRun(services, data).effects
    {
      outcome := Returned;
      if ValidateQueueItem(data) {
        var id := data.mail.value;
        if id !in services.contents {
          // bundle() is called on the NULL that load() returned.
          outcome := Failed(MailContentNotLoaded(id));
          return;
        }
        var content := services.contents[id];
        if content.bundle == EmailBundle {
          ghost var start := log;
          if ArrayTruthy(data.users) {
            SendUserMails(LoadMultiple(services.users, data.users.value), content);
          }
          ghost var done := UserPhase(services, data, content);
          assert log == start + done;
          ghost var afterUsers := log;
          if ArrayTruthy(data.mailAddresses) {
            SendAddressMails(data.mailAddresses.value, content);
          }
          assert log == afterUsers + AddressPhase(services, data, content);
          AppendAssoc(start, done, AddressPhase(services, data, content));
          done := done + AddressPhase(services, data, content);
          var last := LastItem(id);
          AppendAssoc(start, done, [LastItemQuery(id)]);
          done := done + [LastItemQuery(id)];
          ghost var afterQuery := log;
          if last {
            if content.ownerId in services.users {
              SendMessage(services.users[content.ownerId], content.subject);
            }
          }
          assert log == afterQuery + NotifyPhase(services, content);
          AppendAssoc(start, done, NotifyPhase(services, content));
          done := done + NotifyPhase(services, content);
          assert done == ProcessItemRun(services, data).effects;
        }
      }
    }

    /** The `foreach ($users as $user)` loop of processItem. */
    method SendUserMails(users: seq<User>, content: MailContent)
      modifies this
      ensures log == old(log) + UserSends(users, content)
    {
      var i := 0;
      while i < |users|
        invariant 0 <= i <= |users|
        invariant log == old(log) + UserSends(users[..i], content)
      {
        SendMail(users[i].email, users[i].langcode, content, None);
        AppendAssoc(old(log), UserSends(users[..i], content), [UserMail(users[i], content)]);
        UserSendsStep(users, i, content);
        i := i + 1;
      }
      assert users[..i] == users;
    }

    /** The `foreach ($data['user_mail_addresses'] as $mail_address)` loop of processItem. */
    method SendAddressMails(addrs: seq<MailAddress>, content: MailContent)
      modifies this
      ensures log == old(log) + AddressSends(services.isValidEmail, addrs, services.defaultLangcode, content)
    {
      var isValid, langcode := services.isValidEmail, services.defaultLangcode;
      var i := 0;
      while i < |addrs|
        invariant 0 <= i <= |addrs|
        invariant log == old(log) + AddressSends(isValid, addrs[..i], langcode, content)
      {
        AddressSendsStep(isValid, addrs, i, langcode, content);
        if isValid(addrs[i].emailAddress) {
          SendMail(addrs[i].emailAddress, langcode, content, addrs[i].displayName);
          AppendAssoc(old(log), AddressSends(isValid, addrs[..i], langcode, content), [AddressMail(addrs[i], langcode, content)]);
        }
        i := i + 1;
      }
      assert addrs[..i] == addrs;
    }

    /** Sends one mail with the content's subject, message and reply-to. */
    method SendMail(userMail: string, langcode: string, content: MailContent, displayName: Option<string>)
      modifies this
      ensures log == old(log) + [Mail(MailFor(userMail, langcode, content, displayName))]
    {
      var context := MailContext(content.subject, content.message, None);
      if NullableStringTruthy(displayName) {
        context := context.(displayName := displayName);
      }
      log := log + [Mail(MailRequest(MailModule, MailKey, userMail, langcode, context, content.replyTo))];
    }

    /** Asks the queue table how many rows match this mail, and decides whether this item is the last. */
    method LastItem(mailId: ContentId) returns (last: bool)
      modifies this
      ensures last <==> services.queueMatches == 1
      ensures log == old(log) + [LastItemQuery(mailId)]
    {
      log := log + [LastItemQuery(mailId)];
      var results := services.queueMatches;
      last := IsLastItem(results);
    }

    /** Sends the batch owner a private message from user 1 saying the batch is done. */
    method SendMessage(recipient: User, subject: string)
      modifies this
      ensures log == old(log) + SendMessageEffects(services, recipient, subject)
    {
      if StringTruthy(subject) && AdminUid in services.users {
        var sender := services.users[AdminUid];
        var members: KeyedArray<Uid, User> := [];
        members := Put(members, sender.id, sender);
        members := Put(members, recipient.id, recipient);
        log := log + [ThreadForMembers(Keys(members))];
        var message := CompletionMessage(sender, recipient, subject);
        ghost var afterThread := log;
        AttemptSave(MessageSave(message, services.messageSaveOk), services.messageSaveOk);
        AppendAssoc(old(log), [ThreadForMembers(Keys(members))], SaveAttempt(MessageSave(message, services.messageSaveOk), services.messageSaveOk));
        AttemptSave(ThreadAdd(message, services.threadSaveOk), services.threadSaveOk);
        AppendAssoc(old(log), [ThreadForMembers(Keys(members))] + SaveAttempt(MessageSave(message, services.messageSaveOk), services.messageSaveOk),
                    SaveAttempt(ThreadAdd(message, services.threadSaveOk), services.threadSaveOk));
      }
    }

    /** One `try { ...->save(); } catch (EntityStorageException $e) { log error }` block. */
    method AttemptSave(save: Effect, ok: bool)
      modifies this
      ensures log == old(log) + SaveAttempt(save, ok)
    {
      log := log + [save];
      if !ok {
        log := log + [ErrorLogged(LogChannel)];
      }
    }
  }

  lemma AppendAssoc<T>(a: seq<T>, b: seq<T>, c: seq<T>)
    ensures (a + b) + c == a + (b + c)
  {
  }
}
