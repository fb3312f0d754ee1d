/**
 * The user e-mail queue worker ("user_email_queue") as values: the queue item,
 * the mail content it points to, the services the worker talks to, and the
 * ordered list of effects one call of processItem has on those services.
 *
 * The worker class in MailQueueWorker performs these effects step by step;
 * the functions here state what the whole sequence is.
 */
module MailQueue {
  import opened Wrappers
  import opened PhpValues

  type Uid = nat
  type ContentId = string

  /** A user entity, as far as the worker reads it. */
  datatype User = User(id: Uid, email: string, langcode: string, displayName: string)

  /** A queue storage entity of some bundle, holding the mail that a batch sends. */
  datatype MailContent = MailContent(
    bundle: string,
    subject: string,
    message: string,
    replyTo: string,
    ownerId: Uid)

  /** One entry of `user_mail_addresses`: a raw address and an optional display name. */
  datatype MailAddress = MailAddress(emailAddress: string, displayName: Option<string>)

  /**
   * The queue item's data array. A key that is absent and a key holding NULL
   * both read as None: `isset` and truthiness treat them alike.
   */
  datatype QueueItem = QueueItem(
    mail: Option<ContentId>,
    users: Option<seq<Uid>>,
    mailAddresses: Option<seq<MailAddress>>)

  /**
   * The services injected into the worker, reduced to what one call observes:
   * entity storage for queue storage entities and users, the e-mail validator,
   * the default language, the result of the last-item count query, and whether
   * each of the two private-message saves succeeds.
   */
  datatype Services = Services(
    contents: map<ContentId, MailContent>,
    users: map<Uid, User>,
    isValidEmail: string -> bool,
    defaultLangcode: string,
    queueMatches: int,
    messageSaveOk: bool,
    threadSaveOk: bool)

  /** The user storage returns each user under its own id. */
  predicate UsersKeyedById(s: Services) {
    forall k :: k in s.users ==> s.users[k].id == k
  }

  /** The `context` parameter of the mail; `display_name` is only set for a truthy name. */
  datatype MailContext = MailContext(subject: string, message: string, displayName: Option<string>)

  /** One call of the mail manager's mail(). */
  datatype MailRequest = MailRequest(
    moduleName: string,
    key: string,
    to: string,
    langcode: string,
    context: MailContext,
    replyTo: string)

  /** A private message entity as created by sendMessage. */
  datatype PrivateMessage = PrivateMessage(owner: Uid, body: string, format: string)

  /** What a call does to the outside world, in order. */
  datatype Effect =
    | Mail(request: MailRequest)
    | LastItemQuery(mailId: ContentId)
    | ThreadForMembers(members: seq<Uid>)
    | MessageSave(message: PrivateMessage, saved: bool)
    | ThreadAdd(message: PrivateMessage, saved: bool)
    | ErrorLogged(channel: string)

  /** Loading a missing queue storage entity makes the call on it throw. */
  datatype Failure = MailContentNotLoaded(id: ContentId)

  datatype Outcome = Returned | Failed(failure: Failure)

  datatype Run = Run(outcome: Outcome, effects: seq<Effect>)

  const EmailBundle := "email"
  const MailModule := "system"
  const MailKey := "action_send_email"
  const LogChannel := "user_email_queue"
  const MessageFormat := "basic_html"
  /** User 1, the administrator, sends the completion message. */
  const AdminUid: Uid := 1

  // ---------------------------------------------------------------------------
  // validateQueueItem

  /**
   * The item names a mail and at least one recipient list. Only presence is
   * checked (`isset`): an empty list still counts as given.
   */
  predicate ValidateQueueItem(data: QueueItem): (ok: bool)
    ensures ok ==> data.mail.Some?
    ensures ok ==> data.users.Some? || data.mailAddresses.Some?
    ensures data.mail.Some? && (data.users.Some? || data.mailAddresses.Some?) ==> ok
  {
    data.mail.Some? && (data.users.Some? || data.mailAddresses.Some?)
  }

  // ---------------------------------------------------------------------------
  // Loading users

  /**
   * The ids loadMultiple finds: each id of `ids` that the store holds, once,
   * in the order of its first occurrence.
   */
  function LoadableIds(store: map<Uid, User>, ids: seq<Uid>): (r: seq<Uid>)
    ensures forall x :: x in r <==> x in ids && x in store
    ensures Distinct(r)
    decreases |ids|
  {
    if ids == [] then []
    else
      var init, x := ids[..|ids| - 1], ids[|ids| - 1];
      assert ids == init + [x];
      var found := LoadableIds(store, init);
      if x in store && x !in init then found + [x] else found
  }

  /** The users loadMultiple returns, in the order of their ids. */
  function LoadMultiple(store: map<Uid, User>, ids: seq<Uid>): (users: seq<User>)
    ensures |users| == |LoadableIds(store, ids)|
    ensures forall i :: 0 <= i < |users| ==> users[i] == store[LoadableIds(store, ids)[i]]
  {
    var found := LoadableIds(store, ids);
    seq(|found|, i requires 0 <= i < |found| => store[found[i]])
  }

  // ---------------------------------------------------------------------------
  // sendMail

  /** The mail() call sendMail makes for one recipient. */
  function MailFor(to: string, langcode: string, content: MailContent, displayName: Option<string>): (m: MailRequest)
    ensures m.moduleName == MailModule && m.key == MailKey
    ensures m.to == to && m.langcode == langcode && m.replyTo == content.replyTo
    ensures m.context.subject == content.subject && m.context.message == content.message
    ensures m.context.displayName.Some? <==> NullableStringTruthy(displayName)
    ensures m.context.displayName.Some? ==> m.context.displayName == displayName
  {
    var context := MailContext(content.subject, content.message,
                               if NullableStringTruthy(displayName) then displayName else None);
    MailRequest(MailModule, MailKey, to, langcode, context, content.replyTo)
  }

  /** The mail sent to a loaded user: their address, their language, no display name. */
  function UserMail(u: User, content: MailContent): Effect {
    Mail(MailFor(u.email, u.langcode, content, None))
  }

  /** The mail sent to a raw address: the default language and the entry's display name. */
  function AddressMail(a: MailAddress, langcode: string, content: MailContent): Effect {
    Mail(MailFor(a.emailAddress, langcode, content, a.displayName))
  }

  /** One mail per user, in order. */
  function UserSends(users: seq<User>, content: MailContent): (r: seq<Effect>)
    ensures |r| == |users|
    ensures forall i :: 0 <= i < |r| ==> r[i] == UserMail(users[i], content)
  {
    if users == [] then [] else [UserMail(users[0], content)] + UserSends(users[1..], content)
  }

  /**
   * The entries whose address the validator accepts, in order: each such entry as
   * often as it is listed, and no other entry.
   */
  function ValidAddresses(isValid: string -> bool, addrs: seq<MailAddress>): (r: seq<MailAddress>)
    ensures |r| <= |addrs|
    ensures forall a {:trigger multiset(r)[a]} :: multiset(r)[a] == if isValid(a.emailAddress) then multiset(addrs)[a] else 0
  {
    if addrs == [] then []
    else
      assert addrs == [addrs[0]] + addrs[1..];
      if isValid(addrs[0].emailAddress) then [addrs[0]] + ValidAddresses(isValid, addrs[1..])
      else ValidAddresses(isValid, addrs[1..])
  }

  /** Filtering keeps the order: the entries of a list, then those of the next. */
  lemma {:induction false} ValidAddressesAppend(isValid: string -> bool, a: seq<MailAddress>, b: seq<MailAddress>)
    ensures ValidAddresses(isValid, a + b) == ValidAddresses(isValid, a) + ValidAddresses(isValid, b)
  {
    if a == [] {
      assert a + b == b;
    } else {
      assert (a + b)[0] == a[0];
      assert (a + b)[1..] == a[1..] + b;
      ValidAddressesAppend(isValid, a[1..], b);
    }
  }

  /** The loop over `user_mail_addresses`: a mail for each entry that validates, none for the others. */
  function AddressSends(isValid: string -> bool, addrs: seq<MailAddress>, langcode: string, content: MailContent): (r: seq<Effect>)
    ensures |r| == |ValidAddresses(isValid, addrs)|
  {
    if addrs == [] then []
    else if isValid(addrs[0].emailAddress) then
      [AddressMail(addrs[0], langcode, content)] + AddressSends(isValid, addrs[1..], langcode, content)
    else AddressSends(isValid, addrs[1..], langcode, content)
  }

  /** The i-th mail of the address loop goes to the i-th entry that validates. */
  lemma {:induction false} AddressSendsAt(isValid: string -> bool, addrs: seq<MailAddress>, langcode: string, content: MailContent, i: nat)
    requires i < |ValidAddresses(isValid, addrs)|
    ensures AddressSends(isValid, addrs, langcode, content)[i]
         == AddressMail(ValidAddresses(isValid, addrs)[i], langcode, content)
  {
    if !isValid(addrs[0].emailAddress) {
      AddressSendsAt(isValid, addrs[1..], langcode, content, i);
    } else if i > 0 {
      AddressSendsAt(isValid, addrs[1..], langcode, content, i - 1);
    }
  }

  /** One more turn of the address loop: a mail for the next entry if it validates. */
  lemma AddressSendsStep(isValid: string -> bool, addrs: seq<MailAddress>, i: nat, langcode: string, content: MailContent)
    requires i < |addrs|
    ensures AddressSends(isValid, addrs[..i + 1], langcode, content)
         == AddressSends(isValid, addrs[..i], langcode, content)
            + if isValid(addrs[i].emailAddress) then [AddressMail(addrs[i], langcode, content)] else []
  {
    assert addrs[..i + 1] == addrs[..i] + [addrs[i]];
    assert [addrs[i]][1..] == [];
    AddressSendsAppend(isValid, addrs[..i], [addrs[i]], langcode, content);
  }

  /** One more turn of the user loop: a mail for the next user. */
  lemma UserSendsStep(users: seq<User>, i: nat, content: MailContent)
    requires i < |users|
    ensures UserSends(users[..i + 1], content) == UserSends(users[..i], content) + [UserMail(users[i], content)]
  {
    assert users[..i + 1] == users[..i] + [users[i]];
    UserSendsAppend(users[..i], [users[i]], content);
  }

  lemma {:induction false} UserSendsAppend(a: seq<User>, b: seq<User>, content: MailContent)
    ensures UserSends(a + b, content) == UserSends(a, content) + UserSends(b, content)
  {
    if a == [] {
      assert a + b == b;
    } else {
      assert (a + b)[1..] == a[1..] + b;
      UserSendsAppend(a[1..], b, content);
    }
  }

  lemma {:induction false} AddressSendsAppend(isValid: string -> bool, a: seq<MailAddress>, b: seq<MailAddress>, langcode: string, content: MailContent)
    ensures AddressSends(isValid, a + b, langcode, content)
         == AddressSends(isValid, a, langcode, content) + AddressSends(isValid, b, langcode, content)
  {
    if a == [] {
      assert a + b == b;
    } else {
      assert (a + b)[0] == a[0];
      assert (a + b)[1..] == a[1..] + b;
      AddressSendsAppend(isValid, a[1..], b, langcode, content);
    }
  }

  // ---------------------------------------------------------------------------
  // lastItem

  /** The decision lastItem takes on the count of matching queue rows: `!($results !== 1)`. */
  function IsLastItem(results: int): (last: bool)
    ensures last <==> results == 1
  {
    !(results != 1)
  }

  // ---------------------------------------------------------------------------
  // getMessage

  const MessagePrefix := "<strong>(This message is automatically generated)</strong>"
  /** PHP_EOL on the platforms the site runs on. */
  const Eol := "\n"
  const GreetingOpen := "Dear "
  const GreetingClose := ","
  const SentenceOpen := "A background process sending e-mail "
  const SentenceClose := " has just finished."

  /** Everything before the subject: the prefix line, the greeting line and an empty line. */
  function MessageHead(recipientName: string): string {
    MessagePrefix + Eol + GreetingOpen + recipientName + GreetingClose + Eol + Eol + SentenceOpen
  }

  /** The body of the completion message for a recipient and a batch subject. */
  function GetMessage(recipientName: string, subject: string): (body: string)
    ensures |body| == |MessageHead(recipientName)| + |subject| + |SentenceClose|
    ensures body[..|MessagePrefix|] == MessagePrefix
    ensures body[|body| - |SentenceClose|..] == SentenceClose
  {
    MessageHead(recipientName) + subject + SentenceClose
  }

  /** Reads the subject back out of a message addressed to `recipientName`. */
  function SubjectOf(body: string, recipientName: string): string
    requires |MessageHead(recipientName)| + |SentenceClose| <= |body|
  {
    body[|MessageHead(recipientName)|..|body| - |SentenceClose|]
  }

  // ---------------------------------------------------------------------------
  // sendMessage

  /**
   * A save inside try/catch: the save is attempted once and never retried; when it
   * throws, exactly one error is logged on the worker's channel and the call goes on.
   */
  function SaveAttempt(save: Effect, ok: bool): (r: seq<Effect>)
    ensures |r| == if ok then 1 else 2
    ensures r[0] == save
    ensures !ok ==> r[1] == ErrorLogged(LogChannel)
  {
    [save] + (if ok then [] else [ErrorLogged(LogChannel)])
  }

  /**
   * The `$members` array: the sender under its id, then the recipient under its id.
   * When both have the same id, the recipient takes the sender's place.
   */
  function ThreadMembers(sender: User, recipient: User): (members: KeyedArray<Uid, User>)
    ensures DistinctKeys(members)
    ensures Keys(members) == if recipient.id == sender.id then [sender.id] else [sender.id, recipient.id]
  {
    Put(Put([], sender.id, sender), recipient.id, recipient)
  }

  /**
   * The private message created for the recipient: owned by the sender, in
   * `basic_html`, carrying the completion text for the recipient's display name.
   */
  function CompletionMessage(sender: User, recipient: User, subject: string): (pm: PrivateMessage)
    ensures pm.owner == sender.id && pm.format == MessageFormat
    ensures pm.body == GetMessage(recipient.displayName, subject)
  {
    PrivateMessage(sender.id, GetMessage(recipient.displayName, subject), MessageFormat)
  }

  /**
   * The effects of sendMessage: nothing when the subject is empty or user 1 does not
   * load; otherwise the thread lookup, the message save and the thread update, each
   * save followed by a logged error when it fails.
   */
  function SendMessageEffects(s: Services, recipient: User, subject: string): (r: seq<Effect>)
    ensures r == [] <==> !StringTruthy(subject) || AdminUid !in s.users
    ensures forall e :: e in r ==> !e.Mail? && !e.LastItemQuery?
  {
    if !StringTruthy(subject) || AdminUid !in s.users then []
    else
      var sender := s.users[AdminUid];
      var pm := CompletionMessage(sender, recipient, subject);
      var lookup := [ThreadForMembers(Keys(ThreadMembers(sender, recipient)))];
      var save := SaveAttempt(MessageSave(pm, s.messageSaveOk), s.messageSaveOk);
      var add := SaveAttempt(ThreadAdd(pm, s.threadSaveOk), s.threadSaveOk);
      assert forall e :: e in save ==> e.MessageSave? || e.ErrorLogged?;
      assert forall e :: e in add ==> e.ThreadAdd? || e.ErrorLogged?;
      lookup + save + add
  }

  // ---------------------------------------------------------------------------
  // processItem

  /** The mails for the `users` key: none unless the array is truthy. */
  function UserPhase(s: Services, data: QueueItem, content: MailContent): seq<Effect> {
    if ArrayTruthy(data.users) then UserSends(LoadMultiple(s.users, data.users.value), content) else []
  }

  /** The mails for the `user_mail_addresses` key: none unless the array is truthy. */
  function AddressPhase(s: Services, data: QueueItem, content: MailContent): seq<Effect> {
    if ArrayTruthy(data.mailAddresses)
    then AddressSends(s.isValidEmail, data.mailAddresses.value, s.defaultLangcode, content)
    else []
  }

  /**
   * The completion message, when this is the last item and the content's owner loads.
   * Something happens exactly when, in addition, the subject is not empty and user 1 loads.
   */
  function NotifyPhase(s: Services, content: MailContent): (r: seq<Effect>)
    ensures r != [] <==> (&& IsLastItem(s.queueMatches) && content.ownerId in s.users
                          && StringTruthy(content.subject) && AdminUid in s.users)
    ensures forall e :: e in r ==> !e.Mail? && !e.LastItemQuery?
  {
    if IsLastItem(s.queueMatches) && content.ownerId in s.users
    then SendMessageEffects(s, s.users[content.ownerId], content.subject)
    else []
  }

  /** One call of processItem: its outcome and its effects, in order. */
  function ProcessItemRun(s: Services, data: QueueItem): (run: Run)
    ensures !ValidateQueueItem(data) ==> run == Run(Returned, [])
    ensures run.outcome.Failed? <==> ValidateQueueItem(data) && data.mail.value !in s.contents
    ensures run.outcome.Failed? ==> run.effects == []
    ensures (ValidateQueueItem(data) && data.mail.value in s.contents
             && s.contents[data.mail.value].bundle != EmailBundle) ==> run == Run(Returned, [])
  {
    if !ValidateQueueItem(data) then Run(Returned, [])
    else
      var id := data.mail.value;
      if id !in s.contents then Run(Failed(MailContentNotLoaded(id)), [])
      else
        var content := s.contents[id];
        if content.bundle != EmailBundle then Run(Returned, [])
        else
          Run(Returned, UserPhase(s, data, content) + AddressPhase(s, data, content)
                        + [LastItemQuery(id)] + NotifyPhase(s, content))
  }
}
