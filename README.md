# User e-mail queue worker, modelled in Dafny

This project models `UserMailQueueProcessor`, the queue worker of the
`social_user` module. It handles items of the `user_email_queue` queue. Each
queue item names a stored mail (a queue storage entity of bundle `email`) and
lists its recipients: user ids under `users`, raw addresses under
`user_mail_addresses`, or both. One call of `processItem`:

1. validates the item;
2. loads the mail content;
3. sends one mail per loaded user and one per raw address that validates;
4. counts the queue rows that still match this mail;
5. if exactly one row matches, sends the mail's owner a private message from
   user 1 saying the batch is done.

The model has five modules:

- `Wrappers` (wrappers.dfy): the `Option` type.
- `PhpValues` (php_values.dfy): PHP truthiness of strings, nullable values and arrays. Also the
  ordered keyed array that `$members[$id] = $user` builds, with its `Put` and `Lookup`.
- `MailQueue` (mail_queue.dfy): the data model and the pure parts of the worker.
  - `ValidateQueueItem`, `IsLastItem` (the comparison in `lastItem`), `MailFor` (the call
    `sendMail` makes) and `GetMessage`.
  - Specification functions that give the effects of one call as a list, in order.
    `ProcessItemRun` gives the outcome and the effects of `processItem`.
    `SendMessageEffects` gives those of `sendMessage`.
- `MailQueueWorker` (mail_queue_worker.dfy): the worker as a class.
  - Its field `log` records the worker's visible effects, in order: the mails, the last-item
    count query, the thread lookup, the message save, adding the message to the thread, and
    logged errors. Entity loads, the validator and the default-language lookup are reads; they
    are not logged.
  - `ProcessItem`, `SendMail`, `LastItem` and `SendMessage` append to `log` step by step.
    The two `foreach` loops are the methods `SendUserMails` and `SendAddressMails`.
    Each method's postcondition equates what it appends with the specification function.
- `MailQueueProperties` (mail_queue_properties.dfy): lemmas about `ProcessItemRun` and
  `SendMessageEffects`. They say which items are skipped and which mails go out, in what
  order. They say when the last-item query runs and when the owner is notified. They also
  describe the layout of the completion message.

The outside services are one `Services` value:

- the stored mail contents and users, as maps;
- the e-mail validator, as a predicate on strings;
- the default language code;
- the number of rows the last-item query counts;
- whether the message save succeeds, and whether the thread save succeeds.

An `Effect` is one of these:

- a mail request;
- the last-item query;
- the thread lookup for a member list;
- the message save, with whether it succeeded;
- adding the message to the thread, with whether that succeeded;
- a logged error.

Behaviour taken from the code:

- Validation only checks that keys are set (`isset`), not that they are non-empty.
  - An item whose `users` is `[]` passes.
  - It sends nothing for that key.
  - It still reaches the last-item check, so it can still trigger the owner's notification
    (`EmptyUsersReachLastItem`).
- If the mail id does not load, the code calls `bundle()` on `NULL`, which throws. The model
  gives this as the outcome `Failed(MailContentNotLoaded(id))` with no effects.
- Truthiness follows PHP. The strings `""` and `"0"` are falsy, for `display_name` and for
  `!empty($subject)`. An array is truthy only when it is non-empty.
- `$members` is keyed by user id. When the owner is user 1, it holds a single member
  (`ThreadMembers`).

## Model

Source paths are relative to the repository root; the worker is
`modules/social_features/social_user/src/Plugin/QueueWorker/UserMailQueueProcessor.php`.

| member | source | states |
|---|---|---|
| `MailQueue.ValidateQueueItem` | modules/social_features/social_user/src/Plugin/QueueWorker/UserMailQueueProcessor.php:283-288 | An accepted item has a mail id and at least one of the two recipient lists. Every item with a mail id and either list set is accepted, even when the list is empty: only presence is checked. With `ValidationChecksPresenceOnly` and the first postcondition of `ProcessItemRun`, a rejected item does nothing. |
| `MailQueue.ProcessItemRun` | modules/social_features/social_user/src/Plugin/QueueWorker/UserMailQueueProcessor.php:113-153 | An invalid item returns with no effects. The call fails exactly when the item is valid and its mail does not load, and then nothing happened. A mail of another bundle than `email` returns with no effects. |
| `MailQueueProperties.ValidationChecksPresenceOnly` | modules/social_features/social_user/src/Plugin/QueueWorker/UserMailQueueProcessor.php:283-288 | An item with a mail id and an empty `users` or `user_mail_addresses` list is valid. An item without a mail id, or with neither list set, is not. |
| `MailQueueProperties.EmptyUsersReachLastItem` | modules/social_features/social_user/src/Plugin/QueueWorker/UserMailQueueProcessor.php:115-150 | An item with `users: []` and no truthy address list passes validation. It sends no mail. Its effects are exactly the last-item query followed by the possible notification. |
| `MailQueue.IsLastItem` | modules/social_features/social_user/src/Plugin/QueueWorker/UserMailQueueProcessor.php:207-210 | The item is the last one exactly when the count of matching queue rows is 1. |
| `MailQueue.MailFor` | modules/social_features/social_user/src/Plugin/QueueWorker/UserMailQueueProcessor.php:167-181 | Every mail uses module `system`, key `action_send_email`, the given address and language, and the content's reply-to, subject and message. The context has `display_name` exactly when a truthy name is given, and then it holds that name. |
| `MailQueue.UserSends` | modules/social_features/social_user/src/Plugin/QueueWorker/UserMailQueueProcessor.php:127-130 | One mail per loaded user, in load order. The i-th goes to the i-th user's address in that user's language, with no display name. |
| `MailQueue.ValidAddresses` | modules/social_features/social_user/src/Plugin/QueueWorker/UserMailQueueProcessor.php:135-136 | Each entry whose address the validator accepts is kept as many times as it is listed, and no other entry is kept. There are never more entries kept than given. |
| `MailQueue.ValidAddressesAppend` | modules/social_features/social_user/src/Plugin/QueueWorker/UserMailQueueProcessor.php:135-140 | The entries kept from two lists, one after the other, are those kept from each list in turn, so the order of the entries is kept. |
| `MailQueue.AddressSends` | modules/social_features/social_user/src/Plugin/QueueWorker/UserMailQueueProcessor.php:134-141 | The address loop sends as many mails as there are entries that validate. |
| `MailQueue.AddressSendsAt` | modules/social_features/social_user/src/Plugin/QueueWorker/UserMailQueueProcessor.php:134-141 | The i-th mail of the address loop goes to the i-th validating entry, in the default language, with that entry's display name. |
| `MailQueue.UserSendsAppend` | modules/social_features/social_user/src/Plugin/QueueWorker/UserMailQueueProcessor.php:127-130 | The mails for two lists of users, one after the other, are the mails for each list in turn. This is the step of the user loop. |
| `MailQueue.AddressSendsAppend` | modules/social_features/social_user/src/Plugin/QueueWorker/UserMailQueueProcessor.php:135-140 | The mails for two lists of addresses, one after the other, are the mails for each list in turn. This is the step of the address loop. |
| `MailQueue.GetMessage` | modules/social_features/social_user/src/Plugin/QueueWorker/UserMailQueueProcessor.php:266-269 | The message starts with the fixed "automatically generated" prefix and ends with the close of the subject sentence. Its length is the head's, plus the subject's, plus the close's. |
| `MailQueue.SendMessageEffects` | modules/social_features/social_user/src/Plugin/QueueWorker/UserMailQueueProcessor.php:221-253 | sendMessage does nothing exactly when the subject is empty (`""` or `"0"`) or user 1 does not load. None of its effects is a mail or a count query. |
| `MailQueue.SaveAttempt` | modules/social_features/social_user/src/Plugin/QueueWorker/UserMailQueueProcessor.php:239-251 | Each save is attempted exactly once. When it throws, exactly one error is logged on channel `user_email_queue`, and nothing else happens. |
| `MailQueue.CompletionMessage` | modules/social_features/social_user/src/Plugin/QueueWorker/UserMailQueueProcessor.php:230-236 | The message is owned by the sender, is in `basic_html`, and carries the `getMessage` text for the recipient's display name. |
| `MailQueueProperties.CompletionMessageNamesSubject` | modules/social_features/social_user/src/Plugin/QueueWorker/UserMailQueueProcessor.php:230-236 | Two completion messages from the same sender to the same recipient are equal only when their subjects are. |
| `MailQueue.NotifyPhase` | modules/social_features/social_user/src/Plugin/QueueWorker/UserMailQueueProcessor.php:144-150 | The notification step does something exactly when the count is 1, the owner loads, the subject is not empty and user 1 loads. None of its effects is a mail or a count query. That the message goes to the owner with the content's subject is stated by `OwnerNotified`. |
| `PhpValues.Put` | modules/social_features/social_user/src/Plugin/QueueWorker/UserMailQueueProcessor.php:225-226 | Assigning into a keyed array keeps its keys distinct. An existing key keeps its position; a new key is appended at the end. |
| `PhpValues.LookupPut` | modules/social_features/social_user/src/Plugin/QueueWorker/UserMailQueueProcessor.php:225-226 | After `$m[$k] = $v`, `$m[$k]` reads `$v` and every other key reads as before. |
| `MailQueue.ThreadMembers` | modules/social_features/social_user/src/Plugin/QueueWorker/UserMailQueueProcessor.php:225-226 | The keys of `$members` are distinct. They are the sender's id then the recipient's, or the sender's alone when the recipient has the sender's id. |
| `MailQueueProperties.ThreadMembersLookup` | modules/social_features/social_user/src/Plugin/QueueWorker/UserMailQueueProcessor.php:225-226 | The recipient is stored under its id. So is the sender, unless the recipient has the sender's id. |
| `MailQueueProperties.SendMessageAttemptsBothSaves` | modules/social_features/social_user/src/Plugin/QueueWorker/UserMailQueueProcessor.php:221-253 | With a non-empty subject and user 1 loaded, the effects are fixed. First the thread lookup for user 1 and the recipient. Then the save of one message owned by user 1, with the completion text in `basic_html`. Then adding that same message to the thread. The second save is attempted whatever the first did. Each failed save adds exactly one logged error. |
| `MailQueueProperties.MessageSubjectRoundTrip` | modules/social_features/social_user/src/Plugin/QueueWorker/UserMailQueueProcessor.php:266-269 | Given the recipient's name, the subject can be read back from the message. |
| `MailQueueProperties.MessageDeterminesSubject` | modules/social_features/social_user/src/Plugin/QueueWorker/UserMailQueueProcessor.php:266-269 | Two equal messages to the same recipient name the same subject. |
| `MailQueueProperties.MessageLayout` | modules/social_features/social_user/src/Plugin/QueueWorker/UserMailQueueProcessor.php:268 | The message consists of the prefix, a line break, "Dear <name>,", two line breaks, and the sentence naming the subject. |
| `MailQueueProperties.CountUserSends` | modules/social_features/social_user/src/Plugin/QueueWorker/UserMailQueueProcessor.php:127-130 | The user loop sends exactly one mail per loaded user. |
| `MailQueueProperties.CountAddressSends` | modules/social_features/social_user/src/Plugin/QueueWorker/UserMailQueueProcessor.php:135-140 | The address loop sends exactly one mail per entry that validates. |
| `MailQueueProperties.NotifyPhaseSendsNoMail` | modules/social_features/social_user/src/Plugin/QueueWorker/UserMailQueueProcessor.php:144-150 | The completion notification counts no mail. |
| `MailQueueProperties.ProcessItemMailCount` | modules/social_features/social_user/src/Plugin/QueueWorker/UserMailQueueProcessor.php:113-153 | The number of mails in one call is the number of loaded users (when `users` is truthy) plus the number of validating addresses (when `user_mail_addresses` is truthy). It is zero for an item that is invalid, whose mail does not load, or whose bundle is not `email`. |
| `MailQueueProperties.UserMailsComeFirst` | modules/social_features/social_user/src/Plugin/QueueWorker/UserMailQueueProcessor.php:122-131 | The call's first effects are the mails to the loaded users, in load order. Each goes to the user's address, in the user's language, with no display name, and uses the content's fields. The mails for the raw addresses come right after them. |
| `MailQueueProperties.AddressMailsAfterUsers` | modules/social_features/social_user/src/Plugin/QueueWorker/UserMailQueueProcessor.php:133-141 | For every item that reaches the loops and has a truthy address list, including one without `users`, the mails right after the user mails are exactly the address loop's mails. That is one per validating entry, in order, in the default language, with the entry's display name. |
| `MailQueueProperties.LoadedUsersAreTheStoredIds` | modules/social_features/social_user/src/Plugin/QueueWorker/UserMailQueueProcessor.php:122-131 | The loaded users are those listed ids that storage holds, each once. An id that does not load gets no mail, and every listed stored id gets one. |
| `MailQueueProperties.InvalidAddressSkipped` | modules/social_features/social_user/src/Plugin/QueueWorker/UserMailQueueProcessor.php:134-141 | An entry whose address fails validation sends nothing. The entries after it are handled as if it were absent. |
| `MailQueueProperties.ValidAddressSent` | modules/social_features/social_user/src/Plugin/QueueWorker/UserMailQueueProcessor.php:134-141 | An entry whose address validates gets one mail in its place in the sequence, in the default language, with its display name. |
| `MailQueueProperties.EveryMailUsesContent` | modules/social_features/social_user/src/Plugin/QueueWorker/UserMailQueueProcessor.php:167-181 | Every mail of a call uses module `system`, key `action_send_email`, and the reply-to, subject and message of the loaded content. |
| `MailQueueProperties.LastItemCheckedIff` | modules/social_features/social_user/src/Plugin/QueueWorker/UserMailQueueProcessor.php:115-144 | The last-item query runs exactly when the item is valid, its mail loads and its bundle is `email`. It runs for that item's mail id. |
| `MailQueueProperties.QueryAfterMails` | modules/social_features/social_user/src/Plugin/QueueWorker/UserMailQueueProcessor.php:122-150 | In a call that reaches the recipient loops, the effects are first the mails (one per loaded user plus one per validating address), then the last-item query for the item's mail id, then only effects that are neither mails nor queries. |
| `MailQueueProperties.MessageSaveAttemptedIff` | modules/social_features/social_user/src/Plugin/QueueWorker/UserMailQueueProcessor.php:144-150 | A save of a private message is attempted exactly when all of these hold: the item reaches the recipient loops, the count is 1, the owner loads, the subject is not empty, and user 1 loads. |
| `MailQueueProperties.OwnerNotified` | modules/social_features/social_user/src/Plugin/QueueWorker/UserMailQueueProcessor.php:143-150 | When a message save is attempted, everything after the last-item query is sendMessage for the content's owner and the content's subject. The saved message carries the completion text for the owner's display name and that subject. |
| `MailQueueProperties.TwoUserBatch` | modules/social_features/social_user/src/Plugin/QueueWorker/UserMailQueueProcessor.php:113-153 | Take item `{mail: "42", users: [7, 9]}` for an `email` mail with subject "Digest". It makes two mails, to users 7 and 9 in that order, then the last-item query for "42". A message save is attempted exactly when the count is 1. Then the rest of the call is sendMessage for the owner (user 3) and the subject "Digest". |
| `MailQueueWorker.UserMailQueueProcessor.constructor` | modules/social_features/social_user/src/Plugin/QueueWorker/UserMailQueueProcessor.php:81-90 | Stores the injected services; nothing has been logged yet. |
| `MailQueueWorker.UserMailQueueProcessor.ProcessItem` | modules/social_features/social_user/src/Plugin/QueueWorker/UserMailQueueProcessor.php:113-153 | The outcome, and the effects appended to the log, are those of `ProcessItemRun`. |
| `MailQueueWorker.UserMailQueueProcessor.SendUserMails` | modules/social_features/social_user/src/Plugin/QueueWorker/UserMailQueueProcessor.php:127-130 | The loop appends `UserSends` of the loaded users. |
| `MailQueueWorker.UserMailQueueProcessor.SendAddressMails` | modules/social_features/social_user/src/Plugin/QueueWorker/UserMailQueueProcessor.php:135-140 | The loop appends `AddressSends` for the validator and the default language. |
| `MailQueueWorker.UserMailQueueProcessor.SendMail` | modules/social_features/social_user/src/Plugin/QueueWorker/UserMailQueueProcessor.php:167-181 | Appends exactly one mail request, the one `MailFor` describes. |
| `MailQueueWorker.UserMailQueueProcessor.LastItem` | modules/social_features/social_user/src/Plugin/QueueWorker/UserMailQueueProcessor.php:192-211 | Appends the count query for the mail id. Returns true exactly when the count is 1. |
| `MailQueueWorker.UserMailQueueProcessor.SendMessage` | modules/social_features/social_user/src/Plugin/QueueWorker/UserMailQueueProcessor.php:221-253 | Appends exactly `SendMessageEffects` for the recipient and subject. |
| `MailQueueWorker.UserMailQueueProcessor.AttemptSave` | modules/social_features/social_user/src/Plugin/QueueWorker/UserMailQueueProcessor.php:239-251 | Appends the save attempt. If the save throws, it also appends one logged error on channel `user_email_queue`. It never propagates the failure. |

## Left out

- The SQL count in `lastItem` (lines 194-207) is an input (`Services.queueMatches`). This leaves out:
  - the escaped `LIKE` patterns and their substring over- and under-counting;
  - races with other workers on the shared `queue` table.
- Mail delivery, entity loading and saving, the e-mail validator and the language manager are
  foreign services. They appear only as inputs and as entries in the effect log.
- Storage `loadMultiple` returns the listed ids that exist, each once, in first-occurrence
  order. It is modelled as `LoadableIds`; storage code is not part of this model.
- Translation `t()` is left out, and so is the markup that placeholders add. The message uses the
  English source strings, with the name and the subject inserted unescaped and without the
  emphasis wrapper of `%subject`.
- `PHP_EOL` is modelled as `"\n"`.
- The exception text passed to the logger is left out; the log records the channel only.
- The constructor's dependency injection and `create()` are plumbing; only the stored services
  are modelled.
- A field whose value is `NULL` (subject, message, reply-to) is modelled as a string. A `NULL`
  subject behaves like `""`.
- A user without an e-mail address is not modelled. The model gives every user a string
  address; the code would raise a type error at `sendMail`.
- `getOwner()` returning `NULL` is not modelled. The code would throw on `->id()`; the model
  identifies the owner by id, and `User::load` of it may fail.
- What `getThreadForMembers` and `addMessage` do inside the messaging service is not modelled.
  Each is one effect.
- Whether mail delivery succeeds is not modelled. The code ignores the result of `mail()`.
- Which ids are equal after PHP's string/integer key conversion is not modelled; ids are
  natural numbers and mail ids are strings.
- What the queue runtime does after `processItem` throws is not modelled.
- A valid item often sets only one of `users` and `user_mail_addresses`. Lines 122 and 134 then
  read a missing key, and PHP raises an undefined-key warning that Drupal's error handler logs.
  Lines 136 and 138 do the same for an address entry without `email_address` or
  `display_name`. The model reads a missing key as `NULL` (a missing display name is `None`)
  and records no effect for the warning.
- The `$recipient instanceof User` test in `sendMessage` always holds for its typed parameter,
  and the model leaves it out.
