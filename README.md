# messagememe notification core, in Dafny

messagememe is an Android SMS notifier. When a text arrives from a known
contact it posts one notification per sender. The notification shows the
sender's unread messages and the new one, and has three quick-reply buttons
("yes", "time", "no"). A reply button sends its text back and clears the
notification. When the inbox changes, an observer counts the unread messages
of every number with an active notification. It dismisses the notifications
whose count has dropped to zero.

This project models that bookkeeping and proves properties of it:

- `NotificationIds` — the notification-id registry. It maps phone numbers to
  ids, which come from a counter that starts at 0, and keeps a set of numbers
  with an active notification. The pure `IdTable`/`Assign` part specifies the
  id map. The class `IdManager` holds the same state in mutable fields. Its
  methods are the registry's operations.
- `Platform` — the Android collaborators the core uses. Intents are records of
  typed extras. The notification manager is a log of its `notify`/`cancel`
  calls.
- `SmsDatabase` — the inbox queries. The content provider is a sequence of
  rows (address, date, body, read). A cursor is `None` when the query returns
  null, otherwise the rows or addresses it hands back. Predicates say which
  cursors a query may return.
- `SmsObserver` — `onChange` and `dismissNotification`.
- `ObserverSubscription` — the `checkCreateObserver`/`checkUnregisterObserver`
  state machine. Its cursor calls are recorded as a log.
- `SmsReceiver` — the notification text (join, truncate, elide), the
  quick-reply intent round trip, and `showNotification`.
- `Wrappers` — `Option`, `Result`, `Outcome`.

`removeNotificationPhoneNumber` is modelled as its interface documents it: it
only removes the number from the active set, and the number keeps its id.
Other points follow the code as written:

- `checkCreateObserver` never resets `observer`. So after an unregistration it
  never registers again.
- A null cursor in `checkCreateObserver` or `checkUnregisterObserver` raises a
  `NullPointerException`. In `checkCreateObserver` the observer is already set
  when that happens.
- A text longer than 255 characters with no space at or before index 255 makes
  `StringBuilder.delete(-1, …)` raise. Before that, `showNotification` has
  already taken (and possibly created) the sender's id. Nothing is posted.
- Nothing in the modelled files calls `addNotificationPhoneNumber`, so no
  path in the source makes a number active. The operation is modelled all the
  same.

Files with source lines (all under
`messagememeProject/messagememe/src/main/java/com/github/messageme/`):
`StaticVarNotificationIdManager.java`, `interfaces/NotificationIdManager.java`,
`SmsDatabase.java`, `SmsObserver.java`, `SmsReceiver.java`.

## Model

| member | source | states |
|---|---|---|
| NotificationIds.EmptyTable | messagememeProject/messagememe/src/main/java/com/github/messageme/StaticVarNotificationIdManager.java:12-13 | the id map starts empty with the counter at 0, and this state satisfies the registry invariant |
| NotificationIds.Assign | messagememeProject/messagememe/src/main/java/com/github/messageme/StaticVarNotificationIdManager.java:16-24 | getId on the pure table: the stored id with the table unchanged, or the old counter recorded for the number and the counter incremented; its properties are stated by AssignKeepsWellFormed, AssignFreshIsUnused and AssignIdempotent |
| NotificationIds.LookupId | messagememeProject/messagememe/src/main/java/com/github/messageme/interfaces/NotificationIdManager.java:22-28 | the non-creating lookup: the stored id, or -1 when the number has none; LookupSentinel states that -1 then means exactly "no id" |
| NotificationIds.AssignKeepsWellFormed | messagememeProject/messagememe/src/main/java/com/github/messageme/StaticVarNotificationIdManager.java:16-24 | getId keeps the invariant (ids in [0, nextId), injective, every id below nextId handed out); the returned id is non-negative and recorded for the number; every other number keeps its entry |
| NotificationIds.AssignFreshIsUnused | messagememeProject/messagememe/src/main/java/com/github/messageme/StaticVarNotificationIdManager.java:22-23 | a number without an id gets one no other number holds, and the counter grows by exactly 1 |
| NotificationIds.AssignIdempotent | messagememeProject/messagememe/src/main/java/com/github/messageme/StaticVarNotificationIdManager.java:17-20 | a second getId for the same number returns the same id and changes neither map nor counter |
| NotificationIds.LookupSentinel | messagememeProject/messagememe/src/main/java/com/github/messageme/interfaces/NotificationIdManager.java:22-28 | the non-creating lookup returns -1 exactly when the number has no id, and otherwise the id getId would return |
| NotificationIds.AssignAllStable | messagememeProject/messagememe/src/main/java/com/github/messageme/StaticVarNotificationIdManager.java:12-24 | over any run of getId calls the invariant holds, the counter never decreases, the keys are the old keys plus the numbers asked for, and no recorded id ever changes |
| NotificationIds.IdManager.constructor | messagememeProject/messagememe/src/main/java/com/github/messageme/StaticVarNotificationIdManager.java:12-13 | a fresh registry: empty map, counter 0, no active number |
| NotificationIds.IdManager.GetId | messagememeProject/messagememe/src/main/java/com/github/messageme/StaticVarNotificationIdManager.java:16-24 | the new state and the id are Assign of the old state; an existing id is returned with nothing changed; otherwise the old counter is recorded and returned and the counter goes up by 1; the id is non-negative; the active set is untouched |
| NotificationIds.IdManager.GetIdMaybeCreate | messagememeProject/messagememe/src/main/java/com/github/messageme/interfaces/NotificationIdManager.java:22-28 | with creation it behaves exactly as getId; without, it returns the stored id or -1 (exactly when there is none) and changes nothing |
| NotificationIds.IdManager.GetActiveNotificationPhoneNumbers | messagememeProject/messagememe/src/main/java/com/github/messageme/interfaces/NotificationIdManager.java:30-34 | returns the active set and changes no state |
| NotificationIds.IdManager.AddNotificationPhoneNumber | messagememeProject/messagememe/src/main/java/com/github/messageme/interfaces/NotificationIdManager.java:36-39 | the active set becomes old set plus the number; nothing else changes |
| NotificationIds.IdManager.RemoveNotificationPhoneNumber | messagememeProject/messagememe/src/main/java/com/github/messageme/interfaces/NotificationIdManager.java:41-45 | the active set becomes old set minus the number; ids and counter are untouched |
| Platform.GetStringExtra | messagememeProject/messagememe/src/main/java/com/github/messageme/SmsReceiver.java:85-86 | a string extra is returned exactly when the key holds one, otherwise null |
| Platform.GetIntExtra | messagememeProject/messagememe/src/main/java/com/github/messageme/SmsReceiver.java:100 | the int stored under the key, or the default when the key holds no int |
| Platform.NotificationManager.Notify | messagememeProject/messagememe/src/main/java/com/github/messageme/SmsReceiver.java:152 | notify(id, notification) appends exactly one Posted call with that id and notification to the log |
| Platform.NotificationManager.Cancel | messagememeProject/messagememe/src/main/java/com/github/messageme/SmsObserver.java:53 | cancel(id) appends exactly one Cancelled call with that id to the log |
| SmsDatabase.UnreadFrom | messagememeProject/messagememe/src/main/java/com/github/messageme/SmsDatabase.java:55-61 | the rows matching "read = 0 AND address = ?": each such row as often as it is stored, and no other row |
| SmsDatabase.Bodies | messagememeProject/messagememe/src/main/java/com/github/messageme/SmsDatabase.java:69-75 | one body per cursor row, position by position |
| SmsDatabase.GetUnread | messagememeProject/messagememe/src/main/java/com/github/messageme/SmsDatabase.java:51-83 | an empty list for a null cursor, otherwise the body of every cursor row in cursor order |
| SmsDatabase.BodiesPermutation | messagememeProject/messagememe/src/main/java/com/github/messageme/SmsDatabase.java:56-62 | rows returned in another order (date ties) give the same multiset of bodies |
| SmsDatabase.UnreadQueryMessages | messagememeProject/messagememe/src/main/java/com/github/messageme/SmsDatabase.java:55-83 | for a cursor from getUnread's query: one message per unread row from the sender, each row unread and from that sender, ascending date order, and the bodies exactly those of the matching rows |
| SmsDatabase.MarkRead | messagememeProject/messagememe/src/main/java/com/github/messageme/SmsDatabase.java:41-49 | rows with read = 0 and the given address become read; every other row is unchanged; the store keeps its length |
| SmsDatabase.MarkReadClearsSender | messagememeProject/messagememe/src/main/java/com/github/messageme/SmsDatabase.java:44-48 | after markRead the sender has no unread row |
| SmsDatabase.MarkReadKeepsOthers | messagememeProject/messagememe/src/main/java/com/github/messageme/SmsDatabase.java:44-48 | markRead leaves every other sender's unread rows exactly as they were |
| SmsDatabase.MarkReadIdempotent | messagememeProject/messagememe/src/main/java/com/github/messageme/SmsDatabase.java:44-48 | a second markRead for the same sender changes nothing |
| SmsDatabase.UnreadAddresses | messagememeProject/messagememe/src/main/java/com/github/messageme/SmsDatabase.java:97-104 | the address of every unread row, in store order; UnreadAddressCount states that each address occurs as often as that sender has unread rows |
| SmsDatabase.UnreadAddressCount | messagememeProject/messagememe/src/main/java/com/github/messageme/SmsDatabase.java:97-104 | each address occurs in the "read = 0" query as often as that sender has unread rows |
| SmsDatabase.UnreadCounts | messagememeProject/messagememe/src/main/java/com/github/messageme/SmsDatabase.java:96-137 | every requested number is a key; a null cursor gives exactly the requested numbers, all 0; otherwise the keys are the requested numbers plus the cursor's addresses, each mapped to its number of cursor rows; a key that was not requested has count at least 1 |
| SmsDatabase.UnreadCountsMatchStore | messagememeProject/messagememe/src/main/java/com/github/messageme/SmsDatabase.java:96-137 | for a cursor from the counting query, each key's count is that sender's number of unread rows in the store |
| SmsDatabase.GetUnreadCounts | messagememeProject/messagememe/src/main/java/com/github/messageme/SmsDatabase.java:106-131 | the seeding loop and the counting loop compute exactly UnreadCounts |
| SmsObserver.DismissedWereActive | messagememeProject/messagememe/src/main/java/com/github/messageme/SmsObserver.java:36-42 | every number with count 0 was one of the numbers asked about |
| SmsObserver.NullCursorDismissesAll | messagememeProject/messagememe/src/main/java/com/github/messageme/SmsDatabase.java:106-113 | with a null cursor every active number has count 0, so all are dismissed |
| SmsObserver.DismissedIffNoUnread | messagememeProject/messagememe/src/main/java/com/github/messageme/SmsObserver.java:36-44 | with a cursor from the counting query, a number is dismissed exactly when it is active and has no unread row in the store |
| SmsObserver.CancelLog | messagememeProject/messagememe/src/main/java/com/github/messageme/SmsObserver.java:51-53 | dismissing numbers in a given order makes one cancel call per number, in that order, each with the number's non-creating lookup (-1 when it has no id) |
| SmsObserver.CancelLogOfUnknownNumbers | messagememeProject/messagememe/src/main/java/com/github/messageme/SmsObserver.java:39-53 | three numbers dismissed in any order, of which only one has an id, give two cancels of -1 and one of that id: numbers without an id are neither lost nor merged |
| SmsObserver.Observer.constructor | messagememeProject/messagememe/src/main/java/com/github/messageme/SmsObserver.java:26-31 | the observer keeps the registry it is given |
| SmsObserver.Observer.GetActiveNotificationPhoneNumbers | messagememeProject/messagememe/src/main/java/com/github/messageme/SmsObserver.java:59-62 | the registry's active set |
| SmsObserver.Observer.DismissNotification | messagememeProject/messagememe/src/main/java/com/github/messageme/SmsObserver.java:47-57 | cancels the id of the non-creating lookup (-1 when none) and removes only that number from the active set; no id is created |
| SmsObserver.Observer.DismissZeroCounts | messagememeProject/messagememe/src/main/java/com/github/messageme/SmsObserver.java:39-44 | exactly the zero-count entries are dismissed: they leave the active set; the ghost visit order lists each of them exactly once; the log is the old log followed by one cancel per entry, in that order, with the entry's looked-up id; the id map is untouched |
| SmsObserver.Observer.OnChange | messagememeProject/messagememe/src/main/java/com/github/messageme/SmsObserver.java:33-45 | the dismissed numbers are the zero-count entries over the active set, all of them active; the active set loses exactly them; the log gains one cancel each, with its looked-up id, in the ghost visit order that lists each exactly once; no number left active has count 0; ids are untouched |
| ObserverSubscription.AtMostOneRegistrationCount | messagememeProject/messagememe/src/main/java/com/github/messageme/SmsDatabase.java:142-155 | a cursor-call log whose only registration is its first call holds at most one registration |
| ObserverSubscription.Database.constructor | messagememeProject/messagememe/src/main/java/com/github/messageme/SmsDatabase.java:37-39 | no observer, no cursor, no cursor call |
| ObserverSubscription.Database.CheckCreateObserver | messagememeProject/messagememe/src/main/java/com/github/messageme/SmsDatabase.java:139-157 | nothing once an observer exists; otherwise a fresh observer on the given registry, and one registration on the cursor, or a NullPointerException with no call when the query returns null; at most one registration is ever made |
| ObserverSubscription.Database.CheckUnregisterObserver | messagememeProject/messagememe/src/main/java/com/github/messageme/SmsDatabase.java:159-175 | nothing without an observer or while a number is active; otherwise unregister then close, or a NullPointerException when there is no cursor; the observer is never cleared |
| SmsReceiver.UnreadPrefixCons | messagememeProject/messagememe/src/main/java/com/github/messageme/SmsReceiver.java:158-161 | the unread prefix reads from the front as first body, separator, prefix of the rest |
| SmsReceiver.JoinedTextShape | messagememeProject/messagememe/src/main/java/com/github/messageme/SmsReceiver.java:155-163 | the joined text is each unread body followed by three spaces, in order, then the current message, and nothing else |
| SmsReceiver.LastIndexOf | messagememeProject/messagememe/src/main/java/com/github/messageme/SmsReceiver.java:166 | -1 or an index no later than the start index holding the character, with no such character between it and the start index |
| SmsReceiver.Delete | messagememeProject/messagememe/src/main/java/com/github/messageme/SmsReceiver.java:167 | raises exactly for a negative start or a start past the clamped end; deleting to the end keeps the prefix before start |
| SmsReceiver.DecimalString | messagememeProject/messagememe/src/main/java/com/github/messageme/SmsReceiver.java:168 | the count in the marker is written with decimal digits only and no leading zero |
| SmsReceiver.DecimalRoundTrip | messagememeProject/messagememe/src/main/java/com/github/messageme/SmsReceiver.java:168 | the digits of the count read back as the count |
| SmsReceiver.NotificationText | messagememeProject/messagememe/src/main/java/com/github/messageme/SmsReceiver.java:155-174 | buildNotificationText as a value: join, then lastIndexOf, delete and the elision marker when the text is too long; NotificationTextShape states what the result is, and BuildNotificationText is proved equal to it |
| SmsReceiver.NotificationTextShape | messagememeProject/messagememe/src/main/java/com/github/messageme/SmsReceiver.java:163-171 | a joined text of at most 255 characters is used as is; a longer one raises exactly when no space lies at or before index 255, and otherwise is cut before the last such space and followed by " ... (n+1)"; the kept part is at most 255 characters long and the result at most 255 plus the marker |
| SmsReceiver.TwoMessagesText | messagememeProject/messagememe/src/main/java/com/github/messageme/SmsReceiver.java:155-174 | unread "hi" and new message "there" give "hi   there" |
| SmsReceiver.BuildNotificationText | messagememeProject/messagememe/src/main/java/com/github/messageme/SmsReceiver.java:155-174 | the StringBuilder loop, truncation and elision compute exactly NotificationText |
| SmsReceiver.OnReceive | messagememeProject/messagememe/src/main/java/com/github/messageme/SmsReceiver.java:49-57 | intents of the auto-response action go to handleSendIntent, all others to handleIncomingSms; QuickResponseRoundTrip states that every reply intent takes the first branch |
| SmsReceiver.BuildQuickResponseIntent | messagememeProject/messagememe/src/main/java/com/github/messageme/SmsReceiver.java:255-261 | a reply intent with the auto-response action and the destination, body and notification id as extras; QuickResponseRoundTrip states that handleSendIntent reads all three back |
| SmsReceiver.HandleSendIntent | messagememeProject/messagememe/src/main/java/com/github/messageme/SmsReceiver.java:82-101 | the destination and body the reply is sent with, and the id it cancels (-1 by default); QuickResponseRoundTrip and CancelIdFallback state what it returns |
| SmsReceiver.QuickResponseRoundTrip | messagememeProject/messagememe/src/main/java/com/github/messageme/SmsReceiver.java:255-261 | a reply intent goes to handleSendIntent, which sends the stored body to the stored destination and cancels exactly the stored id |
| SmsReceiver.CancelIdFallback | messagememeProject/messagememe/src/main/java/com/github/messageme/SmsReceiver.java:100 | the cancelled id is the intent's int extra, and -1 only when it has none |
| SmsReceiver.QuickActions | messagememeProject/messagememe/src/main/java/com/github/messageme/SmsReceiver.java:126-133 | the three reply intents of a notification, in button order yes, time, no, all for the sender and the same id; QuickActionsCarryId states this |
| SmsReceiver.QuickActionsCarryId | messagememeProject/messagememe/src/main/java/com/github/messageme/SmsReceiver.java:126-142 | the three actions, in button order, reply to the sender with the yes, time and no texts, and all cancel the same id |
| SmsReceiver.Receiver.constructor | messagememeProject/messagememe/src/main/java/com/github/messageme/SmsReceiver.java:46 | the receiver keeps the registry and notification manager it is given |
| SmsReceiver.Receiver.ShowNotification | messagememeProject/messagememe/src/main/java/com/github/messageme/SmsReceiver.java:104-153 | nothing without a contact name; otherwise the sender's id is taken as getId does, and either the text raises and nothing is posted, or one notification is posted under that id with that title, the built text and the three reply actions carrying the same id |

## Left out

- The PDU bundle loop of `handleIncomingSms` (SmsReceiver.java:59-80) is not modelled. It is platform parsing. `ShowNotification` models one call of `showNotification`. An exception from a call ends the loop, and the loop logs it.
- Contact name, contact id and contact photo lookups (SmsReceiver.java:176-231) are not modelled. The contact name is an `Option<string>` input. The photo does not affect ids, text or actions.
- `scaleBitmap` is not modelled: it is float arithmetic in a bitmap library.
- The reply texts come from string resources. They are an input (`QuickResponses`).
- `PendingIntent` request codes and flags are not modelled. The time action passes the notification id where flags are expected. The model assumes each button carries the intent built for it. The platform's reuse of a matching pending intent, with its earlier extras, is not modelled.
- Icons, `Notification.Builder` details, logging and `Toast` are not modelled. `LOG_SMS_ONLY` is a constant `false`, so its `Toast` branch is dead code.
- SmsReceiver.HandleSendIntent: the platform's `sendTextMessage` is a recorded request, not a transport. Its rejection of a null or empty destination or body, which would raise before the cancel, is not modelled.
- Sending a reply and the cancel call happen in `handleSendIntent`, which works through the platform. The model states them as the `SendRequest` it computes. It does not append the cancel to a `NotificationManager` log.
- `SmsSender.java` duplicates `handleSendIntent` and is not part of this model.
- `writeSentMessage` (SmsDatabase.java:85-94) is a bare content-provider insert and is not modelled.
- The SQL and content URIs are not modelled. The provider is a sequence of rows. What a query returns is given as a cursor argument, and predicates (`IsUnreadQueryResult`, `IsCountQueryResult`) describe the valid cursors. The sort by date is the provider's job, so ordering is a premise, not something `GetUnread` computes.
- Null addresses or bodies inside a cursor are not modelled.
- NotificationIds.IdManager.GetId: integers are unbounded. The Java `int` counter, which would wrap after 2^31 ids, is not modelled. The same goes for the per-sender `int[]` counts in `getUnreadCounts`.
- Java strings count UTF-16 code units; the model counts Dafny characters.
- NotificationIds.IdManager: in the source `idMap` and `nextId` are `static`, so every StaticVarNotificationIdManager (one per SmsReceiver instance, SmsReceiver.java:46) shares one map and one counter. In the model they are shared only when every receiver and observer is given the same `IdManager` object.
- The order in which `onChange` visits the `HashMap` entries is not modelled. It is a ghost result (`order`) that lists each dismissed number once; the log is exact relative to that order.
- Concurrency between broadcasts and observer callbacks is not modelled. Each entry point is one atomic sequential method.
- The one-method `NotificationIdManager` and `SmsDatabase` interfaces under `com/github/messageme/com/github/messageme/interfaces/` add no logic. Their `getId` is the one modelled here.
