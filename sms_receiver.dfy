/**
 * SmsReceiver: the notification shown for an incoming message (its text built
 * from the sender's unread messages and the new one, and its three quick-reply
 * actions), and the handling of a quick reply.
 */
module SmsReceiver {
  import opened Wrappers
  import opened NotificationIds
  import opened Platform
  import opened SmsDatabase

  const AutoResponseIntent: string := "com.github.messageme.AUTO_RESPONSE"
  const DestinationAddressKey: string := "destinationAddress"
  const BodyKey: string := "body"
  const NotificationIdKey: string := "notificationId"
  /** What follows every unread message in the notification text. */
  const NotificationMessageSeparator: string := "   "
  /** Texts longer than this are truncated. */
  const MaxTextLength: nat := 255
  /** The default of getIntExtra when the reply intent holds no notification id. */
  const MissingNotificationId: int := -1

  // ---------------------------------------------------------------------------
  // Notification text

  /** The unread messages, each followed by the separator, in order. */
  function UnreadPrefix(unread: seq<string>): string
  {
    if unread == [] then ""
    else UnreadPrefix(unread[..|unread| - 1]) + unread[|unread| - 1] + NotificationMessageSeparator
  }

  /** The text before truncation: the unread prefix, then the current message. */
  function JoinedText(unread: seq<string>, smsMessage: string): string
  {
    UnreadPrefix(unread) + smsMessage
  }

  /** Read from the front: the first unread message, the separator, then the rest of the text. */
  lemma {:induction false} UnreadPrefixCons(u: string, rest: seq<string>)
    ensures UnreadPrefix([u] + rest) == u + NotificationMessageSeparator + UnreadPrefix(rest)
    decreases |rest|
  {
    var all := [u] + rest;
    if rest == [] {
      assert all[..|all| - 1] == [];
    } else {
      assert all[..|all| - 1] == [u] + rest[..|rest| - 1];
      UnreadPrefixCons(u, rest[..|rest| - 1]);
    }
  }

  /**
   * The joined text, read from the front: just the current message when no
   * message is unread, else the first unread message, the separator, and the
   * joined text of the others.
   */
  lemma JoinedTextShape(unread: seq<string>, smsMessage: string)
    ensures unread == [] ==> JoinedText(unread, smsMessage) == smsMessage
    ensures unread != [] ==>
      JoinedText(unread, smsMessage) ==
      unread[0] + NotificationMessageSeparator + JoinedText(unread[1..], smsMessage)
  {
    if unread != [] {
      assert unread == [unread[0]] + unread[1..];
      UnreadPrefixCons(unread[0], unread[1..]);
    }
  }

  /**
   * String.lastIndexOf for a one-character string: the largest index at or
   * below fromIndex (clamped to the last index) holding c, or -1.
   */
  function LastIndexOf(s: string, c: char, fromIndex: int): (k: int)
    ensures -1 <= k < |s|
    ensures 0 <= k ==> k <= fromIndex && s[k] == c
    ensures forall j :: k < j <= fromIndex && 0 <= j < |s| ==> s[j] != c
    decreases if fromIndex < 0 then 0 else fromIndex + 1
  {
    if fromIndex >= |s| then LastIndexOf(s, c, |s| - 1)
    else if fromIndex < 0 then -1
    else if s[fromIndex] == c then fromIndex
    else LastIndexOf(s, c, fromIndex - 1)
  }

  /** The exception StringBuilder.delete raises. */
  datatype TextError = StringIndexOutOfBounds(start: int)

  /**
   * StringBuilder.delete(start, end): end is clamped to the length; a negative
   * start, or one past end, raises the exception.
   */
  function Delete(s: string, start: int, end: int): (r: Result<string, TextError>)
    ensures r.Failure? <==> start < 0 || start > (if end > |s| then |s| else end)
    ensures r.Success? && end >= |s| ==> r.value == s[..start]
  {
    var e := if end > |s| then |s| else end;
    if start < 0 || start > e then Failure(StringIndexOutOfBounds(start))
    else Success(s[..start] + s[e..])
  }

  /** The character of a decimal digit. */
  function DigitChar(d: int): char
    requires 0 <= d < 10
  {
    ('0' as int + d) as char
  }

  /** Integer-to-string conversion for a non-negative int. */
  function DecimalString(n: nat): (s: string)
    ensures |s| >= 1
    ensures forall i :: 0 <= i < |s| ==> '0' <= s[i] <= '9'
    ensures n != 0 ==> s[0] != '0'
  {
    if n < 10 then [DigitChar(n)] else DecimalString(n / 10) + [DigitChar(n % 10)]
  }

  /** The number a string of decimal digits denotes. */
  function DecimalValue(s: string): int
  {
    if s == [] then 0 else DecimalValue(s[..|s| - 1]) * 10 + (s[|s| - 1] as int - '0' as int)
  }

  /** The count in the elision marker reads back as the number written. */
  lemma {:induction false} DecimalRoundTrip(n: nat)
    ensures DecimalValue(DecimalString(n)) == n
  {
    if n >= 10 {
      var s := DecimalString(n);
      assert s[..|s| - 1] == DecimalString(n / 10);
      DecimalRoundTrip(n / 10);
    }
  }

  /** The marker appended to a truncated text: " ... (" then the count, then ")". */
  function Elision(count: nat): string
  {
    " ... (" + DecimalString(count) + ")"
  }

  /**
   * buildNotificationText(unreadMessages, smsMessage): the joined text; when it
   * is longer than MaxTextLength, cut at the last space at or before index
   * MaxTextLength and followed by the elision marker with the count of unread
   * messages plus one.
   */
  function NotificationText(unread: seq<string>, smsMessage: string): Result<string, TextError>
  {
    var joined := JoinedText(unread, smsMessage);
    if |joined| <= MaxTextLength then Success(joined)
    else
      match Delete(joined, LastIndexOf(joined, ' ', MaxTextLength), |joined|)
      case Failure(e) => Failure(e)
      case Success(kept) => Success(kept + Elision(|unread| + 1))
  }

  /**
   * What the notification text is: the joined text when it fits; otherwise an
   * exception exactly when no space lies at or before index MaxTextLength, and
   * else the joined text up to (not including) the last such space, then the
   * elision marker. The kept part never exceeds MaxTextLength characters.
   */
  lemma NotificationTextShape(unread: seq<string>, smsMessage: string)
    ensures var joined := JoinedText(unread, smsMessage);
      var r := NotificationText(unread, smsMessage);
      && (|joined| <= MaxTextLength ==> r == Success(joined))
      && (|joined| > MaxTextLength ==>
            (r.Failure? <==> forall k :: 0 <= k <= MaxTextLength ==> joined[k] != ' '))
      && (|joined| > MaxTextLength && r.Success? ==>
            exists k :: 0 <= k <= MaxTextLength && joined[k] == ' '
              && (forall j :: k < j <= MaxTextLength ==> joined[j] != ' ')
              && r.value == joined[..k] + Elision(|unread| + 1))
      && (r.Success? ==> |r.value| <= MaxTextLength + |Elision(|unread| + 1)|)
  {
    var joined := JoinedText(unread, smsMessage);
    if |joined| > MaxTextLength {
      var k := LastIndexOf(joined, ' ', MaxTextLength);
      if 0 <= k {
        assert joined[k] == ' ';
      }
    }
  }

  /** With one unread "hi", the message "there" is shown as "hi   there". */
  lemma TwoMessagesText()
    ensures NotificationText(["hi"], "there") == Success("hi   there")
  {
    var unread := ["hi"];
    assert unread[..0] == [];
    assert UnreadPrefix(unread) == "hi   ";
    assert JoinedText(unread, "there") == "hi   there";
  }

  /** The StringBuilder loop of buildNotificationText. */
  method BuildNotificationText(unreadMessages: seq<string>, smsMessage: string)
    returns (text: Result<string, TextError>)
    ensures text == NotificationText(unreadMessages, smsMessage)
  {
    var builder := "";
    for i := 0 to |unreadMessages|
      invariant builder == UnreadPrefix(unreadMessages[..i])
    {
      assert unreadMessages[..i + 1][..i] == unreadMessages[..i];
      builder := builder + unreadMessages[i];
      builder := builder + NotificationMessageSeparator;
    }
    assert unreadMessages[..|unreadMessages|] == unreadMessages;
    builder := builder + smsMessage;
    if |builder| > MaxTextLength {
      var lastSpace := LastIndexOf(builder, ' ', MaxTextLength);
      var deleted := Delete(builder, lastSpace, |builder|);
      if deleted.Failure? {
        return Failure(deleted.error);
      }
      builder := deleted.value;
      builder := builder + Elision(|unreadMessages| + 1);
    }
    text := Success(builder);
  }

  // ---------------------------------------------------------------------------
  // Quick replies

  /** The handler onReceive picks for an intent. */
  datatype Handler = SendHandler | IncomingSmsHandler

  /** onReceive: quick replies go to handleSendIntent, everything else is an incoming message. */
  function OnReceive(intent: Intent): Handler
  {
    if intent.action == AutoResponseIntent then SendHandler else IncomingSmsHandler
  }

  /** buildQuickResponseIntent: a reply intent carrying destination, body and notification id. */
  function BuildQuickResponseIntent(destinationAddress: string, body: string, notificationId: int): Intent
  {
    Intent(AutoResponseIntent, map[
      DestinationAddressKey := StringExtra(destinationAddress),
      BodyKey := StringExtra(body),
      NotificationIdKey := IntExtra(notificationId)])
  }

  /** What handleSendIntent does: send body to destination, then cancel the notification id. */
  datatype SendRequest = SendRequest(destination: Option<string>, body: Option<string>, cancelId: int)

  /** handleSendIntent: read destination, body and notification id (default -1) back from the intent. */
  function HandleSendIntent(intent: Intent): SendRequest
  {
    SendRequest(
      GetStringExtra(intent, DestinationAddressKey),
      GetStringExtra(intent, BodyKey),
      GetIntExtra(intent, NotificationIdKey, MissingNotificationId))
  }

  /**
   * A reply intent is dispatched to handleSendIntent, which sends the stored body
   * to the stored destination and cancels exactly the stored notification id.
   */
  lemma QuickResponseRoundTrip(destinationAddress: string, body: string, notificationId: int)
    ensures OnReceive(BuildQuickResponseIntent(destinationAddress, body, notificationId)) == SendHandler
    ensures HandleSendIntent(BuildQuickResponseIntent(destinationAddress, body, notificationId))
      == SendRequest(Some(destinationAddress), Some(body), notificationId)
  {
  }

  /**
   * handleSendIntent cancels the intent's int under the notification-id key;
   * it falls back to -1 only when there is none.
   */
  lemma CancelIdFallback(intent: Intent)
    ensures NotificationIdKey in intent.extras && intent.extras[NotificationIdKey].IntExtra? ==>
      HandleSendIntent(intent).cancelId == intent.extras[NotificationIdKey].i
    ensures !(NotificationIdKey in intent.extras && intent.extras[NotificationIdKey].IntExtra?) ==>
      HandleSendIntent(intent).cancelId == -1
  {
  }

  /** The three reply texts of the notification's actions. */
  datatype QuickResponses = QuickResponses(yes: string, time: string, no: string)

  /** The notification's actions, in button order: yes, time, no. */
  function QuickActions(phoneNumber: string, notificationId: int, responses: QuickResponses): seq<Intent>
  {
    [ BuildQuickResponseIntent(phoneNumber, responses.yes, notificationId),
      BuildQuickResponseIntent(phoneNumber, responses.time, notificationId),
      BuildQuickResponseIntent(phoneNumber, responses.no, notificationId) ]
  }

  /**
   * Each of the three actions replies to the sender with its own text and
   * cancels the id the notification was posted under.
   */
  lemma QuickActionsCarryId(phoneNumber: string, notificationId: int, responses: QuickResponses)
    ensures var actions := QuickActions(phoneNumber, notificationId, responses);
      && |actions| == 3
      && (forall a :: a in actions ==>
            OnReceive(a) == SendHandler
            && HandleSendIntent(a).destination == Some(phoneNumber)
            && HandleSendIntent(a).cancelId == notificationId)
      && HandleSendIntent(actions[0]).body == Some(responses.yes)
      && HandleSendIntent(actions[1]).body == Some(responses.time)
      && HandleSendIntent(actions[2]).body == Some(responses.no)
  {
    QuickResponseRoundTrip(phoneNumber, responses.yes, notificationId);
    QuickResponseRoundTrip(phoneNumber, responses.time, notificationId);
    QuickResponseRoundTrip(phoneNumber, responses.no, notificationId);
  }

  // ---------------------------------------------------------------------------
  // Showing the notification

  /** The receiver, with the registry it draws ids from and the notification manager it posts to. */
  class Receiver {
    const idManager: IdManager
    const notifications: NotificationManager

    constructor (idManager: IdManager, notifications: NotificationManager)
      ensures this.idManager == idManager && this.notifications == notifications
    {
      this.idManager := idManager;
      this.notifications := notifications;
    }

    /**
     * showNotification: nothing for a sender without a contact name; otherwise
     * read the sender's unread messages, take (or create) the sender's id, and
     * post the notification under that id with the built text and the three
     * reply actions carrying the same id. The id is taken before the text is
     * built, so a text that raises leaves the new id recorded and posts nothing.
     */
    method ShowNotification(phoneNumber: string, smsMessage: string, contactName: Option<string>,
                            unreadCursor: Option<seq<Row>>, responses: QuickResponses)
      returns (outcome: Outcome<TextError>)
      requires idManager.Valid()
      modifies idManager, notifications
      ensures idManager.Valid()
      ensures idManager.active == old(idManager.active)
      ensures contactName.None? ==>
        && outcome == Pass
        && idManager.ids == old(idManager.ids) && idManager.nextId == old(idManager.nextId)
        && notifications.log == old(notifications.log)
      ensures contactName.Some? ==>
        var (table, id) := Assign(IdTable(old(idManager.ids), old(idManager.nextId)), phoneNumber);
        var unread := if unreadCursor.Some? then Bodies(unreadCursor.value) else [];
        var text := NotificationText(unread, smsMessage);
        && IdTable(idManager.ids, idManager.nextId) == table
        && (text.Failure? ==> outcome == Fail(text.error) && notifications.log == old(notifications.log))
        && (text.Success? ==>
              && outcome == Pass
              && notifications.log == old(notifications.log) +
                   [Posted(id, Notification(contactName.value, text.value, QuickActions(phoneNumber, id, responses)))])
    {
      if contactName.None? {
        return Pass;
      }
      var unreadMessages := GetUnread(unreadCursor);
      var currentNotificationId := idManager.GetId(phoneNumber);
      var positiveReplyIntent := BuildQuickResponseIntent(phoneNumber, responses.yes, currentNotificationId);
      var timeReplyIntent := BuildQuickResponseIntent(phoneNumber, responses.time, currentNotificationId);
      var negativeReplyIntent := BuildQuickResponseIntent(phoneNumber, responses.no, currentNotificationId);
      var text := BuildNotificationText(unreadMessages, smsMessage);
      if text.Failure? {
        return Fail(text.error);
      }
      var actions := [positiveReplyIntent, timeReplyIntent, negativeReplyIntent];
      notifications.Notify(currentNotificationId, Notification(contactName.value, text.value, actions));
      outcome := Pass;
    }
  }
}
