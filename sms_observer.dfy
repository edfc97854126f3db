/**
 * SmsObserver: the inbox-change callback. On every change it counts the unread
 * messages of the numbers with an active notification and dismisses the
 * notification of each number whose count is 0.
 */
module SmsObserver {
  import opened Wrappers
  import opened NotificationIds
  import opened Platform
  import opened SmsDatabase

  /** The entries of a count map whose count is 0: the numbers onChange dismisses. */
  function ZeroCountNumbers(counts: map<string, int>): set<string>
  {
    set p | p in counts && counts[p] == 0
  }

  /** A sequence in which no element occurs twice. */
  predicate NoDuplicates(s: seq<string>)
  {
    forall i, j :: 0 <= i < j < |s| ==> s[i] != s[j]
  }

  /**
   * The cancel calls that dismissing the numbers in the given order makes, one
   * per number, each with the number's looked-up id.
   */
  function CancelLog(ids: map<string, int>, order: seq<string>): (log: seq<NotificationCall>)
    ensures |log| == |order|
    ensures forall i :: 0 <= i < |order| ==> log[i] == Cancelled(LookupId(ids, order[i]))
  {
    if order == [] then []
    else CancelLog(ids, order[..|order| - 1]) + [Cancelled(LookupId(ids, order[|order| - 1]))]
  }

  /** Dismissing one more number appends its cancel call to the log. */
  lemma CancelLogAppend(log0: seq<NotificationCall>, ids: map<string, int>, order: seq<string>, p: string)
    ensures log0 + CancelLog(ids, order) + [Cancelled(LookupId(ids, p))] == log0 + CancelLog(ids, order + [p])
  {
    assert (order + [p])[..|order|] == order;
  }

  /** An enumeration of three distinct numbers has length 3 and holds c at one position. */
  lemma EnumerationOfThree(a: string, b: string, c: string, order: seq<string>) returns (i: int)
    requires a != b && a != c && b != c
    requires Enumerates(order, {a, b, c})
    ensures |order| == 3 && 0 <= i < 3 && order[i] == c
    ensures forall j :: 0 <= j < 3 && j != i ==> order[j] != c
  {
    assert |{a, b, c}| == 3;
    assert c in order;
    i :| 0 <= i < |order| && order[i] == c;
  }

  /** Three calls, one of them known and the others unknown, in any order. */
  lemma ThreeCalls(log: seq<NotificationCall>, i: int, unknown: NotificationCall, known: NotificationCall)
    requires |log| == 3 && 0 <= i < 3 && log[i] == known
    requires forall j :: 0 <= j < 3 && j != i ==> log[j] == unknown
    ensures multiset(log) == multiset{unknown, unknown, known}
  {
    if i == 0 {
      assert log == [known, unknown, unknown];
    } else if i == 1 {
      assert log == [unknown, known, unknown];
    } else {
      assert log == [unknown, unknown, known];
    }
  }

  /**
   * Dismissing three numbers in any order when only c has an id cancels the
   * sentinel twice and c's id once: numbers without an id are not lost.
   */
  lemma CancelLogOfUnknownNumbers(a: string, b: string, c: string, id: int, order: seq<string>)
    requires a != b && a != c && b != c
    requires Enumerates(order, {a, b, c})
    ensures multiset(CancelLog(map[c := id], order)) ==
      multiset{Cancelled(NotFound), Cancelled(NotFound), Cancelled(id)}
  {
    var i := EnumerationOfThree(a, b, c, order);
    var log := CancelLog(map[c := id], order);
    ThreeCalls(log, i, Cancelled(NotFound), Cancelled(id));
  }

  /** order lists every number of the set exactly once. */
  ghost predicate Enumerates(order: seq<string>, numbers: set<string>)
  {
    && NoDuplicates(order)
    && |order| == |numbers|
    && forall q :: q in order <==> q in numbers
  }

  /** A number not yet in the set extends its enumeration by one. */
  lemma EnumeratesAppend(order: seq<string>, numbers: set<string>, p: string)
    requires Enumerates(order, numbers) && p !in numbers
    ensures Enumerates(order + [p], numbers + {p})
  {
  }

  /** Handling one more map entry: the dismissed part grows by it exactly when its count is 0. */
  lemma ZeroCountStep(counts: map<string, int>, pending: set<string>, p: string)
    requires p in pending && pending <= counts.Keys
    ensures counts[p] == 0 ==>
      && p !in ZeroCountNumbers(counts) - pending
      && ZeroCountNumbers(counts) - (pending - {p}) == ZeroCountNumbers(counts) - pending + {p}
    ensures counts[p] != 0 ==>
      ZeroCountNumbers(counts) - (pending - {p}) == ZeroCountNumbers(counts) - pending
  {
  }

  /** Removing numbers one at a time removes their union. */
  lemma RemoveOneMore(active: set<string>, dismissed: set<string>, p: string)
    ensures active - dismissed - {p} == active - (dismissed + {p})
  {
  }

  /**
   * Only numbers that were asked about are dismissed: a sender the scan adds
   * to the map has a count of at least 1.
   */
  lemma DismissedWereActive(active: set<string>, cursor: Option<seq<string>>)
    ensures ZeroCountNumbers(UnreadCounts(active, cursor)) <= active
  {
  }

  /** A null cursor counts as no unread message at all: every active number is dismissed. */
  lemma NullCursorDismissesAll(active: set<string>)
    ensures ZeroCountNumbers(UnreadCounts(active, None)) == active
  {
  }

  /**
   * With a cursor from the counting query, a number is dismissed exactly when it
   * is active and has no unread message in the store.
   */
  lemma DismissedIffNoUnread(store: seq<Row>, active: set<string>, addresses: seq<string>, p: string)
    requires IsCountQueryResult(store, addresses)
    ensures p in ZeroCountNumbers(UnreadCounts(active, Some(addresses))) <==>
      p in active && UnreadFrom(store, p) == []
  {
    UnreadCountsMatchStore(store, active, addresses);
    if p in active {
      assert p in UnreadCounts(active, Some(addresses));
    }
  }

  /** The observer, with the registry it reads and the notification manager it cancels on. */
  class Observer {
    const idManager: IdManager
    const notifications: NotificationManager

    constructor (idManager: IdManager, notifications: NotificationManager)
      ensures this.idManager == idManager && this.notifications == notifications
    {
      this.idManager := idManager;
      this.notifications := notifications;
    }

    /** getActiveNotificationPhoneNumbers(): the registry's active set. */
    method GetActiveNotificationPhoneNumbers() returns (numbers: set<string>)
      ensures numbers == idManager.active
    {
      numbers := idManager.GetActiveNotificationPhoneNumbers();
    }

    /**
     * dismissNotification(phoneNumber): cancel the id the non-creating lookup
     * gives (NotFound when the number has none) and drop the number from the
     * active set. No id is created.
     */
    method DismissNotification(phoneNumber: string)
      requires idManager.Valid()
      modifies idManager, notifications
      ensures idManager.Valid()
      ensures idManager.ids == old(idManager.ids) && idManager.nextId == old(idManager.nextId)
      ensures idManager.active == old(idManager.active) - {phoneNumber}
      ensures notifications.log == old(notifications.log) + [Cancelled(LookupId(old(idManager.ids), phoneNumber))]
    {
      var id := idManager.GetIdMaybeCreate(phoneNumber, false);
      notifications.Cancel(id);
      idManager.RemoveNotificationPhoneNumber(phoneNumber);
    }

    /**
     * The loop of onChange over the entries of the count map: every entry whose
     * count is 0 is dismissed, once, in the map's iteration order. That order is
     * the ghost result order; the log grows by one cancel per entry, in it.
     */
    method DismissZeroCounts(counts: map<string, int>) returns (ghost order: seq<string>)
      requires idManager.Valid()
      modifies idManager, notifications
      ensures idManager.Valid()
      ensures idManager.ids == old(idManager.ids) && idManager.nextId == old(idManager.nextId)
      ensures idManager.active == old(idManager.active) - ZeroCountNumbers(counts)
      ensures Enumerates(order, ZeroCountNumbers(counts))
      ensures notifications.log == old(notifications.log) + CancelLog(idManager.ids, order)
    {
      ghost var zeros := ZeroCountNumbers(counts);
      ghost var active0 := idManager.active;
      ghost var log0 := notifications.log;
      var pending := counts.Keys;
      ghost var dismissed: set<string> := {};
      order := [];
      while pending != {}
        invariant pending <= counts.Keys
        invariant dismissed == zeros - pending
        invariant idManager.ids == old(idManager.ids) && idManager.nextId == old(idManager.nextId)
        invariant idManager.active == active0 - dismissed
        invariant Enumerates(order, dismissed)
        invariant notifications.log == log0 + CancelLog(idManager.ids, order)
        decreases pending
      {
        var p :| p in pending;
        ZeroCountStep(counts, pending, p);
        if counts[p] == 0 {
          CancelLogAppend(log0, idManager.ids, order, p);
          EnumeratesAppend(order, dismissed, p);
          RemoveOneMore(active0, dismissed, p);
          DismissNotification(p);
          order := order + [p];
          dismissed := dismissed + {p};
        }
        pending := pending - {p};
      }
    }

    /**
     * onChange: count unread messages over the active numbers and dismiss the
     * entries whose count is 0. Exactly those numbers leave the active set, all
     * of them were active, and each gets one cancel call with its id, in the
     * ghost order; the id map is untouched.
     */
    method OnChange(cursor: Option<seq<string>>) returns (ghost order: seq<string>)
      requires idManager.Valid()
      modifies idManager, notifications
      ensures idManager.Valid()
      ensures idManager.ids == old(idManager.ids) && idManager.nextId == old(idManager.nextId)
      ensures var dismissed := ZeroCountNumbers(UnreadCounts(old(idManager.active), cursor));
        && dismissed <= old(idManager.active)
        && idManager.active == old(idManager.active) - dismissed
        && Enumerates(order, dismissed)
        && notifications.log == old(notifications.log) + CancelLog(idManager.ids, order)
      ensures var counts := UnreadCounts(old(idManager.active), cursor);
        forall p :: p in idManager.active ==> p in counts && counts[p] != 0
    {
      var phoneNumbers := GetActiveNotificationPhoneNumbers();
      var counts := GetUnreadCounts(phoneNumbers, cursor);
      DismissedWereActive(phoneNumbers, cursor);
      order := DismissZeroCounts(counts);
    }
  }
}
