/**
 * The observer subscription of SmsDatabase: checkCreateObserver registers one
 * SmsObserver on a cursor over the unread inbox rows, and
 * checkUnregisterObserver unregisters it and closes the cursor once no number
 * has an active notification. The observer field is never reset, so after an
 * unregistration no later checkCreateObserver registers again.
 */
module ObserverSubscription {
  import opened Wrappers
  import opened NotificationIds
  import opened Platform
  import opened SmsObserver

  /** The calls the subscription makes on its cursor. */
  datatype CursorCall = RegisterObserver | UnregisterObserver | Close

  /** The exception raised when the cursor query returned null. */
  datatype Exception = NullPointerException

  /** A record of cursor calls in which the only registration, if any, is the first call. */
  ghost predicate AtMostOneRegistration(calls: seq<CursorCall>)
  {
    forall i :: 0 < i < |calls| ==> calls[i] != RegisterObserver
  }

  /** The number of registrations in a record of cursor calls. */
  function Registrations(calls: seq<CursorCall>): nat
  {
    if calls == [] then 0
    else (if calls[0] == RegisterObserver then 1 else 0) + Registrations(calls[1..])
  }

  /** A record in which the only registration is the first call holds at most one registration. */
  lemma {:induction false} AtMostOneRegistrationCount(calls: seq<CursorCall>)
    requires AtMostOneRegistration(calls)
    ensures Registrations(calls) <= 1
    ensures Registrations(calls) == 1 <==> calls != [] && calls[0] == RegisterObserver
  {
    if calls != [] {
      NoRegistrationCount(calls[1..]);
    }
  }

  /** A record without RegisterObserver counts no registration. */
  lemma {:induction false} NoRegistrationCount(calls: seq<CursorCall>)
    requires forall i :: 0 <= i < |calls| ==> calls[i] != RegisterObserver
    ensures Registrations(calls) == 0
    decreases |calls|
  {
    if calls != [] {
      NoRegistrationCount(calls[1..]);
    }
  }

  /** The observer state of one SmsDatabase object. */
  class Database {
    var observer: Observer?
    /** Whether observerCursor holds a cursor (the query may return null). */
    var hasCursor: bool
    var cursorCalls: seq<CursorCall>

    ghost predicate Valid()
      reads this
    {
      && (observer == null ==> !hasCursor)
      && (hasCursor <==> cursorCalls != [])
      && (cursorCalls != [] ==> cursorCalls[0] == RegisterObserver)
      && AtMostOneRegistration(cursorCalls)
    }

    constructor ()
      ensures Valid()
      ensures observer == null && !hasCursor && cursorCalls == []
    {
      observer := null;
      hasCursor := false;
      cursorCalls := [];
    }

    /**
     * checkCreateObserver: nothing once an observer exists; otherwise create the
     * observer, query the cursor and register the observer on it. A null cursor
     * ends in a NullPointerException with the observer already set.
     */
    method CheckCreateObserver(idManager: IdManager, notifications: NotificationManager, cursorReturned: bool)
      returns (outcome: Outcome<Exception>)
      requires Valid()
      modifies this
      ensures Valid()
      ensures old(observer) != null ==>
        && outcome == Pass
        && observer == old(observer) && hasCursor == old(hasCursor) && cursorCalls == old(cursorCalls)
      ensures old(observer) == null ==>
        && observer != null && fresh(observer)
        && observer.idManager == idManager && observer.notifications == notifications
        && hasCursor == cursorReturned
      ensures old(observer) == null && cursorReturned ==> outcome == Pass && cursorCalls == [RegisterObserver]
      ensures old(observer) == null && !cursorReturned ==> outcome == Fail(NullPointerException) && cursorCalls == []
    {
      if observer != null {
        return Pass;
      }
      observer := new Observer(idManager, notifications);
      hasCursor := cursorReturned;
      if !hasCursor {
        return Fail(NullPointerException);
      }
      cursorCalls := cursorCalls + [RegisterObserver];
      outcome := Pass;
    }

    /**
     * checkUnregisterObserver: nothing without an observer or while some number
     * has an active notification; otherwise unregister the observer and close the
     * cursor. The observer field keeps its value.
     */
    method CheckUnregisterObserver() returns (outcome: Outcome<Exception>)
      requires Valid()
      modifies this`cursorCalls
      ensures Valid()
      ensures observer == null ==> outcome == Pass && cursorCalls == old(cursorCalls)
      ensures observer != null && observer.idManager.active != {} ==>
        outcome == Pass && cursorCalls == old(cursorCalls)
      ensures observer != null && observer.idManager.active == {} && hasCursor ==>
        outcome == Pass && cursorCalls == old(cursorCalls) + [UnregisterObserver, Close]
      ensures observer != null && observer.idManager.active == {} && !hasCursor ==>
        outcome == Fail(NullPointerException) && cursorCalls == old(cursorCalls)
    {
      if observer == null {
        return Pass;
      }
      var active := observer.GetActiveNotificationPhoneNumbers();
      if |active| > 0 {
        return Pass;
      }
      if !hasCursor {
        return Fail(NullPointerException);
      }
      cursorCalls := cursorCalls + [UnregisterObserver, Close];
      outcome := Pass;
    }
  }
}
