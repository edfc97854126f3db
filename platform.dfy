/**
 * The Android collaborators the core talks to, reduced to what the core
 * observes: intents as records of typed extras, and the notification manager
 * as a log of the notify and cancel calls made on it.
 */
module Platform {
  import opened Wrappers

  /** A value stored in an intent under a key. */
  datatype Extra = StringExtra(s: string) | IntExtra(i: int)

  /** An intent: its action and its extras. */
  datatype Intent = Intent(action: string, extras: map<string, Extra>)

  /** Intent.getStringExtra: null when the key is absent or holds no string. */
  function GetStringExtra(intent: Intent, key: string): (r: Option<string>)
    ensures r.Some? <==> key in intent.extras && intent.extras[key].StringExtra?
    ensures r.Some? ==> intent.extras[key] == StringExtra(r.value)
  {
    if key in intent.extras && intent.extras[key].StringExtra? then Some(intent.extras[key].s) else None
  }

  /** Intent.getIntExtra: the default when the key is absent or holds no int. */
  function GetIntExtra(intent: Intent, key: string, default: int): (r: int)
    ensures key in intent.extras && intent.extras[key].IntExtra? ==> intent.extras[key] == IntExtra(r)
    ensures !(key in intent.extras && intent.extras[key].IntExtra?) ==> r == default
  {
    if key in intent.extras && intent.extras[key].IntExtra? then intent.extras[key].i else default
  }

  /** What a posted notification shows: title, text and the intents of its action buttons. */
  datatype Notification = Notification(title: string, text: string, actions: seq<Intent>)

  /** One call made on the notification manager. */
  datatype NotificationCall = Posted(id: int, notification: Notification) | Cancelled(id: int)

  /** The platform's NotificationManager, recorded as the sequence of calls it received. */
  class NotificationManager {
    var log: seq<NotificationCall>

    constructor ()
      ensures log == []
    {
      log := [];
    }

    /** notify(id, notification): show or replace the notification with this id. */
    method Notify(id: int, notification: Notification)
      modifies this
      ensures log == old(log) + [Posted(id, notification)]
    {
      log := log + [Posted(id, notification)];
    }

    /** cancel(id): remove the notification with this id, if any. */
    method Cancel(id: int)
      modifies this
      ensures log == old(log) + [Cancelled(id)]
    {
      log := log + [Cancelled(id)];
    }
  }
}
