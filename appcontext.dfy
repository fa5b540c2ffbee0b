/** The application-wide state of the styled UI and its reducer
    (ui/tailwind-project/src/context/AppContext.js). */
module AppContext {
  import opened Wrappers
  import opened Seqs

  /** A notification as stored: the payload's fields plus an `id`. `None` stands for an
      `id` or a `timestamp` that is `undefined`; the timestamp is the ISO text of
      `new Date().toISOString()`. */
  datatype Notification = Notification(id: Option<int>, message: string, kind: string, duration: int, timestamp: Option<string>)

  /** What `addNotification` is handed; `id` (or `timestamp`) is `None` when the payload
      has no such field. */
  datatype NotificationPayload = NotificationPayload(id: Option<int>, message: string, kind: string, duration: int, timestamp: Option<string>)

  /** `user` and `error` are `None` for `null`. */
  datatype AppState = AppState(
    user: Option<string>,
    theme: string,
    notifications: seq<Notification>,
    loading: bool,
    error: Option<string>)

  /** The actions of `APP_ACTIONS`, with their payloads; `Unknown` is any other type. */
  datatype Action =
    | SetLoading(loading: bool)
    | SetError(error: Option<string>)
    | ClearError
    | SetUser(user: Option<string>)
    | SetTheme(theme: string)
    | AddNotification(payload: NotificationPayload)
    | RemoveNotification(target: Option<int>)
    | ClearNotifications
    | Unknown(tag: string)

  /** `initialState`. */
  const InitialState: AppState := AppState(None, "dark", [], false, None)

  /** `{id: Date.now(), ...payload}`: the payload's own `id`, if it has one, wins over
      the clock. */
  function NewNotification(payload: NotificationPayload, now: int): Notification
  {
    Notification(if payload.id.Some? then payload.id else Some(now), payload.message, payload.kind, payload.duration, payload.timestamp)
  }

  function KeepsId(target: Option<int>): Notification -> bool
  {
    (n: Notification) => n.id != target
  }

  /** `appReducer`; `now` is what `Date.now()` returns when the action is reduced. */
  function Reduce(state: AppState, action: Action, now: int): AppState
  {
    match action
    case SetLoading(loading) => state.(loading := loading)
    case SetError(error) => state.(error := error, loading := false)
    case ClearError => state.(error := None)
    case SetUser(user) => state.(user := user)
    case SetTheme(theme) => state.(theme := theme)
    case AddNotification(payload) => state.(notifications := state.notifications + [NewNotification(payload, now)])
    case RemoveNotification(target) => state.(notifications := Filter(state.notifications, KeepsId(target)))
    case ClearNotifications => state.(notifications := [])
    case Unknown(_) => state
  }

  /** No user, the dark theme, no notifications, not loading, no error. */
  lemma InitialStateSpec()
    ensures InitialState.user.None? && InitialState.theme == "dark" && InitialState.notifications == []
    ensures !InitialState.loading && InitialState.error.None?
  {
  }

  /** `SET_LOADING` changes `loading` and nothing else. */
  lemma SetLoadingFrame(state: AppState, loading: bool, now: int)
    ensures Reduce(state, SetLoading(loading), now).loading == loading
    ensures Reduce(state, SetLoading(loading), now) == state.(loading := loading)
    ensures Reduce(state, SetLoading(state.loading), now) == state
  {
  }

  /** `SET_ERROR` records the error and always stops loading; nothing else changes. */
  lemma SetErrorFrame(state: AppState, error: Option<string>, now: int)
    ensures var r := Reduce(state, SetError(error), now);
      r.error == error && !r.loading
      && r.user == state.user && r.theme == state.theme && r.notifications == state.notifications
  {
  }

  /** `CLEAR_ERROR` sets `error` to null and keeps the rest, `loading` included; it undoes
      a `SET_ERROR` except for the loading flag that `SET_ERROR` cleared. */
  lemma ClearErrorFrame(state: AppState, error: Option<string>, now: int, later: int)
    ensures Reduce(state, ClearError, now) == state.(error := None)
    ensures Reduce(Reduce(state, SetError(error), now), ClearError, later) == state.(error := None, loading := false)
  {
  }

  /** `SET_USER` and `SET_THEME` each change their one field. */
  lemma SetUserAndThemeFrame(state: AppState, user: Option<string>, theme: string, now: int)
    ensures Reduce(state, SetUser(user), now) == state.(user := user)
    ensures Reduce(state, SetTheme(theme), now) == state.(theme := theme)
  {
  }

  /** `ADD_NOTIFICATION` appends exactly one entry, built from the payload, at the end;
      the earlier entries and every other field are unchanged. */
  lemma AddNotificationAppends(state: AppState, payload: NotificationPayload, now: int)
    ensures var r := Reduce(state, AddNotification(payload), now);
      |r.notifications| == |state.notifications| + 1
      && r.notifications[..|state.notifications|] == state.notifications
      && r.notifications[|state.notifications|].message == payload.message
      && r.notifications[|state.notifications|].kind == payload.kind
      && r.notifications[|state.notifications|].duration == payload.duration
      && r.notifications[|state.notifications|].timestamp == payload.timestamp
      && r.notifications[|state.notifications|].id == (if payload.id.Some? then payload.id else Some(now))
      && r.(notifications := state.notifications) == state
  {
    var r := Reduce(state, AddNotification(payload), now);
    assert r.notifications[..|state.notifications|] == state.notifications;
  }

  /** `REMOVE_NOTIFICATION` keeps, in order, exactly the entries whose id differs from
      the one given, and removing twice is removing once. */
  lemma RemoveNotificationSpec(state: AppState, target: Option<int>, now: int, later: int)
    ensures var r := Reduce(state, RemoveNotification(target), now);
      IsSubsequence(r.notifications, state.notifications)
      && (forall k :: 0 <= k < |r.notifications| ==> r.notifications[k].id != target)
      && (forall k :: 0 <= k < |state.notifications| && state.notifications[k].id != target ==>
            state.notifications[k] in r.notifications)
      && |r.notifications| == Count(state.notifications, KeepsId(target))
      && r.(notifications := state.notifications) == state
    ensures Reduce(Reduce(state, RemoveNotification(target), now), RemoveNotification(target), later)
      == Reduce(state, RemoveNotification(target), now)
  {
    FilterIsSubsequence(state.notifications, KeepsId(target));
    FilterIdempotent(state.notifications, KeepsId(target));
  }

  /** `REMOVE_NOTIFICATION` keeps every entry whose id differs from the one given as often
      as it was stored, and no entry with that id; with `RemoveNotificationSpec` this
      fixes the new list. */
  lemma RemoveNotificationCounts(state: AppState, target: Option<int>, now: int)
    ensures var r := Reduce(state, RemoveNotification(target), now);
      forall n :: multiset(r.notifications)[n] == if n.id != target then multiset(state.notifications)[n] else 0
  {
    var kept := Filter(state.notifications, KeepsId(target));
    FilterMultiplicity(state.notifications, KeepsId(target));
    forall n: Notification ensures multiset(kept)[n] == if n.id != target then multiset(state.notifications)[n] else 0 {
      assert KeepsId(target)(n) == (n.id != target);
    }
  }

  /** Removing by the id an addition assigned takes the list back to what it was, when no
      earlier entry shares that id. */
  lemma RemoveUndoesAdd(state: AppState, payload: NotificationPayload, now: int, later: int)
    requires var id := NewNotification(payload, now).id;
      forall k :: 0 <= k < |state.notifications| ==> state.notifications[k].id != id
    ensures var id := NewNotification(payload, now).id;
      Reduce(Reduce(state, AddNotification(payload), now), RemoveNotification(id), later) == state
  {
    var n := NewNotification(payload, now);
    var keep := KeepsId(n.id);
    FilterAllTrue(state.notifications, keep);
    FilterAppend(state.notifications, [n], keep);
    FilterSingleton(n, keep);
  }

  /** `CLEAR_NOTIFICATIONS` empties the list; an unknown action returns the state as it is. */
  lemma ClearAndUnknown(state: AppState, tag: string, now: int)
    ensures Reduce(state, ClearNotifications, now) == state.(notifications := [])
    ensures Reduce(state, Unknown(tag), now) == state
  {
  }

  /** Every stored notification has a defined id. */
  predicate IdsDefined(state: AppState)
  {
    forall k :: 0 <= k < |state.notifications| ==> state.notifications[k].id.Some?
  }

  /** Starting from `initialState`, every reduction keeps every id defined; so a removal
      by an undefined id never removes anything. */
  lemma IdsDefinedPreserved(state: AppState, action: Action, now: int)
    requires IdsDefined(state)
    ensures IdsDefined(Reduce(state, action, now))
    ensures IdsDefined(InitialState)
    ensures Reduce(state, RemoveNotification(None), now) == state
  {
    var r := Reduce(state, action, now);
    if action.RemoveNotification? {
      FilterIsSubsequence(state.notifications, KeepsId(action.target));
    }
    if action.AddNotification? {
      forall k | 0 <= k < |r.notifications| ensures r.notifications[k].id.Some? {
        if k < |state.notifications| {
          assert r.notifications[k] == state.notifications[k];
        }
      }
    }
    FilterAllTrue(state.notifications, KeepsId(None));
  }

  /** `showNotification` as written: the payload has no `id`, so the reducer assigns
      `Date.now()`; the timer then removes `notification.id` of the local object, which
      is still `undefined`. The two dispatches, with the timer's delay left out;
      `timestamp` is what `new Date().toISOString()` returns. */
  function ShowNotificationAsWritten(state: AppState, message: string, kind: string, duration: int, timestamp: string, now: int, later: int): AppState
  {
    var added := Reduce(state, AddNotification(NotificationPayload(None, message, kind, duration, Some(timestamp))), now);
    Reduce(added, RemoveNotification(None), later)
  }

  /** The notification shown by `showNotification` is never removed: after the timer
      fires, the list still ends with it. */
  lemma ShowNotificationNeverRemoved(state: AppState, message: string, kind: string, duration: int, timestamp: string, now: int, later: int)
    requires IdsDefined(state)
    ensures ShowNotificationAsWritten(state, message, kind, duration, timestamp, now, later).notifications
      == state.notifications + [Notification(Some(now), message, kind, duration, Some(timestamp))]
  {
    var added := Reduce(state, AddNotification(NotificationPayload(None, message, kind, duration, Some(timestamp))), now);
    IdsDefinedPreserved(state, AddNotification(NotificationPayload(None, message, kind, duration, Some(timestamp))), now);
    IdsDefinedPreserved(added, RemoveNotification(None), later);
  }

  /** `showNotification` as evidently intended: the id is chosen before dispatching, and
      the timer removes that same id. */
  function ShowNotification(state: AppState, message: string, kind: string, duration: int, timestamp: string, now: int, later: int): AppState
  {
    var added := Reduce(state, AddNotification(NotificationPayload(Some(now), message, kind, duration, Some(timestamp))), now);
    Reduce(added, RemoveNotification(Some(now)), later)
  }

  /** Once the timer fires, the notification is gone and the list is as before, when no
      earlier entry carries the same id. */
  lemma ShowNotificationRemoved(state: AppState, message: string, kind: string, duration: int, timestamp: string, now: int, later: int)
    requires forall k :: 0 <= k < |state.notifications| ==> state.notifications[k].id != Some(now)
    ensures ShowNotification(state, message, kind, duration, timestamp, now, later) == state
  {
    RemoveUndoesAdd(state, NotificationPayload(Some(now), message, kind, duration, Some(timestamp)), now, later);
  }
}
