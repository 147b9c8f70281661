/**
 * `src/hooks/useAuth.ts`: signing in from Telegram's launch data. The hook's
 * `user`, `loading` and `error` and the outcomes of `initAuth`.
 */
module UseAuth {
  import opened Common
  import opened Schema
  import opened Supabase

  /** The error set when the launch data or its user is missing. */
  const MissingTelegramData: string := "Не удалось получить данные Telegram"

  /** The message used when the thrown value is not an `Error`. */
  const UnknownError: string := "Неизвестная ошибка"

  /** The launch data Telegram hands to the app; its user may be missing. */
  datatype LaunchData = LaunchData(user: Option<TelegramUser>)

  /** The user in the launch data, if both are present. */
  function LaunchUser(raw: Option<LaunchData>): (tg: Option<TelegramUser>)
    ensures tg.Some? <==> raw.Some? && raw.value.user.Some?
    ensures tg.Some? ==> tg.value == raw.value.user.value
  {
    if raw.Some? then raw.value.user else None
  }

  /** The value `getOrCreateUserProfile` throws, if any, given its two round trips. */
  function SignInFailure(known: bool, lookup: Transport, insert: Transport): (t: Option<Thrown>)
    ensures t.None? <==> lookup.Delivered? && (known || insert.Delivered?)
    ensures lookup.Failed? ==> t == Some(lookup.thrown)
  {
    if lookup.Failed? then Some(lookup.thrown)
    else if !known && insert.Failed? then Some(insert.thrown)
    else None
  }

  /** The hook's state. */
  class AuthHook {
    var user: Option<UserProfile>
    var loading: bool
    var error: Option<string>

    constructor ()
      ensures user.None? && loading && error.None?
    {
      user, loading, error := None, true, None;
    }

    /**
     * `initAuth`: without launch data no profile call is made and the fixed
     * message is set; otherwise the profile is fetched or created and becomes
     * `user`, or the thrown value's message becomes `error` and `user` stays.
     * `loading` ends false on every path.
     */
    method InitAuth(raw: Option<LaunchData>, store: Store, lookup: Transport, insert: Transport, now: int)
      requires store.Valid()
      modifies this, store`profiles
      ensures store.Valid()
      ensures !loading
      ensures LaunchUser(raw).None? ==>
        error == Some(MissingTelegramData) && user == old(user) && store.profiles == old(store.profiles)
      ensures LaunchUser(raw).Some? ==>
        var tg := LaunchUser(raw).value;
        var stored := FindProfile(old(store.profiles), tg.id);
        var failure := SignInFailure(stored.Some?, lookup, insert);
        && (failure.None? && stored.Some? ==>
              && error.None?
              && user == stored
              && store.profiles == old(store.profiles))
        && (failure.None? && stored.None? ==>
              && error.None?
              && user == Some(NewProfile(tg, now))
              && store.profiles == old(store.profiles) + [NewProfile(tg, now)])
        && (failure.None? ==> user == FindProfile(store.profiles, tg.id) && user.value.id == tg.id)
        && (failure.Some? ==>
              && error == Some(MessageOf(failure.value, UnknownError))
              && user == old(user)
              && store.profiles == old(store.profiles))
    {
      var tg := LaunchUser(raw);
      if tg.None? {
        error := Some(MissingTelegramData);
        loading := false;
        return;
      }
      var r := store.GetOrCreateUserProfile(tg.value, lookup, insert, now);
      if r.Ok? {
        user := Some(r.value);
        error := None;
      } else {
        error := Some(MessageOf(r.thrown, UnknownError));
      }
      loading := false;
    }
  }
}
