/**
 * The `auth` store slice: a session flag, the profile and a loading flag, changed in
 * place by six reducers, each of which also writes the storage cell. `Valid` (signed in
 * exactly when a profile is held) holds initially and after every reducer; `Synced`
 * (the stored profile is the held one) holds after every reducer but `setLoading`,
 * which keeps it.
 */
module AuthSlice {
  import opened Wrappers
  import opened Auth

  class AuthStore {
    var isAuthenticated: bool
    var user: Option<UserProfile>
    var loading: bool
    const storage: Storage

    ghost predicate Valid()
      reads this
    {
      isAuthenticated <==> user.Some?
    }

    ghost predicate Synced()
      reads this, storage
    {
      storage.user == user
    }

    constructor (storage: Storage)
      ensures this.storage == storage && !isAuthenticated && user == None && !loading
      ensures Valid()
    {
      this.storage := storage;
      isAuthenticated, user, loading := false, None, false;
    }

    method SetLoading(value: bool)
      modifies this
      ensures loading == value && isAuthenticated == old(isAuthenticated) && user == old(user)
      ensures old(Valid()) ==> Valid()
    {
      loading := value;
    }

    method LoginSuccess()
      modifies this, storage
      ensures isAuthenticated && user == Some(DefaultUser) && !loading
      ensures Valid() && Synced()
    {
      isAuthenticated := true;
      user := Some(DefaultUser);
      loading := false;
      storage.SetItem(DefaultUser);
    }

    method Logout()
      modifies this, storage
      ensures !isAuthenticated && user == None && !loading
      ensures Valid() && Synced()
    {
      isAuthenticated := false;
      user := None;
      loading := false;
      storage.RemoveItem();
    }

    /** `updateUserProfile`: a no-op without a profile; otherwise merge and store. */
    method UpdateUserProfile(patch: ProfilePatch)
      modifies this, storage
      ensures old(user).None? ==> user == None && storage.user == old(storage.user)
      ensures old(user).Some? ==> user == Some(MergeProfile(old(user).value, patch)) && Synced()
      ensures isAuthenticated == old(isAuthenticated) && loading == old(loading)
      ensures old(Valid()) ==> Valid()
    {
      if user.None? {
        return;
      }
      var updated := MergeProfile(user.value, patch);
      user := Some(updated);
      storage.SetItem(updated);
    }

    /** `updateNotificationSettings`: a no-op without a profile; otherwise merge the flags and store. */
    method UpdateNotificationSettings(patch: NotificationsPatch)
      modifies this, storage
      ensures old(user).None? ==> user == None && storage.user == old(storage.user)
      ensures old(user).Some? ==> user == Some(WithNotifications(old(user).value, patch)) && Synced()
      ensures isAuthenticated == old(isAuthenticated) && loading == old(loading)
      ensures old(Valid()) ==> Valid()
    {
      if user.None? {
        return;
      }
      var updated := WithNotifications(user.value, patch);
      user := Some(updated);
      storage.SetItem(updated);
    }

    /** `checkAuth`: signed in with the stored profile if there is one, signed out otherwise. */
    method CheckAuth()
      modifies this
      ensures user == storage.user && isAuthenticated == storage.user.Some? && !loading
      ensures Valid() && Synced()
    {
      if storage.user.Some? {
        isAuthenticated := true;
        user := storage.user;
      } else {
        isAuthenticated := false;
        user := None;
      }
      loading := false;
    }
  }

  /** Signing in and then restoring in a fresh store gives back the default profile. */
  method LoginThenRestore(storage: Storage) returns (restored: AuthStore)
    modifies storage
    ensures restored.isAuthenticated && restored.user == Some(DefaultUser)
  {
    var store := new AuthStore(storage);
    store.LoginSuccess();
    restored := new AuthStore(storage);
    restored.CheckAuth();
  }

  /** Signing out and then restoring in a fresh store gives a signed-out session. */
  method LogoutThenRestore(storage: Storage) returns (restored: AuthStore)
    modifies storage
    ensures !restored.isAuthenticated && restored.user == None
  {
    var store := new AuthStore(storage);
    store.Logout();
    restored := new AuthStore(storage);
    restored.CheckAuth();
  }
}
