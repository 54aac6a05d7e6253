/**
 * The authentication context provider: the same session as the store slice, held as
 * one record that each operation replaces, with the same writes to the storage cell.
 */
module AuthContext {
  import opened Wrappers
  import opened Auth

  datatype Session = Session(isAuthenticated: bool, user: Option<UserProfile>, loading: bool)
  {
    predicate Valid() {
      isAuthenticated <==> user.Some?
    }
  }

  const InitialSession := Session(false, None, false)

  /** The session the mount-time check sets from what is stored. */
  function Restored(saved: Option<UserProfile>): (s: Session)
    ensures s.Valid() && s.user == saved && !s.loading
  {
    if saved.Some? then Session(true, saved, false) else InitialSession.(loading := false)
  }

  class AuthProvider {
    var session: Session
    const storage: Storage

    constructor (storage: Storage)
      ensures session == InitialSession && this.storage == storage
    {
      session := InitialSession;
      this.storage := storage;
    }

    /** The effect run on mount: restore the session from storage. */
    method CheckAuth()
      modifies this
      ensures session == Restored(storage.user)
    {
      if storage.user.Some? {
        session := Session(true, storage.user, false);
      } else {
        session := InitialSession.(loading := false);
      }
    }

    /** `login`: always succeeds with the default profile, which is stored. */
    method Login(email: string, password: string) returns (ok: bool)
      modifies this, storage
      ensures ok && session == Session(true, Some(DefaultUser), false) && storage.user == Some(DefaultUser)
    {
      session := Session(true, Some(DefaultUser), false);
      storage.SetItem(DefaultUser);
      ok := true;
    }

    method Logout()
      modifies this, storage
      ensures session == Session(false, None, false) && storage.user == None
    {
      session := Session(false, None, false);
      storage.RemoveItem();
    }

    /** `updateUserProfile`: a no-op without a profile; otherwise merge, keep the rest of the session, store. */
    method UpdateUserProfile(patch: ProfilePatch)
      modifies this, storage
      ensures old(session).user.None? ==> session == old(session) && storage.user == old(storage.user)
      ensures old(session).user.Some? ==>
        var u := MergeProfile(old(session).user.value, patch);
        session == old(session).(user := Some(u)) && storage.user == Some(u)
      ensures old(session).Valid() ==> session.Valid()
    {
      if session.user.None? {
        return;
      }
      var updated := MergeProfile(session.user.value, patch);
      session := session.(user := Some(updated));
      storage.SetItem(updated);
    }

    /** `updateNotificationSettings`: a no-op without a profile; otherwise merge the flags and store. */
    method UpdateNotificationSettings(patch: NotificationsPatch)
      modifies this, storage
      ensures old(session).user.None? ==> session == old(session) && storage.user == old(storage.user)
      ensures old(session).user.Some? ==>
        var u := WithNotifications(old(session).user.value, patch);
        session == old(session).(user := Some(u)) && storage.user == Some(u)
      ensures old(session).Valid() ==> session.Valid()
    {
      if session.user.None? {
        return;
      }
      var updated := WithNotifications(session.user.value, patch);
      session := session.(user := Some(updated));
      storage.SetItem(updated);
    }
  }

  /** Signing in and then mounting a fresh provider restores the default profile. */
  method LoginThenRemount(storage: Storage) returns (restored: AuthProvider)
    modifies storage
    ensures restored.session == Session(true, Some(DefaultUser), false)
  {
    var provider := new AuthProvider(storage);
    var _ := provider.Login("", "");
    restored := new AuthProvider(storage);
    restored.CheckAuth();
  }

  /** Signing out and then mounting a fresh provider gives the initial signed-out session. */
  method LogoutThenRemount(storage: Storage) returns (restored: AuthProvider)
    modifies storage
    ensures restored.session == Session(false, None, false)
  {
    var provider := new AuthProvider(storage);
    provider.Logout();
    restored := new AuthProvider(storage);
    restored.CheckAuth();
  }
}
