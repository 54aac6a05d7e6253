/**
 * The signed-in user's profile, the partial updates applied to it, and the browser
 * storage cell `localStorage["user"]` both the store slice and the context provider
 * write it to (kept as the profile itself: serialisation is not modelled).
 */
module Auth {
  import opened Wrappers

  datatype Notifications = Notifications(userRegistered: bool, tenantRegistered: bool, cameraEvents: bool)

  datatype UserProfile = UserProfile(
    id: string, name: string, email: string, avatar: Option<string>, notifications: Notifications)

  /** A `Partial<UserProfile["notifications"]>`: the flags it carries. */
  datatype NotificationsPatch = NotificationsPatch(
    userRegistered: Option<bool>, tenantRegistered: Option<bool>, cameraEvents: Option<bool>)

  /** A `Partial<UserProfile>`: the fields it carries. */
  datatype ProfilePatch = ProfilePatch(
    id: Option<string>, name: Option<string>, email: Option<string>, avatar: Option<string>,
    notifications: Option<Notifications>)

  const DefaultUser := UserProfile("1", "John Doe", "john.doe@example.com",
    Some("https://api.dicebear.com/7.x/avataaars/svg?seed=john"),
    Notifications(true, true, true))

  /** `{...notifications, ...patch}` */
  function MergeNotifications(n: Notifications, p: NotificationsPatch): (r: Notifications)
    ensures p.userRegistered.Some? ==> r.userRegistered == p.userRegistered.value
    ensures p.userRegistered.None? ==> r.userRegistered == n.userRegistered
    ensures p.tenantRegistered.Some? ==> r.tenantRegistered == p.tenantRegistered.value
    ensures p.tenantRegistered.None? ==> r.tenantRegistered == n.tenantRegistered
    ensures p.cameraEvents.Some? ==> r.cameraEvents == p.cameraEvents.value
    ensures p.cameraEvents.None? ==> r.cameraEvents == n.cameraEvents
  {
    Notifications(
      p.userRegistered.GetOr(n.userRegistered),
      p.tenantRegistered.GetOr(n.tenantRegistered),
      p.cameraEvents.GetOr(n.cameraEvents))
  }

  /** `{...user, ...patch}` */
  function MergeProfile(u: UserProfile, p: ProfilePatch): (r: UserProfile)
    ensures r.id == p.id.GetOr(u.id) && r.name == p.name.GetOr(u.name) && r.email == p.email.GetOr(u.email)
    ensures p.avatar.Some? ==> r.avatar == p.avatar
    ensures p.avatar.None? ==> r.avatar == u.avatar
    ensures r.notifications == p.notifications.GetOr(u.notifications)
  {
    UserProfile(
      p.id.GetOr(u.id), p.name.GetOr(u.name), p.email.GetOr(u.email),
      if p.avatar.Some? then p.avatar else u.avatar,
      p.notifications.GetOr(u.notifications))
  }

  /** `{...user, notifications: {...user.notifications, ...patch}}` */
  function WithNotifications(u: UserProfile, p: NotificationsPatch): (r: UserProfile)
    ensures r.id == u.id && r.name == u.name && r.email == u.email && r.avatar == u.avatar
    ensures r.notifications == MergeNotifications(u.notifications, p)
  {
    u.(notifications := MergeNotifications(u.notifications, p))
  }

  const EmptyNotificationsPatch := NotificationsPatch(None, None, None)
  const EmptyProfilePatch := ProfilePatch(None, None, None, None, None)

  /** An empty patch changes nothing. */
  lemma EmptyPatchesAreIdentity(u: UserProfile)
    ensures MergeProfile(u, EmptyProfilePatch) == u
    ensures WithNotifications(u, EmptyNotificationsPatch) == u
  {
  }

  /** Applying the same patch twice is applying it once. */
  lemma MergesIdempotent(u: UserProfile, p: ProfilePatch, q: NotificationsPatch)
    ensures MergeProfile(MergeProfile(u, p), p) == MergeProfile(u, p)
    ensures WithNotifications(WithNotifications(u, q), q) == WithNotifications(u, q)
  {
  }

  /** A later patch wins over an earlier one field by field: two merges are one merge of the combined patch. */
  function ThenNotifications(p: NotificationsPatch, q: NotificationsPatch): NotificationsPatch {
    NotificationsPatch(
      if q.userRegistered.Some? then q.userRegistered else p.userRegistered,
      if q.tenantRegistered.Some? then q.tenantRegistered else p.tenantRegistered,
      if q.cameraEvents.Some? then q.cameraEvents else p.cameraEvents)
  }

  lemma NotificationMergesCompose(u: UserProfile, p: NotificationsPatch, q: NotificationsPatch)
    ensures WithNotifications(WithNotifications(u, p), q) == WithNotifications(u, ThenNotifications(p, q))
  {
  }

  /** The browser's `localStorage["user"]`: the stored profile, if any. */
  class Storage {
    var user: Option<UserProfile>

    constructor (saved: Option<UserProfile>)
      ensures user == saved
    {
      user := saved;
    }

    /** `localStorage.setItem("user", JSON.stringify(u))` */
    method SetItem(u: UserProfile)
      modifies this
      ensures user == Some(u)
    {
      user := Some(u);
    }

    /** `localStorage.removeItem("user")` */
    method RemoveItem()
      modifies this
      ensures user == None
    {
      user := None;
    }
  }
}
