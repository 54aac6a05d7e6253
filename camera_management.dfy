/**
 * The camera page: its own camera list behind a validated form, with create, edit and
 * delete. `CameraPage.Valid` (every camera passes the form's rules, a retention of at
 * least one day among them) holds for the seed list and after every handler.
 */
module CameraManagement {
  import opened Wrappers
  import opened Seqs
  import opened Devices

  datatype CameraForm = CameraForm(
    name: string, location: string, ipAddress: string, resolution: Option<string>,
    storageRetention: Option<int>, status: Status)

  /**
   * The form's schema: name and location of 2 characters or more, an address `isIp`
   * accepts, and a retention of at least 1 day if given.
   */
  predicate FormAccepted(f: CameraForm, isIp: string -> bool) {
    && |f.name| >= 2 && |f.location| >= 2 && isIp(f.ipAddress)
    && (f.storageRetention.Some? ==> f.storageRetention.value >= 1)
  }

  /** A camera whose fields satisfy the form's rules other than the address check. */
  predicate WellFormed(c: Camera) {
    && |c.name| >= 2 && |c.location| >= 2
    && (c.storageRetention.Some? ==> c.storageRetention.value >= 1)
  }

  predicate AllWellFormed(cs: seq<Camera>) {
    forall c :: c in cs ==> WellFormed(c)
  }

  /** The record's form fields, read back unchanged. */
  function FieldsOf(c: Camera): CameraForm {
    CameraForm(c.name, c.location, c.ipAddress, c.resolution, c.storageRetention, c.status)
  }

  /**
   * The values `openEditDialog` puts in the form as written: an absent resolution
   * becomes "" and an absent retention becomes 0.
   */
  function EditFormAsWritten(c: Camera): (f: CameraForm)
    ensures c.storageRetention.None? ==> f.storageRetention == Some(0)
    ensures c.storageRetention.Some? ==> f.storageRetention == c.storageRetention
  {
    CameraForm(c.name, c.location, c.ipAddress, Some(c.resolution.GetOr("")),
      Some(c.storageRetention.GetOr(0)), c.status)
  }

  /** A camera saved without a retention cannot be saved again from its edit dialog unchanged. */
  lemma UnsetRetentionBlocksEdit(c: Camera, isIp: string -> bool)
    requires c.storageRetention.None?
    ensures !FormAccepted(EditFormAsWritten(c), isIp)
  {
  }

  /** The values the edit dialog evidently means to show: an absent retention stays absent. */
  function EditForm(c: Camera): (f: CameraForm)
    ensures f.storageRetention == c.storageRetention
  {
    CameraForm(c.name, c.location, c.ipAddress, Some(c.resolution.GetOr("")), c.storageRetention, c.status)
  }

  /**
   * The two forms differ only for a camera without a retention: a camera that has one
   * gets the same form from the dialog as written, so `EditUnchanged` holds for it.
   */
  lemma EditFormsAgree(c: Camera)
    ensures c.storageRetention.Some? <==> EditFormAsWritten(c) == EditForm(c)
  {
  }

  /** `{...camera, ...values, lastUpdated}`: the form's fields over the record's, id kept. */
  function Merge(c: Camera, f: CameraForm, now: int): (r: Camera)
    ensures r.id == c.id && r.lastUpdated == now && FieldsOf(r) == f
  {
    Camera(c.id, f.name, f.location, f.status, now, f.ipAddress, f.resolution, f.storageRetention)
  }

  /**
   * With the corrected defaults, every well-formed camera with a valid address can be
   * saved unchanged, which refreshes `lastUpdated`, turns an absent resolution into "",
   * and nothing else.
   */
  lemma EditUnchanged(c: Camera, isIp: string -> bool, now: int)
    requires WellFormed(c) && isIp(c.ipAddress)
    ensures FormAccepted(EditForm(c), isIp)
    ensures Merge(c, EditForm(c), now) == c.(resolution := Some(c.resolution.GetOr("")), lastUpdated := now)
  {
  }

  /** The record `onCreateSubmit` builds from the form, a new id and the current time. */
  function FromForm(f: CameraForm, id: string, now: int): (r: Camera)
    ensures r.id == id && r.lastUpdated == now && FieldsOf(r) == f
  {
    Camera(id, f.name, f.location, f.status, now, f.ipAddress, f.resolution, f.storageRetention)
  }

  /** The form accepts exactly the values that make a well-formed camera with a valid address. */
  lemma FormAcceptedIffWellFormed(f: CameraForm, c: Camera, isIp: string -> bool)
    requires FieldsOf(c) == f
    ensures FormAccepted(f, isIp) <==> WellFormed(c) && isIp(c.ipAddress)
  {
  }

  function IdIs(id: string): Camera -> bool {
    (c: Camera) => c.id == id
  }

  function IdIsNot(id: string): Camera -> bool {
    (c: Camera) => c.id != id
  }

  function MergeWith(f: CameraForm, now: int): Camera -> Camera {
    (c: Camera) => Merge(c, f, now)
  }

  /** The list after `onEditSubmit`: cameras with the id take the form's values and the new time. */
  function EditCameras(cs: seq<Camera>, id: string, f: CameraForm, now: int): (r: seq<Camera>)
    ensures |r| == |cs|
    ensures forall j :: 0 <= j < |cs| ==> r[j].id == cs[j].id
    ensures forall j :: 0 <= j < |cs| && cs[j].id == id ==> FieldsOf(r[j]) == f && r[j].lastUpdated == now
    ensures forall j :: 0 <= j < |cs| && cs[j].id != id ==> r[j] == cs[j]
  {
    MapWhere(cs, IdIs(id), MergeWith(f, now))
  }

  /** The list after `deleteCamera`: exactly the cameras with other ids, in order. */
  function DeleteCamera(cs: seq<Camera>, id: string): (r: seq<Camera>)
    ensures forall c :: c in r <==> c in cs && c.id != id
    ensures forall c :: multiset(r)[c] == if c.id == id then 0 else multiset(cs)[c]
  {
    FilterContents(cs, IdIsNot(id));
    Filter(cs, IdIsNot(id))
  }

  /** Deleting a camera just created under a fresh id gives back the list before the create. */
  lemma DeleteUndoesCreate(cs: seq<Camera>, f: CameraForm, id: string, now: int)
    requires forall c :: c in cs ==> c.id != id
    ensures DeleteCamera(cs + [FromForm(f, id, now)], id) == cs
  {
    FilterAppend(cs, [FromForm(f, id, now)], IdIsNot(id));
    FilterKeepsAll(cs, IdIsNot(id));
    assert Filter([FromForm(f, id, now)], IdIsNot(id)) == [];
  }

  /** An accepted edit keeps every camera well formed. */
  lemma EditKeepsWellFormed(cs: seq<Camera>, id: string, f: CameraForm, isIp: string -> bool, now: int)
    requires AllWellFormed(cs) && FormAccepted(f, isIp)
    ensures AllWellFormed(EditCameras(cs, id, f, now))
  {
    var r := EditCameras(cs, id, f, now);
    forall c | c in r ensures WellFormed(c) {
      var j :| 0 <= j < |r| && r[j] == c;
      assert cs[j] in cs;
      if cs[j].id == id {
        FormAcceptedIffWellFormed(f, c, isIp);
      }
    }
  }

  /** The three cameras the page starts with. */
  function SeedCameras(now: int): seq<Camera> {
    [ Camera("1", "Front Door Camera", "Main Entrance", Online, now, "192.168.1.100", Some("1080p"), Some(30)),
      Camera("2", "Parking Lot Camera", "North Parking", Online, now, "192.168.1.101", Some("4K"), Some(14)),
      Camera("3", "Warehouse Camera", "Storage Area", Offline, now, "192.168.1.102", Some("720p"), Some(7)) ]
  }

  class CameraPage {
    var cameras: seq<Camera>
    var selectedCamera: Option<Camera>
    var editDialogOpen: bool
    var deleteDialogOpen: bool

    ghost predicate Valid()
      reads this
    {
      AllWellFormed(cameras)
    }

    constructor (now: int)
      ensures cameras == SeedCameras(now) && selectedCamera == None
      ensures !editDialogOpen && !deleteDialogOpen
      ensures Valid()
    {
      cameras := SeedCameras(now);
      selectedCamera := None;
      editDialogOpen, deleteDialogOpen := false, false;
    }

    /** `onCreateSubmit`, behind the form's validation; `newId` and `now` come from the clock. */
    method OnCreateSubmit(f: CameraForm, isIp: string -> bool, newId: string, now: int) returns (accepted: bool)
      requires Valid()
      modifies this
      ensures Valid()
      ensures accepted == FormAccepted(f, isIp)
      ensures cameras == if accepted then old(cameras) + [FromForm(f, newId, now)] else old(cameras)
      ensures selectedCamera == old(selectedCamera)
      ensures editDialogOpen == old(editDialogOpen) && deleteDialogOpen == old(deleteDialogOpen)
    {
      accepted := FormAccepted(f, isIp);
      if accepted {
        FormAcceptedIffWellFormed(f, FromForm(f, newId, now), isIp);
        cameras := cameras + [FromForm(f, newId, now)];
      }
    }

    /**
     * `openEditDialog` as written: an unset retention is filled with 0, which the
     * schema's `.min(1)` then rejects (`UnsetRetentionBlocksEdit`).
     */
    method OpenEditDialog(c: Camera) returns (form: CameraForm)
      modifies this
      ensures form == EditFormAsWritten(c) && selectedCamera == Some(c) && editDialogOpen
      ensures cameras == old(cameras)
      ensures deleteDialogOpen == old(deleteDialogOpen)
    {
      selectedCamera := Some(c);
      form := EditFormAsWritten(c);
      editDialogOpen := true;
    }

    /** `onEditSubmit`, behind the form's validation; a no-op without a selected camera. */
    method OnEditSubmit(f: CameraForm, isIp: string -> bool, now: int) returns (accepted: bool)
      requires Valid()
      modifies this
      ensures Valid()
      ensures accepted == FormAccepted(f, isIp)
      ensures cameras == if accepted && old(selectedCamera).Some?
        then EditCameras(old(cameras), old(selectedCamera).value.id, f, now) else old(cameras)
      ensures if accepted && old(selectedCamera).Some?
        then selectedCamera == None && !editDialogOpen
        else selectedCamera == old(selectedCamera) && editDialogOpen == old(editDialogOpen)
      ensures deleteDialogOpen == old(deleteDialogOpen)
    {
      accepted := FormAccepted(f, isIp);
      if !accepted || selectedCamera.None? {
        return;
      }
      EditKeepsWellFormed(cameras, selectedCamera.value.id, f, isIp, now);
      cameras := EditCameras(cameras, selectedCamera.value.id, f, now);
      editDialogOpen := false;
      selectedCamera := None;
    }

    method OpenDeleteDialog(c: Camera)
      modifies this
      ensures selectedCamera == Some(c) && deleteDialogOpen && cameras == old(cameras)
      ensures editDialogOpen == old(editDialogOpen)
    {
      selectedCamera := Some(c);
      deleteDialogOpen := true;
    }

    /** `deleteCamera`: a no-op without a selected camera. */
    method DeleteSelected()
      requires Valid()
      modifies this
      ensures Valid()
      ensures cameras == if old(selectedCamera).Some? then DeleteCamera(old(cameras), old(selectedCamera).value.id) else old(cameras)
      ensures if old(selectedCamera).Some?
        then selectedCamera == None && !deleteDialogOpen
        else selectedCamera == old(selectedCamera) && deleteDialogOpen == old(deleteDialogOpen)
      ensures editDialogOpen == old(editDialogOpen)
    {
      if selectedCamera.None? {
        return;
      }
      cameras := DeleteCamera(cameras, selectedCamera.value.id);
      deleteDialogOpen := false;
      selectedCamera := None;
    }
  }
}
