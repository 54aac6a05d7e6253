/**
 * The older camera page: cameras with only a name, a location and an address, an
 * add form, and a delete confirmed through a dialog that remembers the pending id.
 */
module LegacyCamera {
  import opened Wrappers
  import opened Seqs

  datatype LegacyCamera = LegacyCamera(id: string, name: string, location: string, ipAddress: string)

  /** The form's schema: name and location of 2 characters or more, an address `isIp` accepts. */
  predicate FormAccepted(name: string, location: string, ipAddress: string, isIp: string -> bool) {
    |name| >= 2 && |location| >= 2 && isIp(ipAddress)
  }

  /** `if (cameraToDelete)`: a pending id counts only when it is present and not "". */
  predicate IsPending(pending: Option<string>) {
    pending.Some? && pending.value != ""
  }

  function IdIsNot(id: string): LegacyCamera -> bool {
    (c: LegacyCamera) => c.id != id
  }

  /** The list `deleteCamera` leaves for a pending id: exactly the cameras with other ids, in order. */
  function Without(cs: seq<LegacyCamera>, id: string): (r: seq<LegacyCamera>)
    ensures forall c :: c in r <==> c in cs && c.id != id
    ensures forall c :: multiset(r)[c] == if c.id == id then 0 else multiset(cs)[c]
  {
    FilterContents(cs, IdIsNot(id));
    Filter(cs, IdIsNot(id))
  }

  /** Deleting a camera just added under a fresh id gives back the list before the add. */
  lemma DeleteUndoesSubmit(cs: seq<LegacyCamera>, c: LegacyCamera)
    requires forall x :: x in cs ==> x.id != c.id
    ensures Without(cs + [c], c.id) == cs
  {
    FilterAppend(cs, [c], IdIsNot(c.id));
    FilterKeepsAll(cs, IdIsNot(c.id));
    assert Filter([c], IdIsNot(c.id)) == [];
  }

  const SeedCameras := [
    LegacyCamera("1", "Front Door Camera", "Main Entrance", "192.168.1.100"),
    LegacyCamera("2", "Parking Lot Camera", "North Parking", "192.168.1.101"),
    LegacyCamera("3", "Warehouse Camera", "Storage Area", "192.168.1.102")
  ]

  class LegacyCameraPage {
    var cameras: seq<LegacyCamera>
    var deleteDialogOpen: bool
    var cameraToDelete: Option<string>

    constructor ()
      ensures cameras == SeedCameras && !deleteDialogOpen && cameraToDelete == None
    {
      cameras := SeedCameras;
      deleteDialogOpen := false;
      cameraToDelete := None;
    }

    /** `onSubmit`, behind the form's validation; `newId` is the caller's `Date.now()`. */
    method OnSubmit(name: string, location: string, ipAddress: string, isIp: string -> bool, newId: string)
      returns (accepted: bool)
      modifies this
      ensures accepted == FormAccepted(name, location, ipAddress, isIp)
      ensures cameras == if accepted then old(cameras) + [LegacyCamera(newId, name, location, ipAddress)] else old(cameras)
      ensures deleteDialogOpen == old(deleteDialogOpen) && cameraToDelete == old(cameraToDelete)
    {
      accepted := FormAccepted(name, location, ipAddress, isIp);
      if accepted {
        cameras := cameras + [LegacyCamera(newId, name, location, ipAddress)];
      }
    }

    method OpenDeleteDialog(id: string)
      modifies this
      ensures cameraToDelete == Some(id) && deleteDialogOpen && cameras == old(cameras)
    {
      cameraToDelete := Some(id);
      deleteDialogOpen := true;
    }

    /** `deleteCamera`: with a pending id, filter it out, close the dialog and forget the id; otherwise nothing. */
    method DeleteCamera()
      modifies this
      ensures IsPending(old(cameraToDelete)) ==>
        cameras == Without(old(cameras), old(cameraToDelete).value) && !deleteDialogOpen && cameraToDelete == None
      ensures !IsPending(old(cameraToDelete)) ==>
        cameras == old(cameras) && deleteDialogOpen == old(deleteDialogOpen) && cameraToDelete == old(cameraToDelete)
    {
      if IsPending(cameraToDelete) {
        cameras := Without(cameras, cameraToDelete.value);
        deleteDialogOpen := false;
        cameraToDelete := None;
      }
    }
  }

  /** Asking to delete a camera and confirming removes it, and only it. */
  method DeleteRoundTrip(page: LegacyCameraPage, c: LegacyCamera)
    requires c.id != "" && c in page.cameras
    modifies page
    ensures c !in page.cameras
    ensures forall x :: x in old(page.cameras) && x.id != c.id ==> x in page.cameras
    ensures page.cameraToDelete == None && !page.deleteDialogOpen
  {
    page.OpenDeleteDialog(c.id);
    page.DeleteCamera();
  }
}
