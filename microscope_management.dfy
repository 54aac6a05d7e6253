/**
 * The microscope page: its own microscope list behind a validated form, with create,
 * edit and delete. `MicroscopePage.Valid` (every microscope passes the form's rules,
 * magnification at least 1 among them) holds for the seed list and after every handler.
 */
module MicroscopeManagement {
  import opened Wrappers
  import opened Seqs
  import opened Devices

  datatype MicroscopeForm = MicroscopeForm(
    name: string, location: string, model: string, magnification: int, digitalOutput: bool,
    calibrationDate: Option<string>, status: Status)

  /** The form's schema: name, location and model of 2 characters or more, magnification at least 1. */
  predicate FormAccepted(f: MicroscopeForm) {
    |f.name| >= 2 && |f.location| >= 2 && |f.model| >= 2 && f.magnification >= 1
  }

  /** A microscope whose fields satisfy the form's rules. */
  predicate WellFormed(m: Microscope) {
    |m.name| >= 2 && |m.location| >= 2 && |m.model| >= 2 && m.magnification >= 1
  }

  predicate AllWellFormed(ms: seq<Microscope>) {
    forall m :: m in ms ==> WellFormed(m)
  }

  /** The values `openEditDialog` puts in the form; an absent calibration date becomes "". */
  function FormOf(m: Microscope): (f: MicroscopeForm)
    ensures f.calibrationDate.Some?
    ensures m.calibrationDate.Some? ==> f.calibrationDate == m.calibrationDate
  {
    MicroscopeForm(m.name, m.location, m.model, m.magnification, m.digitalOutput,
      Some(m.calibrationDate.GetOr("")), m.status)
  }

  /** The record's form fields, read back unchanged. */
  function FieldsOf(m: Microscope): MicroscopeForm {
    MicroscopeForm(m.name, m.location, m.model, m.magnification, m.digitalOutput, m.calibrationDate, m.status)
  }

  /** `{...microscope, ...values, lastUpdated}`: the form's fields over the record's, id kept. */
  function Merge(m: Microscope, f: MicroscopeForm, now: int): (r: Microscope)
    ensures r.id == m.id && r.lastUpdated == now && FieldsOf(r) == f
  {
    Microscope(m.id, f.name, f.location, f.status, now, f.model, f.magnification, f.digitalOutput, f.calibrationDate)
  }

  /** The record `onCreateSubmit` builds from the form, a new id and the current time. */
  function FromForm(f: MicroscopeForm, id: string, now: int): (r: Microscope)
    ensures r.id == id && r.lastUpdated == now && FieldsOf(r) == f
  {
    Microscope(id, f.name, f.location, f.status, now, f.model, f.magnification, f.digitalOutput, f.calibrationDate)
  }

  /** The form accepts exactly the values that make a well-formed microscope. */
  lemma FormAcceptedIffWellFormed(f: MicroscopeForm, m: Microscope)
    requires FieldsOf(m) == f
    ensures FormAccepted(f) <==> WellFormed(m)
  {
  }

  /**
   * Opening the edit dialog and submitting it unchanged refreshes `lastUpdated`, and
   * turns an absent calibration date into "", and nothing else.
   */
  lemma EditUnchanged(m: Microscope, now: int)
    ensures WellFormed(m) ==> FormAccepted(FormOf(m))
    ensures Merge(m, FormOf(m), now) == m.(calibrationDate := Some(m.calibrationDate.GetOr("")), lastUpdated := now)
  {
  }

  function IdIs(id: string): Microscope -> bool {
    (m: Microscope) => m.id == id
  }

  function IdIsNot(id: string): Microscope -> bool {
    (m: Microscope) => m.id != id
  }

  function MergeWith(f: MicroscopeForm, now: int): Microscope -> Microscope {
    (m: Microscope) => Merge(m, f, now)
  }

  /** The list after `onEditSubmit`: microscopes with the id take the form's values and the new time. */
  function EditMicroscopes(ms: seq<Microscope>, id: string, f: MicroscopeForm, now: int): (r: seq<Microscope>)
    ensures |r| == |ms|
    ensures forall j :: 0 <= j < |ms| ==> r[j].id == ms[j].id
    ensures forall j :: 0 <= j < |ms| && ms[j].id == id ==> FieldsOf(r[j]) == f && r[j].lastUpdated == now
    ensures forall j :: 0 <= j < |ms| && ms[j].id != id ==> r[j] == ms[j]
  {
    MapWhere(ms, IdIs(id), MergeWith(f, now))
  }

  /** The list after `deleteMicroscope`: exactly the microscopes with other ids, in order. */
  function DeleteMicroscope(ms: seq<Microscope>, id: string): (r: seq<Microscope>)
    ensures forall m :: m in r <==> m in ms && m.id != id
    ensures forall m :: multiset(r)[m] == if m.id == id then 0 else multiset(ms)[m]
  {
    FilterContents(ms, IdIsNot(id));
    Filter(ms, IdIsNot(id))
  }

  /** Deleting a microscope just created under a fresh id gives back the list before the create. */
  lemma DeleteUndoesCreate(ms: seq<Microscope>, f: MicroscopeForm, id: string, now: int)
    requires forall m :: m in ms ==> m.id != id
    ensures DeleteMicroscope(ms + [FromForm(f, id, now)], id) == ms
  {
    FilterAppend(ms, [FromForm(f, id, now)], IdIsNot(id));
    FilterKeepsAll(ms, IdIsNot(id));
    assert Filter([FromForm(f, id, now)], IdIsNot(id)) == [];
  }

  /** An accepted edit keeps every microscope well formed. */
  lemma EditKeepsWellFormed(ms: seq<Microscope>, id: string, f: MicroscopeForm, now: int)
    requires AllWellFormed(ms) && FormAccepted(f)
    ensures AllWellFormed(EditMicroscopes(ms, id, f, now))
  {
    var r := EditMicroscopes(ms, id, f, now);
    forall m | m in r ensures WellFormed(m) {
      var j :| 0 <= j < |r| && r[j] == m;
      assert ms[j] in ms;
      if ms[j].id == id {
        FormAcceptedIffWellFormed(f, m);
      }
    }
  }

  /** The three microscopes the page starts with. */
  function SeedMicroscopes(now: int): seq<Microscope> {
    [ Microscope("1", "Lab Microscope A", "Research Lab 1", Online, now, "Olympus BX53", 1000, true, Some("2023-10-15")),
      Microscope("2", "Teaching Microscope", "Classroom 305", Maintenance, now, "Nikon E200", 400, true, None),
      Microscope("3", "Quality Control Microscope", "Manufacturing Floor", Offline, now, "Zeiss Axio", 200, false, Some("2023-12-01")) ]
  }

  class MicroscopePage {
    var microscopes: seq<Microscope>
    var selectedMicroscope: Option<Microscope>
    var editDialogOpen: bool
    var deleteDialogOpen: bool

    ghost predicate Valid()
      reads this
    {
      AllWellFormed(microscopes)
    }

    constructor (now: int)
      ensures microscopes == SeedMicroscopes(now) && selectedMicroscope == None
      ensures !editDialogOpen && !deleteDialogOpen
      ensures Valid()
    {
      microscopes := SeedMicroscopes(now);
      selectedMicroscope := None;
      editDialogOpen, deleteDialogOpen := false, false;
    }

    /** `onCreateSubmit`, behind the form's validation; `newId` and `now` come from the clock. */
    method OnCreateSubmit(f: MicroscopeForm, newId: string, now: int) returns (accepted: bool)
      requires Valid()
      modifies this
      ensures Valid()
      ensures accepted == FormAccepted(f)
      ensures microscopes == if accepted then old(microscopes) + [FromForm(f, newId, now)] else old(microscopes)
      ensures selectedMicroscope == old(selectedMicroscope)
      ensures editDialogOpen == old(editDialogOpen) && deleteDialogOpen == old(deleteDialogOpen)
    {
      accepted := FormAccepted(f);
      if accepted {
        FormAcceptedIffWellFormed(f, FromForm(f, newId, now));
        microscopes := microscopes + [FromForm(f, newId, now)];
      }
    }

    method OpenEditDialog(m: Microscope) returns (form: MicroscopeForm)
      modifies this
      ensures form == FormOf(m) && selectedMicroscope == Some(m) && editDialogOpen
      ensures microscopes == old(microscopes)
      ensures deleteDialogOpen == old(deleteDialogOpen)
    {
      selectedMicroscope := Some(m);
      form := FormOf(m);
      editDialogOpen := true;
    }

    /** `onEditSubmit`, behind the form's validation; a no-op without a selected microscope. */
    method OnEditSubmit(f: MicroscopeForm, now: int) returns (accepted: bool)
      requires Valid()
      modifies this
      ensures Valid()
      ensures accepted == FormAccepted(f)
      ensures microscopes == if accepted && old(selectedMicroscope).Some?
        then EditMicroscopes(old(microscopes), old(selectedMicroscope).value.id, f, now) else old(microscopes)
      ensures if accepted && old(selectedMicroscope).Some?
        then selectedMicroscope == None && !editDialogOpen
        else selectedMicroscope == old(selectedMicroscope) && editDialogOpen == old(editDialogOpen)
      ensures deleteDialogOpen == old(deleteDialogOpen)
    {
      accepted := FormAccepted(f);
      if !accepted || selectedMicroscope.None? {
        return;
      }
      EditKeepsWellFormed(microscopes, selectedMicroscope.value.id, f, now);
      microscopes := EditMicroscopes(microscopes, selectedMicroscope.value.id, f, now);
      editDialogOpen := false;
      selectedMicroscope := None;
    }

    method OpenDeleteDialog(m: Microscope)
      modifies this
      ensures selectedMicroscope == Some(m) && deleteDialogOpen && microscopes == old(microscopes)
      ensures editDialogOpen == old(editDialogOpen)
    {
      selectedMicroscope := Some(m);
      deleteDialogOpen := true;
    }

    /** `deleteMicroscope`: a no-op without a selected microscope. */
    method DeleteSelected()
      requires Valid()
      modifies this
      ensures Valid()
      ensures microscopes == if old(selectedMicroscope).Some?
        then DeleteMicroscope(old(microscopes), old(selectedMicroscope).value.id) else old(microscopes)
      ensures if old(selectedMicroscope).Some?
        then selectedMicroscope == None && !deleteDialogOpen
        else selectedMicroscope == old(selectedMicroscope) && deleteDialogOpen == old(deleteDialogOpen)
      ensures editDialogOpen == old(editDialogOpen)
    {
      if selectedMicroscope.None? {
        return;
      }
      microscopes := DeleteMicroscope(microscopes, selectedMicroscope.value.id);
      deleteDialogOpen := false;
      selectedMicroscope := None;
    }
  }
}
