/** The administrators' dashboard of src/app/dashboard/page.tsx: its React state as the
    fields of a class, and its event handlers as methods over that state and the store.
    Each handler is tied to a pure function of the state it starts from, and the
    properties the page relies on are proved about those functions. */
module DashboardPage {
  import opened Text
  import opened CertificateId
  import opened CertificateStore
  import opened Names
  import opened DashboardRecords

  /** What the QR modal shows of a record. */
  datatype SavedRecord = SavedRecord(certNumber: string, issuedTo: string, isNewRecord: bool)

  /** `isEditing`: the id of the record the entry modal edits, if any. */
  datatype EditTarget = NoTarget | Target(id: int)

  /** `qrModalRecord`: the record the QR modal shows, if any. */
  datatype QrContent = NoQr | Showing(record: SavedRecord)

  /** The page's overlays and the entry form: everything the handlers change besides the
      record list and the two busy flags. */
  datatype UiState = UiState(isModalOpen: bool, isPreviewModalOpen: bool, isFullscreen: bool,
                             qrModalRecord: QrContent, isEditing: EditTarget,
                             isLegacyMode: bool, showLogoutConfirm: bool, showDeleteConfirm: bool,
                             showNoThumbnailConfirm: bool, showDeletePasswordModal: bool,
                             deletePassword: string, passwordError: bool, formData: Form)

  // ---------------------------------------------------------------- overlays and Escape

  /** The eight things Escape can close, in the order it closes them. */
  datatype Layer = Fullscreen | NoThumbnailConfirm | DeleteConfirm | DeletePasswordModal
                 | LogoutConfirm | QrModal | PreviewModal | EntryModal

  function Rank(l: Layer): nat {
    match l
    case Fullscreen => 0
    case NoThumbnailConfirm => 1
    case DeleteConfirm => 2
    case DeletePasswordModal => 3
    case LogoutConfirm => 4
    case QrModal => 5
    case PreviewModal => 6
    case EntryModal => 7
  }

  predicate Open(u: UiState, l: Layer) {
    match l
    case Fullscreen => u.isFullscreen
    case NoThumbnailConfirm => u.showNoThumbnailConfirm
    case DeleteConfirm => u.showDeleteConfirm
    case DeletePasswordModal => u.showDeletePasswordModal
    case LogoutConfirm => u.showLogoutConfirm
    case QrModal => u.qrModalRecord.Showing?
    case PreviewModal => u.isPreviewModalOpen
    case EntryModal => u.isModalOpen
  }

  /** `isAnyModalOpen`, which locks the page's scrolling. */
  predicate AnyModalOpen(u: UiState) {
    u.isModalOpen || u.isPreviewModalOpen || u.qrModalRecord.Showing? || u.showLogoutConfirm
    || u.showDeleteConfirm || u.showDeletePasswordModal || u.showNoThumbnailConfirm || u.isFullscreen
  }

  /** The open layer Escape closes first. */
  function TopLayer(u: UiState): Option<Layer> {
    if u.isFullscreen then Some(Fullscreen)
    else if u.showNoThumbnailConfirm then Some(NoThumbnailConfirm)
    else if u.showDeleteConfirm then Some(DeleteConfirm)
    else if u.showDeletePasswordModal then Some(DeletePasswordModal)
    else if u.showLogoutConfirm then Some(LogoutConfirm)
    else if u.qrModalRecord.Showing? then Some(QrModal)
    else if u.isPreviewModalOpen then Some(PreviewModal)
    else if u.isModalOpen then Some(EntryModal)
    else None
  }

  /** The top layer is open and ranks before every other open layer; there is one exactly
      when the page locks its scrolling. */
  lemma TopLayerIsFirstOpen(u: UiState)
    ensures TopLayer(u).Some? ==> Open(u, TopLayer(u).value)
    ensures forall l :: Open(u, l) ==> TopLayer(u).Some? && Rank(TopLayer(u).value) <= Rank(l)
    ensures TopLayer(u).Some? <==> AnyModalOpen(u)
  {
    forall l | Open(u, l)
      ensures TopLayer(u).Some? && Rank(TopLayer(u).value) <= Rank(l)
    {
      match l
      case Fullscreen =>
      case NoThumbnailConfirm =>
      case DeleteConfirm =>
      case DeletePasswordModal =>
      case LogoutConfirm =>
      case QrModal =>
      case PreviewModal =>
      case EntryModal =>
    }
  }

  /** `closeModal`: the entry modal shut, nothing being edited, the form back to its initial values. */
  function CloseModalUi(u: UiState): UiState {
    u.(isModalOpen := false, isEditing := NoTarget, isLegacyMode := false, formData := InitialForm)
  }

  /** Closing one layer; the password modal takes the typed password and its error with it,
      the entry modal is closed by `closeModal`. */
  function Shut(u: UiState, l: Layer): UiState {
    match l
    case Fullscreen => u.(isFullscreen := false)
    case NoThumbnailConfirm => u.(showNoThumbnailConfirm := false)
    case DeleteConfirm => u.(showDeleteConfirm := false)
    case DeletePasswordModal => u.(showDeletePasswordModal := false, deletePassword := "", passwordError := false)
    case LogoutConfirm => u.(showLogoutConfirm := false)
    case QrModal => u.(qrModalRecord := NoQr)
    case PreviewModal => u.(isPreviewModalOpen := false)
    case EntryModal => CloseModalUi(u)
  }

  /** `closeTopModal`, the Escape key: the top layer closes. */
  function CloseTop(u: UiState): UiState {
    match TopLayer(u)
    case None => u
    case Some(l) => Shut(u, l)
  }

  /** Escape closes the top layer and no other; with nothing open it changes nothing. */
  lemma CloseTopClosesOnlyTop(u: UiState)
    ensures forall l :: Open(CloseTop(u), l) == (Open(u, l) && TopLayer(u) != Some(l))
    ensures TopLayer(u).None? ==> CloseTop(u) == u
  {
    forall l ensures Open(CloseTop(u), l) == (Open(u, l) && TopLayer(u) != Some(l)) {
      if TopLayer(u).Some? {
        ShutOnly(u, TopLayer(u).value, l);
      }
    }
  }

  lemma ShutOnly(u: UiState, t: Layer, l: Layer)
    ensures Open(Shut(u, t), l) == (Open(u, l) && t != l)
  {
    match t
    case Fullscreen =>
    case NoThumbnailConfirm =>
    case DeleteConfirm =>
    case DeletePasswordModal =>
    case LogoutConfirm =>
    case QrModal =>
    case PreviewModal =>
    case EntryModal =>
  }

  lemma RankInjective(t: Layer, l: Layer)
    requires Rank(t) == Rank(l)
    ensures t == l
  {
    match t
    case Fullscreen =>
    case NoThumbnailConfirm =>
    case DeleteConfirm =>
    case DeletePasswordModal =>
    case LogoutConfirm =>
    case QrModal =>
    case PreviewModal =>
    case EntryModal =>
  }

  /** After a press of Escape the new top layer, if any, comes later in the closing order. */
  lemma {:induction false} CloseTopMovesDown(u: UiState)
    requires TopLayer(u).Some?
    ensures TopLayer(CloseTop(u)).Some? ==> Rank(TopLayer(CloseTop(u)).value) > Rank(TopLayer(u).value)
  {
    var v := CloseTop(u);
    if TopLayer(v).Some? {
      var t, l := TopLayer(u).value, TopLayer(v).value;
      TopLayerIsFirstOpen(v);
      CloseTopClosesOnlyTop(u);
      assert Open(u, l) && t != l;
      TopLayerIsFirstOpen(u);
      if Rank(t) == Rank(l) {
        RankInjective(t, l);
      }
    }
  }

  /** The typed password and its error go only with the password modal, the form and the
      edit target only with the entry modal. */
  lemma ShutKeepsInput(u: UiState, t: Layer)
    ensures t == DeletePasswordModal ==> Shut(u, t).deletePassword == "" && !Shut(u, t).passwordError
    ensures t != DeletePasswordModal ==>
      Shut(u, t).deletePassword == u.deletePassword && Shut(u, t).passwordError == u.passwordError
    ensures t == EntryModal ==> Shut(u, t).formData == InitialForm && Shut(u, t).isEditing.NoTarget?
    ensures t != EntryModal ==>
      Shut(u, t).formData == u.formData && Shut(u, t).isEditing == u.isEditing
      && Shut(u, t).isLegacyMode == u.isLegacyMode
  {
    match t
    case Fullscreen =>
    case NoThumbnailConfirm =>
    case DeleteConfirm =>
    case DeletePasswordModal =>
    case LogoutConfirm =>
    case QrModal =>
    case PreviewModal =>
    case EntryModal =>
  }

  /** Escape pressed `n` times. */
  function PressEscape(u: UiState, n: nat): UiState
    decreases n
  {
    if n == 0 then u else PressEscape(CloseTop(u), n - 1)
  }

  /** Enough presses of Escape to get past every layer from the top one down close them all. */
  lemma {:induction false} PressesCloseFromTop(u: UiState, n: nat)
    requires TopLayer(u).Some? ==> 8 - Rank(TopLayer(u).value) <= n
    ensures !AnyModalOpen(PressEscape(u, n))
    decreases n
  {
    if TopLayer(u).None? {
      TopLayerIsFirstOpen(u);
      if n > 0 {
        CloseTopClosesOnlyTop(u);
        PressesCloseFromTop(u, n - 1);
      }
    } else {
      CloseTopMovesDown(u);
      PressesCloseFromTop(CloseTop(u), n - 1);
    }
  }

  /** Eight presses of Escape, one per kind of layer, leave nothing open. */
  lemma EscapeClosesEverything(u: UiState)
    ensures !AnyModalOpen(PressEscape(u, 8))
  {
    PressesCloseFromTop(u, 8);
  }

  // ---------------------------------------------------------------- the database as the page sees it

  /** A getter's answer: the table newest first, or `[]` when the query failed. */
  function Listed(t: Table, fail: bool): seq<Row> {
    if fail then [] else NewestFirst(t)
  }

  /** JavaScript truthiness of `isEditing`: present and not `0`. */
  predicate Truthy(editing: EditTarget) {
    editing.Target? && editing.id != 0
  }

  /** The table the corrected handlers write to for the record being edited: the one that
      record was opened from, found by id and table together. */
  function EditedIsModern(recs: seq<Record>, id: int, isLegacyMode: bool): bool {
    TableFlag(FindEdited(recs, id, !isLegacyMode))
  }

  /** A record opened from a list whose keys are unique is edited in its own table. */
  lemma EditTargetsOpenedRecord(recs: seq<Record>, k: nat)
    requires UniqueKeys(recs) && k < |recs|
    ensures EditedIsModern(recs, recs[k].row.id, !recs[k].isModern) == recs[k].isModern
  {
    FindEditedReturnsOpened(recs, k);
  }

  /** The two tables of the store. */
  datatype Database = Database(legacy: Table, modern: Table)

  /** The two tables after a successful `deleteCertificate(id, isModern)`. */
  function AfterDelete(db: Database, id: int, isModern: bool): Database {
    if isModern then db.(modern := Table(DeleteRows(db.modern.rows, id), db.modern.nextId))
    else db.(legacy := Table(DeleteRows(db.legacy.rows, id), db.legacy.nextId))
  }

  /** `getModernCount` for the form's year and type, `0` when the query failed. */
  function CountFor(modern: Table, form: Form, failCount: bool): nat {
    if failCount then 0 else BucketCount(modern.rows, form.yearGraduated, form.certType)
  }

  /** The two tables after the form is submitted past the thumbnail gate: an update when
      editing, a manual legacy insert, or a generated modern insert; a failed write changes nothing. */
  function Submitted(db: Database, form: Form, editing: EditTarget, isLegacyMode: bool,
                     recs: seq<Record>, failCount: bool, failSave: bool): Database
  {
    var legacy, modern := db.legacy, db.modern;
    if failSave then db
    else if Truthy(editing) then
      if EditedIsModern(recs, editing.id, isLegacyMode)
      then Database(legacy, Table(UpdateRows(modern.rows, editing.id, ManualFields(form)), modern.nextId))
      else Database(Table(UpdateRows(legacy.rows, editing.id, ManualFields(form)), legacy.nextId), modern)
    else if isLegacyMode then Database(Insert(legacy, ManualFields(form)), modern)
    else Database(legacy, Insert(modern, ModernFields(form, ModernId(form, CountFor(modern, form, failCount)))))
  }

  /** The record the QR modal shows after a submission. */
  function SavedOf(db: Database, form: Form, editing: EditTarget, isLegacyMode: bool,
                   failCount: bool): SavedRecord
  {
    if Truthy(editing) || isLegacyMode then SavedRecord(WithPrefix(form.manualCertNumber), FormName(form), true)
    else SavedRecord(ModernId(form, CountFor(db.modern, form, failCount)), FormName(form), true)
  }

  /** The number a new modern record is shown under verifies, from the modern table. */
  lemma IssuedModernVerifies(db: Database, form: Form, editing: EditTarget,
                             recs: seq<Record>, failCount: bool)
    requires !Truthy(editing)
    ensures var after := Submitted(db, form, editing, false, recs, failCount, false);
      var shown := SavedOf(db, form, editing, false, failCount).certNumber;
      Lookup(after.legacy, after.modern, shown).Verified? && Lookup(after.legacy, after.modern, shown).isModern
  {
    var id := ModernId(form, CountFor(db.modern, form, failCount));
    SavedModernIsVerified(db.legacy, db.modern, ModernFields(form, id), id);
  }

  /** A new legacy record is found, from the legacy table, unless a modern row has the same number. */
  lemma {:induction false} IssuedLegacyVerifies(db: Database, form: Form, editing: EditTarget,
                                               recs: seq<Record>, failCount: bool)
    requires !Truthy(editing)
    requires var key := SearchKey(WithPrefix(form.manualCertNumber));
      forall j :: 0 <= j < |db.modern.rows| ==> !IsMatch(db.modern.rows[j], key)
    ensures var after := Submitted(db, form, editing, true, recs, failCount, false);
      var shown := SavedOf(db, form, editing, true, failCount).certNumber;
      Lookup(after.legacy, after.modern, shown).Verified? && !Lookup(after.legacy, after.modern, shown).isModern
  {
    var data := ManualFields(form);
    var key := SearchKey(WithPrefix(form.manualCertNumber));
    var rows := Insert(db.legacy, data).rows;
    UpperOfUpper(Clean(data).certNumber);
    assert IsMatch(rows[|rows| - 1], key);
    LegacyOnlyOnModernMiss(Insert(db.legacy, data), db.modern, WithPrefix(form.manualCertNumber));
  }

  /** An update that writes to each row with the id exactly what it holds changes nothing. */
  lemma UpdateSameData(rows: seq<Row>, id: int, data: Fields)
    requires forall i :: 0 <= i < |rows| && rows[i].id == id ==> rows[i].fields == Clean(data)
    ensures UpdateRows(rows, id, data) == rows
  {
  }

  /** In a valid table the row with a given id is the only one. */
  lemma OnlyRowWithId(t: Table, x: Row)
    requires TableValid(t) && x in t.rows
    ensures forall i :: 0 <= i < |t.rows| && t.rows[i].id == x.id ==> t.rows[i] == x
  {
  }

  /** Writing to a row of a valid table, by its id, what the row already holds changes nothing. */
  lemma ResubmitRow(t: Table, row: Row, data: Fields)
    requires TableValid(t) && row in t.rows && Clean(data) == row.fields
    ensures row.id != 0
    ensures UpdateRows(t.rows, row.id, data) == t.rows
  {
    OnlyRowWithId(t, row);
    UpdateSameData(t.rows, row.id, data);
  }

  /** Opening a record from the refreshed list and submitting the form untouched leaves both
      tables exactly as they were, whichever table the record came from, provided its name
      is upper-case words joined by single blanks, its number is in stored form and its
      validity is set. */
  lemma {:induction false} ResubmitUnchangedKeepsTables(legacy: Table, modern: Table, k: nat,
                                                       ws: seq<string>, failCount: bool)
    requires TableValid(legacy) && TableValid(modern)
    requires var recs := MergeRecords(NewestFirst(legacy), NewestFirst(modern));
      k < |recs| && Words(ws) && recs[k].row.fields.issuedTo == Join(ws, ' ')
      && StoredNumber(recs[k].row.fields.certNumber) && recs[k].row.fields.validity != ""
    ensures var recs := MergeRecords(NewestFirst(legacy), NewestFirst(modern));
      var rec := recs[k];
      Submitted(Database(legacy, modern), EditForm(rec), Target(rec.row.id), !rec.isModern, recs, failCount, false)
        == Database(legacy, modern)
  {
    var recs := MergeRecords(NewestFirst(legacy), NewestFirst(modern));
    var rec := recs[k];
    MergedKeysUnique(legacy, modern);
    EditTargetsOpenedRecord(recs, k);
    MergedMembers(legacy, modern);
    assert rec in recs;
    var data := ManualFields(EditForm(rec));
    EditThenSaveKeepsFields(rec, ws);
    if rec.isModern {
      ResubmitRow(modern, rec.row, data);
    } else {
      ResubmitRow(legacy, rec.row, data);
    }
    WritesBack(Database(legacy, modern), EditForm(rec), rec.row.id, !rec.isModern, recs, failCount);
  }

  /** An edit whose update leaves the chosen table's rows as they are leaves both tables as they are. */
  lemma WritesBack(db: Database, form: Form, id: int, isLegacyMode: bool, recs: seq<Record>, failCount: bool)
    requires id != 0
    requires EditedIsModern(recs, id, isLegacyMode) ==> UpdateRows(db.modern.rows, id, ManualFields(form)) == db.modern.rows
    requires !EditedIsModern(recs, id, isLegacyMode) ==> UpdateRows(db.legacy.rows, id, ManualFields(form)) == db.legacy.rows
    ensures Submitted(db, form, Target(id), isLegacyMode, recs, failCount, false) == db
  {
  }

  // ---------------------------------------------------------------- the page

  class Dashboard {
    const store: Store
    var records: seq<Record>
    var fetching: bool
    var loading: bool
    /** The remaining `useState` hooks handlers change. */
    var ui: UiState

    ghost predicate Valid()
      reads this, store
    {
      store.Valid()
    }

    function Tables(): Database
      reads store
    {
      Database(store.legacy, store.modern)
    }

    /** The page as first rendered: nothing open, the initial form, still fetching. */
    constructor(db: Store)
      requires db.Valid()
      ensures Valid() && store == db && records == [] && fetching && !loading
      ensures ui == UiState(false, false, false, NoQr, NoTarget, false, false, false, false, false,
                            "", false, InitialForm)
    {
      store := db;
      records := [];
      fetching := true;
      loading := false;
      ui := UiState(false, false, false, NoQr, NoTarget, false, false, false, false, false, "", false, InitialForm);
    }

    /** `refreshData`: both getters, the modern rows first, each tagged with its table. */
    method RefreshData(failLegacy: bool, failModern: bool)
      modifies this
      ensures records == MergeRecords(Listed(store.legacy, failLegacy), Listed(store.modern, failModern))
      ensures !fetching && loading == old(loading) && ui == old(ui)
    {
      fetching := true;
      var legacyRows := store.GetCertificates(failLegacy);
      var modernRows := store.GetModernCertificates(failModern);
      records := MergeRecords(legacyRows, modernRows);
      fetching := false;
    }

    /** `handleEditClick`: the preview closes and the entry modal opens on the record, in its own mode. */
    method EditClick(rec: Record)
      modifies this
      ensures ui == old(ui).(isPreviewModalOpen := false, isEditing := Target(rec.row.id),
                             formData := EditForm(rec), isLegacyMode := !rec.isModern, isModalOpen := true)
      ensures records == old(records) && loading == old(loading) && fetching == old(fetching)
    {
      ui := ui.(isPreviewModalOpen := false);
      ui := ui.(isEditing := Target(rec.row.id));
      ui := ui.(formData := EditForm(rec));
      ui := ui.(isLegacyMode := !rec.isModern);
      ui := ui.(isModalOpen := true);
    }

    /** `closeModal`. */
    method CloseModal()
      modifies this
      ensures ui == CloseModalUi(old(ui))
      ensures records == old(records) && loading == old(loading) && fetching == old(fetching)
    {
      ui := ui.(isModalOpen := false);
      ui := ui.(isEditing := NoTarget);
      ui := ui.(isLegacyMode := false);
      ui := ui.(formData := InitialForm);
    }

    /** `closeTopModal`. */
    method CloseTopModal()
      modifies this
      ensures ui == CloseTop(old(ui))
      ensures records == old(records) && loading == old(loading) && fetching == old(fetching)
    {
      if ui.isFullscreen {
        ui := ui.(isFullscreen := false);
      } else if ui.showNoThumbnailConfirm {
        ui := ui.(showNoThumbnailConfirm := false);
      } else if ui.showDeleteConfirm {
        ui := ui.(showDeleteConfirm := false);
      } else if ui.showDeletePasswordModal {
        ui := ui.(showDeletePasswordModal := false);
        ui := ui.(deletePassword := "");
        ui := ui.(passwordError := false);
      } else if ui.showLogoutConfirm {
        ui := ui.(showLogoutConfirm := false);
      } else if ui.qrModalRecord.Showing? {
        ui := ui.(qrModalRecord := NoQr);
      } else if ui.isPreviewModalOpen {
        ui := ui.(isPreviewModalOpen := false);
      } else if ui.isModalOpen {
        CloseModal();
      }
    }

    /** The delete `handleConfirmedDelete` sends for the record being edited. */
    method Delete(fail: bool) returns (success: bool)
      requires Valid() && Truthy(ui.isEditing)
      modifies store
      ensures Valid() && success == !fail
      ensures Tables() == if fail then old(Tables())
                          else AfterDelete(old(Tables()), ui.isEditing.id,
                                           EditedIsModern(records, ui.isEditing.id, ui.isLegacyMode))
    {
      var id := ui.isEditing.id;
      success := store.DeleteCertificate(id, EditedIsModern(records, id, ui.isLegacyMode), fail);
    }

    /** What `handleConfirmedDelete` does once the password is accepted and a record is being
        edited: the delete, and on success the password modal and the entry modal close and the
        list is refreshed. */
    method DeleteAndClose(fail: bool, failLegacy: bool, failModern: bool)
      requires Valid() && Truthy(ui.isEditing)
      modifies this, store
      ensures Valid() && loading == old(loading)
      ensures Tables() == if fail then old(Tables())
                          else AfterDelete(old(Tables()), old(ui.isEditing.id),
                                           EditedIsModern(old(records), old(ui.isEditing.id), old(ui.isLegacyMode)))
      ensures ui == if fail then old(ui)
                    else CloseModalUi(old(ui).(showDeletePasswordModal := false, deletePassword := ""))
      ensures records == if fail then old(records)
                         else MergeRecords(Listed(store.legacy, failLegacy), Listed(store.modern, failModern))
      ensures fetching == if fail then old(fetching) else false
    {
      var success := Delete(fail);
      if success {
        ui := ui.(showDeletePasswordModal := false);
        ui := ui.(deletePassword := "");
        CloseModal();
        RefreshData(failLegacy, failModern);
      }
    }

    /** What `handleConfirmedDelete` does once the password is accepted. */
    method DeleteAccepted(fail: bool, failLegacy: bool, failModern: bool)
      requires Valid()
      modifies this, store
      ensures Valid() && loading == old(loading)
      ensures !Truthy(old(ui.isEditing)) || fail ==>
        ui == old(ui).(passwordError := false) && Tables() == old(Tables()) && records == old(records)
        && fetching == old(fetching)
      ensures Truthy(old(ui.isEditing)) && !fail ==>
        Tables() == AfterDelete(old(Tables()), old(ui.isEditing.id),
                                EditedIsModern(old(records), old(ui.isEditing.id), old(ui.isLegacyMode)))
        && ui == CloseModalUi(old(ui).(passwordError := false, showDeletePasswordModal := false, deletePassword := ""))
        && records == MergeRecords(Listed(store.legacy, failLegacy), Listed(store.modern, failModern))
        && !fetching
    {
      ui := ui.(passwordError := false);
      if Truthy(ui.isEditing) {
        DeleteAndClose(fail, failLegacy, failModern);
      }
    }

    /** `handleConfirmedDelete`, with the re-authentication's outcome as `reauthOk` and the
        delete's failure as `fail`; the record is looked up by id and table. */
    method ConfirmedDelete(reauthOk: bool, fail: bool, failLegacy: bool, failModern: bool)
      requires Valid()
      modifies this, store
      ensures Valid() && !loading
      ensures !reauthOk ==>
        ui == old(ui).(passwordError := true) && Tables() == old(Tables()) && records == old(records)
        && fetching == old(fetching)
      ensures reauthOk && (!Truthy(old(ui.isEditing)) || fail) ==>
        ui == old(ui).(passwordError := false) && Tables() == old(Tables()) && records == old(records)
        && fetching == old(fetching)
      ensures reauthOk && Truthy(old(ui.isEditing)) && !fail ==>
        Tables() == AfterDelete(old(Tables()), old(ui.isEditing.id),
                                EditedIsModern(old(records), old(ui.isEditing.id), old(ui.isLegacyMode)))
        && ui == CloseModalUi(old(ui).(passwordError := false, showDeletePasswordModal := false, deletePassword := ""))
        && records == MergeRecords(Listed(store.legacy, failLegacy), Listed(store.modern, failModern))
        && !fetching
    {
      loading := true;
      if !reauthOk {
        ui := ui.(passwordError := true);
      } else {
        DeleteAccepted(fail, failLegacy, failModern);
      }
      loading := false;
    }

    /** The write `handleFormSubmit` sends past the thumbnail gate, and the record it then shows. */
    method Save(failCount: bool, failSave: bool) returns (saved: SavedRecord)
      requires Valid()
      modifies store
      ensures Valid()
      ensures Tables() == Submitted(old(Tables()), ui.formData, ui.isEditing, ui.isLegacyMode, records,
                                    failCount, failSave)
      ensures saved == SavedOf(old(Tables()), ui.formData, ui.isEditing, ui.isLegacyMode, failCount)
    {
      if Truthy(ui.isEditing) {
        saved := SaveEdited(failCount, failSave);
      } else if ui.isLegacyMode {
        saved := SaveLegacy(failCount, failSave);
      } else {
        saved := SaveModern(failCount, failSave);
      }
    }

    /** An edit: `updateCertificate` on the table the record came from. */
    method SaveEdited(failCount: bool, failSave: bool) returns (saved: SavedRecord)
      requires Valid() && Truthy(ui.isEditing)
      modifies store
      ensures Valid()
      ensures Tables() == Submitted(old(Tables()), ui.formData, ui.isEditing, ui.isLegacyMode, records,
                                    failCount, failSave)
      ensures saved == SavedOf(old(Tables()), ui.formData, ui.isEditing, ui.isLegacyMode, failCount)
    {
      var fields := ManualFields(ui.formData);
      var _ := store.UpdateCertificate(ui.isEditing.id, fields,
                                       EditedIsModern(records, ui.isEditing.id, ui.isLegacyMode), failSave);
      saved := SavedRecord(fields.certNumber, fields.issuedTo, true);
    }

    /** A new legacy record: `saveCertificate` under the typed number. */
    method SaveLegacy(failCount: bool, failSave: bool) returns (saved: SavedRecord)
      requires Valid() && !Truthy(ui.isEditing) && ui.isLegacyMode
      modifies store
      ensures Valid()
      ensures Tables() == Submitted(old(Tables()), ui.formData, ui.isEditing, ui.isLegacyMode, records,
                                    failCount, failSave)
      ensures saved == SavedOf(old(Tables()), ui.formData, ui.isEditing, ui.isLegacyMode, failCount)
    {
      var fields := ManualFields(ui.formData);
      var _ := store.SaveCertificate(fields, failSave);
      saved := SavedRecord(fields.certNumber, fields.issuedTo, true);
    }

    /** A new modern record: the bucket's count, then `saveModernCertificate` under the generated number. */
    method SaveModern(failCount: bool, failSave: bool) returns (saved: SavedRecord)
      requires Valid() && !Truthy(ui.isEditing) && !ui.isLegacyMode
      modifies store
      ensures Valid()
      ensures Tables() == Submitted(old(Tables()), ui.formData, ui.isEditing, ui.isLegacyMode, records,
                                    failCount, failSave)
      ensures saved == SavedOf(old(Tables()), ui.formData, ui.isEditing, ui.isLegacyMode, failCount)
    {
      var form := ui.formData;
      var count := store.GetModernCount(form.yearGraduated, form.certType, failCount);
      var fields := ModernFields(form, ModernId(form, count));
      var _ := store.SaveModernCertificate(fields, failSave);
      saved := SavedRecord(fields.certNumber, fields.issuedTo, true);
    }

    /** `handleFormSubmit` past the thumbnail gate: the write, the refresh, the modal closed and
        the QR code of the saved record shown. */
    method SubmitPastGate(failCount: bool, failSave: bool, failLegacy: bool, failModern: bool)
      requires Valid()
      modifies this, store
      ensures Valid()
      ensures Tables() == Submitted(old(Tables()), old(ui.formData), old(ui.isEditing), old(ui.isLegacyMode),
                                    old(records), failCount, failSave)
      ensures ui == CloseModalUi(old(ui).(showNoThumbnailConfirm := false))
                      .(qrModalRecord := Showing(SavedOf(old(Tables()), old(ui.formData), old(ui.isEditing),
                                                         old(ui.isLegacyMode), failCount)))
      ensures records == MergeRecords(Listed(store.legacy, failLegacy), Listed(store.modern, failModern))
      ensures !loading && !fetching
    {
      loading := true;
      var saved := Save(failCount, failSave);
      ui := ui.(showNoThumbnailConfirm := false);
      RefreshData(failLegacy, failModern);
      CloseModal();
      ui := ui.(qrModalRecord := Showing(saved));
      loading := false;
    }

    /** `handleFormSubmit`. Without a photo link the first submission only asks for confirmation;
        past that, the write goes out, its own result unread, and the modal closes onto the QR
        code of the saved record. `failCount` and `failSave` stand for the count query and the
        write failing. The modern number comes from the six-argument generator call. */
    method FormSubmit(failCount: bool, failSave: bool, failLegacy: bool, failModern: bool)
      requires Valid()
      modifies this, store
      ensures Valid()
      ensures old(ui.formData.googlePhotosLink == "" && !ui.showNoThumbnailConfirm) ==>
        ui == old(ui).(showNoThumbnailConfirm := true) && Tables() == old(Tables())
        && records == old(records) && loading == old(loading) && fetching == old(fetching)
      ensures old(ui.formData.googlePhotosLink != "" || ui.showNoThumbnailConfirm) ==>
        Tables() == Submitted(old(Tables()), old(ui.formData), old(ui.isEditing), old(ui.isLegacyMode),
                              old(records), failCount, failSave)
        && ui == CloseModalUi(old(ui).(showNoThumbnailConfirm := false))
                   .(qrModalRecord := Showing(SavedOf(old(Tables()), old(ui.formData), old(ui.isEditing),
                                                   old(ui.isLegacyMode), failCount)))
        && records == MergeRecords(Listed(store.legacy, failLegacy), Listed(store.modern, failModern))
        && !loading && !fetching
    {
      if ui.formData.googlePhotosLink == "" && !ui.showNoThumbnailConfirm {
        ui := ui.(showNoThumbnailConfirm := true);
        return;
      }
      SubmitPastGate(failCount, failSave, failLegacy, failModern);
    }
  }
}
