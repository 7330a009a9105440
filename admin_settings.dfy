/** The settings page: editing the registration catalogs, the student
    directory table with its search, sort and selection, and the single-slot
    undo for a bulk delete and for a reset of the process data. */
module AdminSettings {
  import opened Strings
  import opened Seqs
  import opened Types
  import opened MockDb
  import opened RequirementEdits

  // ===========================================================================
  // Sorting the directory table

  /** A column of the directory table. */
  datatype StudentKey = Nama | Npm | Prodi | JudulSkripsi | Pembimbing1 | Pembimbing2 | Penguji1 | Penguji2

  function FieldOf(s: Student, k: StudentKey): string
  {
    match k
    case Nama => s.nama
    case Npm => s.npm
    case Prodi => s.prodi
    case JudulSkripsi => s.judulSkripsi
    case Pembimbing1 => s.pembimbing1
    case Pembimbing2 => s.pembimbing2
    case Penguji1 => s.penguji1
    case Penguji2 => s.penguji2
  }

  datatype Direction = Asc | Desc

  datatype SortConfig = SortConfig(key: StudentKey, direction: Direction)

  /** Clicking a column header: descending only when the table is already
      sorted ascending by that same column, ascending otherwise. */
  function NextSort(current: Option<SortConfig>, key: StudentKey): (r: SortConfig)
    ensures r.key == key
    ensures r.direction == Desc <==> current == Some(SortConfig(key, Asc))
  {
    if current.Some? && current.value.key == key && current.value.direction == Asc then SortConfig(key, Desc)
    else SortConfig(key, Asc)
  }

  /** Clicking the same header again always reverses the direction. */
  lemma SortHeaderAlternates(current: Option<SortConfig>, key: StudentKey)
    ensures NextSort(Some(NextSort(current, key)), key).direction != NextSort(current, key).direction
  {
  }

  /** The text a column is compared on: the field, lower-cased. */
  function SortText(s: Student, k: StudentKey): string
  {
    ToLower(FieldOf(s, k))
  }

  /** `a <= b` on strings. */
  predicate AtMost(a: string, b: string)
  {
    !Less(b, a)
  }

  lemma AtMostTotal(a: string, b: string)
    ensures AtMost(a, b) || AtMost(b, a)
  {
    LessTrichotomy(a, b);
    if Less(a, b) && Less(b, a) {
      LessTransitive(a, b, a);
      LessIrreflexive(a);
    }
  }

  lemma AtMostTransitive(a: string, b: string, c: string)
    requires AtMost(a, b) && AtMost(b, c)
    ensures AtMost(a, c)
  {
    LessTrichotomy(a, b);
    LessTrichotomy(b, c);
    if a != b && b != c {
      LessTransitive(a, b, c);
      LessAsymmetric(a, c);
    }
  }

  lemma LessAsymmetric(a: string, b: string)
    requires Less(a, b)
    ensures !Less(b, a)
  {
    if Less(b, a) {
      LessTransitive(a, b, a);
      LessIrreflexive(a);
    }
  }

  /** The comparator handed to `sort`, as "a may come before b":
      the compare function returns at most 0 for (a, b). */
  function SortOrder(cfg: SortConfig): (Student, Student) -> bool
  {
    (a: Student, b: Student) =>
      if cfg.direction == Asc then AtMost(SortText(a, cfg.key), SortText(b, cfg.key))
      else AtMost(SortText(b, cfg.key), SortText(a, cfg.key))
  }

  lemma SortOrderTotal(cfg: SortConfig)
    ensures TotalPreorder(SortOrder(cfg))
  {
    var le := SortOrder(cfg);
    forall a: Student, b: Student
      ensures le(a, b) || le(b, a)
    {
      AtMostTotal(SortText(a, cfg.key), SortText(b, cfg.key));
    }
    forall a: Student, b: Student, c: Student | le(a, b) && le(b, c)
      ensures le(a, c)
    {
      if cfg.direction == Asc {
        AtMostTransitive(SortText(a, cfg.key), SortText(b, cfg.key), SortText(c, cfg.key));
      } else {
        AtMostTransitive(SortText(c, cfg.key), SortText(b, cfg.key), SortText(a, cfg.key));
      }
    }
  }

  // ===========================================================================
  // Searching the directory table

  /** The name contains the search ignoring case, or the student number
      contains it as typed. */
  predicate MatchesSearch(s: Student, search: string)
  {
    Contains(ToLower(s.nama), ToLower(search)) || Contains(s.npm, search)
  }

  function SearchFilter(search: string): Student -> bool
  {
    (s: Student) => MatchesSearch(s, search)
  }

  /** The rows the table shows: the students matching the search, ordered by
      the sort column when one is set and in directory order otherwise. */
  function ProcessedStudents(students: seq<Student>, search: string, sort: Option<SortConfig>): (r: seq<Student>)
    ensures forall i :: 0 <= i < |r| ==> r[i] in students && MatchesSearch(r[i], search)
    ensures forall i :: 0 <= i < |students| && MatchesSearch(students[i], search) ==> students[i] in r
    ensures multiset(r) == multiset(Filter(students, SearchFilter(search)))
    ensures sort.None? ==> r == Filter(students, SearchFilter(search))
    ensures sort.Some? ==> SortedBy(r, SortOrder(sort.value))
  {
    var matching := Filter(students, SearchFilter(search));
    if sort.None? then matching
    else
      SortOrderTotal(sort.value);
      var r := SortBy(matching, SortOrder(sort.value));
      SameMembers(r, matching);
      r
  }

  /** An ascending sort puts the column texts in non-decreasing order, a
      descending sort in non-increasing order. */
  lemma SortedByColumn(students: seq<Student>, search: string, cfg: SortConfig, i: nat, j: nat)
    requires i < j < |ProcessedStudents(students, search, Some(cfg))|
    ensures var r := ProcessedStudents(students, search, Some(cfg));
      if cfg.direction == Asc then !Less(SortText(r[j], cfg.key), SortText(r[i], cfg.key))
      else !Less(SortText(r[i], cfg.key), SortText(r[j], cfg.key))
  {
    var r := ProcessedStudents(students, search, Some(cfg));
    assert SortOrder(cfg)(r[i], r[j]);
  }

  /** An empty search shows every student. */
  lemma EmptySearchShowsAll(students: seq<Student>)
    ensures ProcessedStudents(students, "", None) == students
  {
    forall i | 0 <= i < |students|
      ensures SearchFilter("")(students[i])
    {
      assert OccursAt(students[i].npm, "", 0);
    }
    FilterAll(students, SearchFilter(""));
  }

  // ===========================================================================
  // Selecting rows

  /** The student numbers of a list of rows. */
  function NpmSet(rows: seq<Student>): (r: set<string>)
    ensures forall i :: 0 <= i < |rows| ==> rows[i].npm in r
    ensures forall n :: n in r ==> exists i :: 0 <= i < |rows| && rows[i].npm == n
  {
    if rows == [] then {} else {rows[0].npm} + NpmSet(rows[1..])
  }

  predicate DistinctNpms(rows: seq<Student>)
  {
    forall i, j :: 0 <= i < j < |rows| ==> rows[i].npm != rows[j].npm
  }

  /** Rows with distinct student numbers yield one number per row. */
  lemma {:induction false} NpmSetSize(rows: seq<Student>)
    requires DistinctNpms(rows)
    ensures |NpmSet(rows)| == |rows|
  {
    if rows != [] {
      NpmSetSize(rows[1..]);
      assert rows[0].npm !in NpmSet(rows[1..]);
    }
  }

  /** The header checkbox: it clears the selection when the selection is as
      large as the non-empty table, and otherwise selects every row shown. */
  function ToggleSelectAll(selected: set<string>, shown: seq<Student>): (r: set<string>)
    ensures |selected| == |shown| && |shown| > 0 ==> r == {}
    ensures !(|selected| == |shown| && |shown| > 0) ==> r == NpmSet(shown)
  {
    if |selected| == |shown| && |shown| > 0 then {} else NpmSet(shown)
  }

  /** On a table of distinct students, the header checkbox selects all rows
      from an empty selection and clears them on the next click. */
  lemma SelectAllThenClear(shown: seq<Student>)
    requires DistinctNpms(shown) && |shown| > 0
    ensures ToggleSelectAll({}, shown) == NpmSet(shown)
    ensures ToggleSelectAll(ToggleSelectAll({}, shown), shown) == {}
  {
    NpmSetSize(shown);
  }

  /** A row checkbox: the number leaves the selection if it was in it and
      joins it otherwise. */
  function ToggleSelectRow(selected: set<string>, npm: string): (r: set<string>)
    ensures npm in r <==> npm !in selected
    ensures forall n :: n != npm ==> (n in r <==> n in selected)
  {
    if npm in selected then selected - {npm} else selected + {npm}
  }

  lemma ToggleRowTwice(selected: set<string>, npm: string)
    ensures ToggleSelectRow(ToggleSelectRow(selected, npm), npm) == selected
  {
  }

  /** The students whose number is selected. */
  function SelectedStudents(students: seq<Student>, selected: set<string>): (r: seq<Student>)
    ensures forall i :: 0 <= i < |r| ==> r[i] in students && r[i].npm in selected
    ensures forall i :: 0 <= i < |students| && students[i].npm in selected ==> students[i] in r
  {
    Filter(students, (s: Student) => s.npm in selected)
  }

  // ===========================================================================
  // The page

  class SettingsPage {
    const db: MockDatabase
    const editor: RequirementEditor
    var reqType: Phase
    var students: seq<Student>
    var dbSearch: string
    var selectedNpms: set<string>
    var sortConfig: Option<SortConfig>
    /** The process lists as they were before the last reset, if not yet
        restored. */
    var undoReset: Option<Snapshot>
    /** The students removed by the last bulk delete, if not yet restored. */
    var undoDelete: Option<seq<Student>>

    constructor(db: MockDatabase, editor: RequirementEditor)
      requires editor.idPrefix == "new_req_" && editor.newCaption == "Syarat Baru"
      ensures this.db == db && this.editor == editor
      ensures reqType == Proposal && students == [] && dbSearch == ""
      ensures selectedNpms == {} && sortConfig.None? && undoReset.None? && undoDelete.None?
    {
      this.db := db;
      this.editor := editor;
      reqType := Proposal;
      students := [];
      dbSearch := "";
      selectedNpms := {};
      sortConfig := None;
      undoReset := None;
      undoDelete := None;
    }

    /** The rows currently shown. */
    function Processed(): seq<Student>
      reads this
    {
      ProcessedStudents(students, dbSearch, sortConfig)
    }

    /** Switching the catalog tab loads that phase's registration catalog. */
    method SelectReqType(p: Phase)
      modifies this, editor
      ensures reqType == p && editor.requirements == db.RegistrationCatalog(p) && !editor.hasChanges
      ensures students == old(students) && selectedNpms == old(selectedNpms)
      ensures undoReset == old(undoReset) && undoDelete == old(undoDelete)
    {
      reqType := p;
      editor.Load(db.RegistrationCatalog(p));
    }

    /** Writing the edited list over the registration catalog of the tab's
        phase. */
    method SaveRequirements()
      modifies db, editor
      ensures db.RegistrationCatalog(reqType) == editor.requirements && editor.requirements == old(editor.requirements)
      ensures db.submissions == old(db.submissions) && db.schedules == old(db.schedules)
      ensures !editor.hasChanges
    {
      db.UpdateRequirements(reqType, editor.requirements);
      editor.MarkSaved();
    }

    /** A directory reload from the student service. */
    method LoadStudents(loaded: seq<Student>)
      modifies this
      ensures students == loaded && selectedNpms == old(selectedNpms) && sortConfig == old(sortConfig)
      ensures undoReset == old(undoReset) && undoDelete == old(undoDelete) && dbSearch == old(dbSearch)
    {
      students := loaded;
    }

    method HandleSearchChange(value: string)
      modifies this
      ensures dbSearch == value && students == old(students) && selectedNpms == old(selectedNpms)
      ensures sortConfig == old(sortConfig) && undoReset == old(undoReset) && undoDelete == old(undoDelete)
    {
      dbSearch := value;
    }

    method HandleSort(key: StudentKey)
      modifies this
      ensures sortConfig == Some(NextSort(old(sortConfig), key))
      ensures students == old(students) && selectedNpms == old(selectedNpms) && dbSearch == old(dbSearch)
      ensures undoReset == old(undoReset) && undoDelete == old(undoDelete)
    {
      var direction := Asc;
      if sortConfig.Some? && sortConfig.value.key == key && sortConfig.value.direction == Asc {
        direction := Desc;
      }
      sortConfig := Some(SortConfig(key, direction));
    }

    method HandleToggleSelectAll()
      modifies this
      ensures selectedNpms == ToggleSelectAll(old(selectedNpms), old(Processed()))
      ensures students == old(students) && dbSearch == old(dbSearch) && sortConfig == old(sortConfig)
      ensures undoReset == old(undoReset) && undoDelete == old(undoDelete)
    {
      var shown := Processed();
      if |selectedNpms| == |shown| && |shown| > 0 {
        selectedNpms := {};
      } else {
        selectedNpms := NpmSet(shown);
      }
    }

    method HandleToggleSelectRow(npm: string)
      modifies this
      ensures selectedNpms == ToggleSelectRow(old(selectedNpms), npm)
      ensures students == old(students) && dbSearch == old(dbSearch) && sortConfig == old(sortConfig)
      ensures undoReset == old(undoReset) && undoDelete == old(undoDelete)
    {
      var newSet := selectedNpms;
      if npm in newSet {
        newSet := newSet - {npm};
      } else {
        newSet := newSet + {npm};
      }
      selectedNpms := newSet;
    }

    /** A confirmed bulk delete: the selected students are kept for undo,
        the selection is cleared, and the directory is reloaded from the
        student service, whose state after the deletion is `reloaded`. */
    method ExecuteBulkDelete(reloaded: seq<Student>)
      modifies this
      ensures undoDelete == Some(SelectedStudents(old(students), old(selectedNpms)))
      ensures selectedNpms == {} && students == reloaded
      ensures undoReset == old(undoReset) && sortConfig == old(sortConfig) && dbSearch == old(dbSearch)
    {
      var chosen := selectedNpms;
      var studentsToDelete := Filter(students, (s: Student) => s.npm in chosen);
      undoDelete := Some(studentsToDelete);
      selectedNpms := {};
      students := reloaded;
    }

    /** A confirmed undo of the bulk delete: nothing without a held list;
        otherwise the list is handed back to the student service, the slot
        is emptied, and the directory is reloaded as `reloaded`. The
        returned list is what is handed back. */
    method ExecuteUndoDelete(reloaded: seq<Student>) returns (restored: Option<seq<Student>>)
      modifies this
      ensures restored == old(undoDelete)
      ensures old(undoDelete).None? ==> students == old(students)
      ensures old(undoDelete).Some? ==> students == reloaded
      ensures undoDelete.None? && undoReset == old(undoReset) && selectedNpms == old(selectedNpms)
    {
      restored := undoDelete;
      if undoDelete.None? {
        return;
      }
      undoDelete := None;
      students := reloaded;
    }

    /** A held snapshot has at most one registration per student and phase,
        so restoring it keeps the store valid. */
    predicate UndoResetSound()
      reads this
    {
      undoReset.Some? ==> UniqueRegistrations(undoReset.value.submissions)
    }

    /** A confirmed reset: the process lists are kept for undo, then wiped;
        rooms and catalogs stay. */
    method ExecuteReset()
      modifies this, db
      ensures undoReset == Some(Snapshot(old(db.submissions), old(db.schedules)))
      ensures db.submissions == [] && db.schedules == []
      ensures db.CurrentSetup() == old(db.CurrentSetup())
      ensures old(db.Valid()) ==> db.Valid() && UndoResetSound()
      ensures undoDelete == old(undoDelete) && students == old(students) && selectedNpms == old(selectedNpms)
    {
      var snapshot := db.GetProcessSnapshot();
      undoReset := Some(snapshot);
      db.ResetProcessData();
    }

    /** A confirmed undo of the reset: nothing without a held snapshot;
        otherwise the snapshot replaces both process lists and the slot is
        emptied, so a second undo does nothing. */
    method ExecuteUndoReset()
      modifies this, db
      ensures old(undoReset).None? ==> db.submissions == old(db.submissions) && db.schedules == old(db.schedules)
      ensures old(undoReset).Some? ==> db.submissions == old(undoReset).value.submissions && db.schedules == old(undoReset).value.schedules
      ensures undoReset.None? && db.CurrentSetup() == old(db.CurrentSetup())
      ensures old(db.Valid()) && old(UndoResetSound()) ==> db.Valid()
      ensures undoDelete == old(undoDelete) && students == old(students) && selectedNpms == old(selectedNpms)
    {
      if undoReset.None? {
        return;
      }
      db.RestoreProcessSnapshot(undoReset.value);
      undoReset := None;
    }
  }
}
