/** The pure parts of the administrator dashboard (src/app/dashboard/page.tsx): the merged
    record list, its search, filters and sort, the edit form a record opens into, the
    columns a submitted form writes, and the record a delete or an edit targets. */
module DashboardRecords {
  import opened Text
  import opened CertificateId
  import opened CertificateStore
  import opened Names

  /** A row as the dashboard holds it: tagged with the table it came from. */
  datatype Record = Record(row: Row, isModern: bool)

  // ---------------------------------------------------------------- the merged list

  function Tag(rows: seq<Row>, isModern: bool): (r: seq<Record>)
    ensures |r| == |rows|
    ensures forall i :: 0 <= i < |rows| ==> r[i] == Record(rows[i], isModern)
  {
    seq(|rows|, i requires 0 <= i < |rows| => Record(rows[i], isModern))
  }

  /** `[...modernWithFlag, ...legacyWithFlag]`. */
  function MergeRecords(legacyRows: seq<Row>, modernRows: seq<Row>): seq<Record> {
    Tag(modernRows, true) + Tag(legacyRows, false)
  }

  lemma TagMembers(rows: seq<Row>, isModern: bool)
    ensures forall r :: r in Tag(rows, isModern) <==> r.isModern == isModern && r.row in rows
  {
    var tagged := Tag(rows, isModern);
    forall r | r in tagged
      ensures r.isModern == isModern && r.row in rows
    {
      var i :| 0 <= i < |tagged| && tagged[i] == r;
    }
    forall x | x in rows
      ensures Record(x, isModern) in tagged
    {
      var i :| 0 <= i < |rows| && rows[i] == x;
      assert tagged[i] == Record(x, isModern);
    }
  }

  lemma SameRows(t: Table)
    ensures forall x :: x in NewestFirst(t) <==> x in t.rows
  {
    ReverseSameRows(t.rows);
    assert forall x :: x in NewestFirst(t) <==> x in multiset(NewestFirst(t));
  }

  /** After `refreshData` the list holds a row tagged modern exactly when the modern table
      holds it, and tagged legacy exactly when the legacy table does. */
  lemma MergedMembers(legacy: Table, modern: Table)
    ensures var recs := MergeRecords(NewestFirst(legacy), NewestFirst(modern));
      forall x :: (Record(x, true) in recs <==> x in modern.rows)
               && (Record(x, false) in recs <==> x in legacy.rows)
  {
    TagMembers(NewestFirst(modern), true);
    TagMembers(NewestFirst(legacy), false);
    SameRows(legacy);
    SameRows(modern);
  }

  /** Helper, read off the definition of `MergeRecords`: the modern rows come first, newest
      first, then the legacy rows, newest first. */
  lemma MergedOrder(legacy: Table, modern: Table)
    ensures var recs := MergeRecords(NewestFirst(legacy), NewestFirst(modern));
      var m := |modern.rows|;
      |recs| == |legacy.rows| + m
      && (forall i :: 0 <= i < m ==> recs[i] == Record(NewestFirst(modern)[i], true))
      && (forall i :: m <= i < |recs| ==> recs[i] == Record(NewestFirst(legacy)[i - m], false))
  {
  }

  // ---------------------------------------------------------------- search and filters

  datatype Criterion = Search(term: string) | OfType(certType: string) | OfStatus(status: string)

  /** The search looks, case-insensitively, in the name, the number, the school year and the year graduated. */
  predicate Passes(rec: Record, c: Criterion) {
    var f := rec.row.fields;
    match c
    case Search(term) =>
      var t := Lower(term);
      Contains(Lower(f.issuedTo), t) || Contains(Lower(f.certNumber), t)
      || Contains(Lower(f.schoolYear), t) || Contains(Lower(f.yearGraduated), t)
    case OfType(certType) => f.certType == certType
    case OfStatus(status) => f.validity == status
  }

  /** `records.filter(…)`. */
  function KeepWhere(recs: seq<Record>, c: Criterion): (r: seq<Record>)
    ensures forall x :: x in r <==> x in recs && Passes(x, c)
    ensures |r| <= |recs|
  {
    if recs == [] then []
    else (if Passes(recs[0], c) then [recs[0]] else []) + KeepWhere(recs[1..], c)
  }

  /** The three filters in the order the dashboard applies them; a filter set to its
      "All …" choice, or an empty search, keeps everything. */
  function FilterRecords(recs: seq<Record>, searchTerm: string, filterType: string, filterStatus: string): seq<Record> {
    var bySearch := if searchTerm != "" then KeepWhere(recs, Search(searchTerm)) else recs;
    var byType := if filterType != "All Types" then KeepWhere(bySearch, OfType(filterType)) else bySearch;
    if filterStatus != "All Status" then KeepWhere(byType, OfStatus(filterStatus)) else byType
  }

  predicate Selected(rec: Record, searchTerm: string, filterType: string, filterStatus: string) {
    Passes(rec, Search(searchTerm))
    && (filterType == "All Types" || rec.row.fields.certType == filterType)
    && (filterStatus == "All Status" || rec.row.fields.validity == filterStatus)
  }

  /** An empty search term is contained in every text, so skipping the search is the same as running it. */
  lemma EmptySearchKeepsAll(rec: Record)
    ensures Passes(rec, Search(""))
  {
    assert OccursAt(Lower(rec.row.fields.issuedTo), Lower(""), 0);
  }

  /** A record is listed exactly when it is in the list and passes the search and both filters. */
  lemma FilterExact(recs: seq<Record>, searchTerm: string, filterType: string, filterStatus: string)
    ensures forall x :: (x in FilterRecords(recs, searchTerm, filterType, filterStatus)
                         <==> x in recs && Selected(x, searchTerm, filterType, filterStatus))
  {
    if searchTerm == "" {
      forall x | x in recs
        ensures Passes(x, Search(searchTerm))
      {
        EmptySearchKeepsAll(x);
      }
    }
  }

  /** The search is insensitive to the case of the term. */
  lemma SearchIgnoresCase(rec: Record, term: string)
    ensures Passes(rec, Search(Upper(term))) == Passes(rec, Search(term))
  {
    assert Lower(Upper(term)) == Lower(term);
  }

  // ---------------------------------------------------------------- the year sort

  /** `parseInt(year_graduated) || 0`. */
  function YearKey(rec: Record): int {
    ParseIntOrZero(rec.row.fields.yearGraduated)
  }

  /** The comparator is negative: `yearB - yearA` for "Newest First", `yearA - yearB` otherwise.
      The sort is stated for any key so that its proofs never look inside `parseInt`. */
  predicate Before(a: Record, b: Record, key: Record -> int, newestFirst: bool) {
    if newestFirst then key(a) > key(b) else key(a) < key(b)
  }

  predicate SortedBy(s: seq<Record>, key: Record -> int, newestFirst: bool) {
    forall i, j :: 0 <= i < j < |s| ==> !Before(s[j], s[i], key, newestFirst)
  }

  /** Puts `x` in front of the first element that does not come strictly before it. */
  function InsertBy(x: Record, t: seq<Record>, key: Record -> int, newestFirst: bool): (r: seq<Record>)
    ensures multiset(r) == multiset(t) + multiset{x}
  {
    if t == [] || !Before(t[0], x, key, newestFirst) then [x] + t
    else
      assert t == [t[0]] + t[1..];
      [t[0]] + InsertBy(x, t[1..], key, newestFirst)
  }

  /** The stable sort `Array.prototype.sort` performs with that comparator. */
  function SortBy(s: seq<Record>, key: Record -> int, newestFirst: bool): (r: seq<Record>)
    ensures multiset(r) == multiset(s)
  {
    if s == [] then []
    else
      assert s == [s[0]] + s[1..];
      InsertBy(s[0], SortBy(s[1..], key, newestFirst), key, newestFirst)
  }

  lemma {:induction false} InsertKeepsSorted(x: Record, t: seq<Record>, key: Record -> int, newestFirst: bool)
    requires SortedBy(t, key, newestFirst)
    ensures SortedBy(InsertBy(x, t, key, newestFirst), key, newestFirst)
  {
    if t != [] && Before(t[0], x, key, newestFirst) {
      var rest := InsertBy(x, t[1..], key, newestFirst);
      InsertKeepsSorted(x, t[1..], key, newestFirst);
      forall k | 0 <= k < |rest|
        ensures !Before(rest[k], t[0], key, newestFirst)
      {
        assert rest[k] in multiset(t[1..]) + multiset{x};
        if rest[k] != x {
          assert rest[k] in t[1..];
        }
      }
      SortedCons(t[0], rest, key, newestFirst);
    } else if t != [] {
      forall k | 0 <= k < |t|
        ensures !Before(t[k], x, key, newestFirst)
      {
        if k > 0 {
          assert !Before(t[k], t[0], key, newestFirst);
        }
      }
      SortedCons(x, t, key, newestFirst);
    }
  }

  lemma SortedCons(x: Record, t: seq<Record>, key: Record -> int, newestFirst: bool)
    requires SortedBy(t, key, newestFirst)
    requires forall k :: 0 <= k < |t| ==> !Before(t[k], x, key, newestFirst)
    ensures SortedBy([x] + t, key, newestFirst)
  {
    var r := [x] + t;
    forall i, j | 0 <= i < j < |r|
      ensures !Before(r[j], r[i], key, newestFirst)
    {
      assert r[j] == t[j - 1];
      if i > 0 {
        assert r[i] == t[i - 1];
      }
    }
  }

  /** The sorted list is ordered by the key and is a permutation of its input. */
  lemma {:induction false} SortOrders(s: seq<Record>, key: Record -> int, newestFirst: bool)
    ensures SortedBy(SortBy(s, key, newestFirst), key, newestFirst)
    ensures multiset(SortBy(s, key, newestFirst)) == multiset(s)
  {
    if s != [] {
      SortOrders(s[1..], key, newestFirst);
      InsertKeepsSorted(s[0], SortBy(s[1..], key, newestFirst), key, newestFirst);
    }
  }

  /** The records with one key value, in the order they appear. */
  function WithKey(s: seq<Record>, key: Record -> int, k: int): seq<Record> {
    if s == [] then [] else (if key(s[0]) == k then [s[0]] else []) + WithKey(s[1..], key, k)
  }

  lemma {:induction false} InsertWithKey(x: Record, t: seq<Record>, key: Record -> int, newestFirst: bool, k: int)
    ensures WithKey(InsertBy(x, t, key, newestFirst), key, k) == WithKey([x] + t, key, k)
  {
    if t != [] && Before(t[0], x, key, newestFirst) {
      var rest := InsertBy(x, t[1..], key, newestFirst);
      InsertWithKey(x, t[1..], key, newestFirst, k);
      WithKeyCons(t[0], rest, key, k);
      WithKeyCons(x, t[1..], key, k);
      WithKeyCons(x, t, key, k);
      WithKeyCons(t[0], t[1..], key, k);
      assert [t[0]] + t[1..] == t;
      SwapEmpty(if key(t[0]) == k then [t[0]] else [], if key(x) == k then [x] else [], WithKey(t[1..], key, k));
    }
  }

  lemma WithKeyCons(y: Record, s: seq<Record>, key: Record -> int, k: int)
    ensures WithKey([y] + s, key, k) == (if key(y) == k then [y] else []) + WithKey(s, key, k)
  {
    assert ([y] + s)[1..] == s;
  }

  lemma SwapEmpty(a: seq<Record>, b: seq<Record>, w: seq<Record>)
    requires a == [] || b == []
    ensures a + (b + w) == b + (a + w)
  {
    if a == [] {
      assert a + (b + w) == b + w == b + (a + w);
    } else {
      assert a + (b + w) == a + w == b + (a + w);
    }
  }

  /** The sort is stable: records with the same key keep their relative order. */
  lemma {:induction false} SortIsStable(s: seq<Record>, key: Record -> int, newestFirst: bool, k: int)
    ensures WithKey(SortBy(s, key, newestFirst), key, k) == WithKey(s, key, k)
  {
    if s != [] {
      SortIsStable(s[1..], key, newestFirst, k);
      InsertWithKey(s[0], SortBy(s[1..], key, newestFirst), key, newestFirst, k);
      assert ([s[0]] + SortBy(s[1..], key, newestFirst))[1..] == SortBy(s[1..], key, newestFirst);
    }
  }

  /** `filteredRecords`. */
  function FilteredRecords(recs: seq<Record>, searchTerm: string, filterType: string,
                           filterStatus: string, sortByYear: string): seq<Record> {
    SortBy(FilterRecords(recs, searchTerm, filterType, filterStatus), YearKey, sortByYear == "Newest First")
  }

  /** The table shows exactly the selected records, ordered by year (newest first only for the
      "Newest First" choice), with records of the same year in list order. */
  lemma FilteredRecordsSpec(recs: seq<Record>, searchTerm: string, filterType: string,
                            filterStatus: string, sortByYear: string, year: int)
    ensures var shown := FilteredRecords(recs, searchTerm, filterType, filterStatus, sortByYear);
      (forall x :: (x in shown <==> x in recs && Selected(x, searchTerm, filterType, filterStatus)))
      && SortedBy(shown, YearKey, sortByYear == "Newest First")
      && WithKey(shown, YearKey, year) == WithKey(FilterRecords(recs, searchTerm, filterType, filterStatus), YearKey, year)
  {
    var kept := FilterRecords(recs, searchTerm, filterType, filterStatus);
    var shown := FilteredRecords(recs, searchTerm, filterType, filterStatus, sortByYear);
    FilterExact(recs, searchTerm, filterType, filterStatus);
    SortOrders(kept, YearKey, sortByYear == "Newest First");
    SortIsStable(kept, YearKey, sortByYear == "Newest First", year);
    assert forall x :: x in shown <==> x in multiset(kept);
  }

  // ---------------------------------------------------------------- the form

  datatype Form = Form(firstName: string, middleName: string, surname: string, certType: string,
                       issuedBy: string, dateIssued: string, schoolYear: string, yearGraduated: string,
                       validity: string, googlePhotosLink: string, manualCertNumber: string)

  const InitialForm: Form := Form("", "", "", "Certificate of Completion", "RMMO Alumni Advisory Council",
                                  "", "", "", "VALID", "", "")

  /** The form `handleEditClick` fills from a record. */
  function EditForm(rec: Record): (form: Form)
    ensures form.validity != ""
    ensures form.manualCertNumber == rec.row.fields.certNumber
    ensures form.googlePhotosLink == rec.row.fields.googlePhotosLink
  {
    var f := rec.row.fields;
    var names := EditNames(f.issuedTo);
    Form(names.first, names.middle, names.surname, f.certType, f.issuedBy, f.dateIssued,
         f.schoolYear, f.yearGraduated, OrElse(f.validity, "VALID"), OrElse(f.googlePhotosLink, ""),
         f.certNumber)
  }

  /** `issued_to` as the submitted form builds it. */
  function FormName(form: Form): string {
    FullName(form.firstName, form.middleName, form.surname)
  }

  /** The columns an edit or a legacy save writes: the typed number with `RMMO-` ensured. */
  function ManualFields(form: Form): (f: Fields)
    ensures StartsWith(f.certNumber, Prefix) && IsUpper(f.certNumber)
    ensures SingleSpaced(f.issuedTo) && IsUpper(f.issuedTo)
  {
    Fields(WithPrefix(form.manualCertNumber), form.certType, form.issuedBy, FormName(form),
           form.dateIssued, form.validity, form.schoolYear, form.yearGraduated, form.googlePhotosLink)
  }

  /** The columns a new modern record writes, under its generated number. */
  function ModernFields(form: Form, certNumber: string): Fields {
    Fields(certNumber, form.certType, form.issuedBy, FormName(form),
           form.dateIssued, form.validity, form.schoolYear, form.yearGraduated, form.googlePhotosLink)
  }

  /** Opening a record whose name is upper-case words joined by single blanks, whose number
      is in stored form and whose validity is set, then submitting the form unchanged,
      writes the very same columns. */
  lemma {:induction false} EditThenSaveKeepsFields(rec: Record, ws: seq<string>)
    requires Words(ws) && rec.row.fields.issuedTo == Join(ws, ' ')
    requires StoredNumber(rec.row.fields.certNumber)
    requires rec.row.fields.validity != ""
    ensures Clean(ManualFields(EditForm(rec))) == rec.row.fields
  {
    EditKeepsName(rec, ws);
    StoredNumberKept(rec.row.fields.certNumber);
    CleanManual(EditForm(rec));
  }

  lemma EditKeepsName(rec: Record, ws: seq<string>)
    requires Words(ws) && rec.row.fields.issuedTo == Join(ws, ' ')
    ensures FormName(EditForm(rec)) == rec.row.fields.issuedTo
  {
    ResaveKeepsName(ws);
  }

  lemma CleanManual(form: Form)
    ensures Clean(ManualFields(form))
         == Fields(Upper(Trim(WithPrefix(form.manualCertNumber))), form.certType, form.issuedBy, FormName(form),
                   form.dateIssued, form.validity, form.schoolYear, form.yearGraduated, form.googlePhotosLink)
  {
  }

  // ---------------------------------------------------------------- generating modern numbers

  /** As written (src/app/dashboard/page.tsx:344-350): five arguments for the generator's six,
      so the type lands in `yearGraduated`, `count + 1` in `type`, and `serial` is undefined. */
  function AsWrittenModernId(form: Form, count: int): (r: Outcome)
    ensures r.Threw?
  {
    GenerateDynamic(Upper(form.firstName), Upper(form.surname), form.dateIssued,
                    JsString(form.certType), JsNumber(count + 1), Undefined)
  }

  /** The evidently intended call: the year graduated and the type in their places, `count + 1` the serial. */
  function ModernId(form: Form, count: int): string {
    Generate(Upper(form.firstName), Upper(form.surname), form.dateIssued, form.yearGraduated,
             form.certType, count + 1)
  }

  /** The intended number carries the serial `count + 1` and the fields the generator promises. */
  lemma ModernIdFields(form: Form, count: nat)
    requires form.firstName != "" && form.surname != ""
    requires |YearDigits(form.dateIssued)| == 2 && |MonthPart(form.dateIssued)| == 2 && |DayPart(form.dateIssued)| == 2
    ensures Decode(ModernId(form, count))
         == Some(IdFields(YearDigits(form.dateIssued), UpperChar(form.firstName[0]), MonthPart(form.dateIssued),
                          UpperChar(form.surname[0]), DayPart(form.dateIssued), TypeLetter(form.certType), count + 1))
  {
    var first, last := Upper(form.firstName), Upper(form.surname);
    UpperHead(form.firstName);
    UpperHead(form.surname);
    DecodeGenerate(first, last, form.dateIssued, form.yearGraduated, form.certType, count + 1);
  }

  /** Two records created one after the other in the same year and type, for the same
      initials and date, get different numbers: the second count is one more than the first. */
  lemma {:induction false} ConsecutiveModernIdsDiffer(modern: Table, first: Form, second: Form)
    requires first.yearGraduated == second.yearGraduated && first.certType == second.certType
    requires Upper(first.firstName) == Upper(second.firstName) && Upper(first.surname) == Upper(second.surname)
    requires first.dateIssued == second.dateIssued
    ensures var before := BucketCount(modern.rows, first.yearGraduated, first.certType);
      var saved := Insert(modern, ModernFields(first, ModernId(first, before)));
      var after := BucketCount(saved.rows, second.yearGraduated, second.certType);
      after == before + 1 && ModernId(second, after) != ModernId(first, before)
  {
    var before := BucketCount(modern.rows, first.yearGraduated, first.certType);
    var fields := ModernFields(first, ModernId(first, before));
    InsertCounts(modern, fields, first.yearGraduated, first.certType);
    var after := BucketCount(Insert(modern, fields).rows, second.yearGraduated, second.certType);
    assert after == before + 1;
    SameInputsSameId(first, second, after);
    CountsSeparateIds(first, before, after);
  }

  lemma CountsSeparateIds(form: Form, m: int, n: int)
    requires m != n
    ensures ModernId(form, m) != ModernId(form, n)
  {
    GenerateSeparatesSerials(Upper(form.firstName), Upper(form.surname), form.dateIssued,
                             form.yearGraduated, form.certType, m + 1, n + 1);
  }

  lemma SameInputsSameId(first: Form, second: Form, count: int)
    requires first.yearGraduated == second.yearGraduated && first.certType == second.certType
    requires Upper(first.firstName) == Upper(second.firstName) && Upper(first.surname) == Upper(second.surname)
    requires first.dateIssued == second.dateIssued
    ensures ModernId(second, count) == ModernId(first, count)
  {
  }

  // ---------------------------------------------------------------- the record an edit or a delete targets

  /** As written (src/app/dashboard/page.tsx:255 and 313): `records.find(r => r.id === isEditing)`. */
  function FindById(recs: seq<Record>, id: int): (r: Option<Record>)
    ensures r.Some? ==> r.value in recs && r.value.row.id == id
    ensures r.None? <==> forall k :: 0 <= k < |recs| ==> recs[k].row.id != id
  {
    if recs == [] then None
    else if recs[0].row.id == id then Some(recs[0])
    else FindById(recs[1..], id)
  }

  /** The table flag `recordToDelete?.isModern` hands to the action; `undefined` selects the legacy table. */
  function TableFlag(found: Option<Record>): bool {
    found.Some? && found.value.isModern
  }

  /** Each table numbers its own rows, so a legacy record can share its id with a modern one.
      The lookup then returns the modern record, since modern rows come first, and the delete
      or update of the opened legacy record goes to the modern table. */
  lemma {:induction false} FindByIdPicksModernTwin(legacy: Table, modern: Table, id: int)
    requires HasId(legacy.rows, id) && HasId(modern.rows, id)
    ensures var recs := MergeRecords(NewestFirst(legacy), NewestFirst(modern));
      Record(RowWithId(legacy.rows, id), false) in recs
      && TableFlag(FindById(recs, id))
  {
    var recs := MergeRecords(NewestFirst(legacy), NewestFirst(modern));
    MergedMembers(legacy, modern);
    MergedOrder(legacy, modern);
    RowWithIdFound(legacy.rows, id);
    var k :| 0 <= k < |modern.rows| && modern.rows[k].id == id;
    SameRows(modern);
    assert modern.rows[k] in NewestFirst(modern);
    var i :| 0 <= i < |NewestFirst(modern)| && NewestFirst(modern)[i] == modern.rows[k];
    assert recs[i].row.id == id;
    FindByIdInPrefix(recs, |modern.rows|, id);
  }

  /** Some row carrying the id (the first). */
  function RowWithId(rows: seq<Row>, id: int): Row
    requires HasId(rows, id)
  {
    if rows[0].id == id then rows[0]
    else
      assert HasId(rows[1..], id) by {
        var k :| 0 <= k < |rows| && rows[k].id == id;
        assert rows[1..][k - 1] == rows[k];
      }
      RowWithId(rows[1..], id)
  }

  lemma {:induction false} RowWithIdFound(rows: seq<Row>, id: int)
    requires HasId(rows, id)
    ensures RowWithId(rows, id) in rows && RowWithId(rows, id).id == id
  {
    if rows[0].id != id {
      assert HasId(rows[1..], id) by {
        var k :| 0 <= k < |rows| && rows[k].id == id;
        assert rows[1..][k - 1] == rows[k];
      }
      RowWithIdFound(rows[1..], id);
    }
  }

  /** When some record among the first `n` carries the id and all of those are modern, the lookup finds a modern record. */
  lemma {:induction false} FindByIdInPrefix(recs: seq<Record>, n: nat, id: int)
    requires n <= |recs|
    requires forall i :: 0 <= i < n ==> recs[i].isModern
    requires exists i :: 0 <= i < n && recs[i].row.id == id
    ensures FindById(recs, id).Some? && FindById(recs, id).value.isModern
  {
    if recs[0].row.id != id {
      assert recs[1..][..n - 1] == recs[1..n];
      forall i | 0 <= i < n - 1 ensures recs[1..][i].isModern {
        assert recs[1..][i] == recs[i + 1];
      }
      var i :| 0 <= i < n && recs[i].row.id == id;
      assert recs[1..][i - 1] == recs[i];
      FindByIdInPrefix(recs[1..], n - 1, id);
    }
  }

  /** No two records of the list share both id and table. */
  predicate UniqueKeys(recs: seq<Record>) {
    forall i, j :: 0 <= i < j < |recs| ==> recs[i].row.id != recs[j].row.id || recs[i].isModern != recs[j].isModern
  }

  /** The corrected lookup: the record with this id from the table the form was opened for. */
  function FindEdited(recs: seq<Record>, id: int, isModern: bool): (r: Option<Record>)
    ensures r.Some? ==> r.value in recs && r.value.row.id == id && r.value.isModern == isModern
    ensures r.None? <==> forall k :: 0 <= k < |recs| ==> recs[k].row.id != id || recs[k].isModern != isModern
  {
    if recs == [] then None
    else if recs[0].row.id == id && recs[0].isModern == isModern then Some(recs[0])
    else FindEdited(recs[1..], id, isModern)
  }

  /** In a list without repeated keys, the corrected lookup returns exactly the opened record. */
  lemma {:induction false} FindEditedReturnsOpened(recs: seq<Record>, k: nat)
    requires UniqueKeys(recs) && k < |recs|
    ensures FindEdited(recs, recs[k].row.id, recs[k].isModern) == Some(recs[k])
  {
    if k > 0 {
      assert recs[0].row.id != recs[k].row.id || recs[0].isModern != recs[k].isModern;
      assert recs[1..][k - 1] == recs[k];
      assert UniqueKeys(recs[1..]) by {
        forall i, j | 0 <= i < j < |recs[1..]|
          ensures recs[1..][i].row.id != recs[1..][j].row.id || recs[1..][i].isModern != recs[1..][j].isModern
        {
          assert recs[1..][i] == recs[i + 1] && recs[1..][j] == recs[j + 1];
        }
      }
      FindEditedReturnsOpened(recs[1..], k - 1);
    }
  }

  /** The merged list of two valid tables has no repeated keys. */
  lemma MergedKeysUnique(legacy: Table, modern: Table)
    requires TableValid(legacy) && TableValid(modern)
    ensures UniqueKeys(MergeRecords(NewestFirst(legacy), NewestFirst(modern)))
  {
    NewestFirstOrder(legacy);
    NewestFirstOrder(modern);
    MergedOrder(legacy, modern);
    var recs := MergeRecords(NewestFirst(legacy), NewestFirst(modern));
    var m := |modern.rows|;
    forall i, j | 0 <= i < j < |recs| && recs[i].isModern == recs[j].isModern
      ensures recs[i].row.id != recs[j].row.id
    {
      if j < m {
        assert recs[i].row == NewestFirst(modern)[i] && recs[j].row == NewestFirst(modern)[j];
      } else {
        assert recs[i].row == NewestFirst(legacy)[i - m] && recs[j].row == NewestFirst(legacy)[j - m];
      }
    }
  }
}
