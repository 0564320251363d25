/** The server actions of src/lib/actions.ts over the two tables `certificates`
    (legacy) and `certificates_modern`, each held in memory as its rows in
    insertion order together with the next row id the table will hand out. */
module CertificateStore {
  import opened Text

  /** The nine columns a form writes. */
  datatype Fields = Fields(certNumber: string, certType: string, issuedBy: string, issuedTo: string,
                           dateIssued: string, validity: string, schoolYear: string,
                           yearGraduated: string, googlePhotosLink: string)

  datatype Row = Row(id: nat, fields: Fields)

  /** A table: its rows in insertion order and the id the next insert receives. */
  datatype Table = Table(rows: seq<Row>, nextId: nat)

  /** Ids are positive, strictly increasing in insertion order and below the next id. */
  ghost predicate TableValid(t: Table) {
    1 <= t.nextId
    && (forall i :: 0 <= i < |t.rows| ==> 1 <= t.rows[i].id < t.nextId)
    && (forall i, j :: 0 <= i < j < |t.rows| ==> t.rows[i].id < t.rows[j].id)
  }

  const EmptyTable: Table := Table([], 1)

  /** Some row of the table carries this id. */
  ghost predicate HasId(rows: seq<Row>, id: int) {
    exists i :: 0 <= i < |rows| && rows[i].id == id
  }

  // ---------------------------------------------------------------- writes

  /** `certNumber.trim().toUpperCase()`, the one column every write normalises. */
  function Clean(data: Fields): (c: Fields)
    ensures IsUpper(c.certNumber)
    ensures c.(certNumber := data.certNumber) == data
  {
    UpperIsUpper(Trim(data.certNumber));
    data.(certNumber := Upper(Trim(data.certNumber)))
  }

  /** Cleaning a cleaned record changes nothing: the stored number has no white space
      at either end and no lower-case letter. */
  lemma {:induction false} CleanIdempotent(data: Fields)
    ensures Clean(Clean(data)) == Clean(data)
  {
    TrimUpperIdempotent(data.certNumber);
  }

  /** `INSERT INTO … VALUES (…)`: one new row at the end with the next id. */
  function Insert(t: Table, data: Fields): Table {
    Table(t.rows + [Row(t.nextId, Clean(data))], t.nextId + 1)
  }

  /** `UPDATE … SET <all nine columns> WHERE id = ?`. */
  function UpdateRows(rows: seq<Row>, id: int, data: Fields): (r: seq<Row>)
    ensures |r| == |rows|
  {
    seq(|rows|, i requires 0 <= i < |rows| =>
      if rows[i].id == id then Row(rows[i].id, Clean(data)) else rows[i])
  }

  /** `DELETE FROM … WHERE id = ?`. */
  function DeleteRows(rows: seq<Row>, id: int): (r: seq<Row>)
    ensures forall x :: x in r <==> x in rows && x.id != id
    ensures |r| <= |rows|
  {
    if rows == [] then []
    else (if rows[0].id == id then [] else [rows[0]]) + DeleteRows(rows[1..], id)
  }

  /** Inserting keeps every row, adds one with the cleaned data and a fresh id, and keeps the table valid. */
  lemma InsertAddsOneRow(t: Table, data: Fields)
    requires TableValid(t)
    ensures TableValid(Insert(t, data))
    ensures Insert(t, data).rows[..|t.rows|] == t.rows
    ensures |Insert(t, data).rows| == |t.rows| + 1
    ensures !HasId(t.rows, t.nextId)
    ensures var last := Insert(t, data).rows[|t.rows|];
      last.fields == Clean(data) && IsUpper(last.fields.certNumber)
  {
    assert Insert(t, data).rows[..|t.rows|] == t.rows;
  }

  /** Updating keeps every id in place, so a valid table stays valid. */
  lemma UpdateKeepsIds(t: Table, id: int, data: Fields)
    requires TableValid(t)
    ensures TableValid(Table(UpdateRows(t.rows, id, data), t.nextId))
    ensures forall i :: 0 <= i < |t.rows| ==> UpdateRows(t.rows, id, data)[i].id == t.rows[i].id
  {
  }

  /** Helper, read off the definition of `UpdateRows`: the row with the id gets all nine
      cleaned columns; every other row is unchanged. */
  lemma UpdateOverwrites(rows: seq<Row>, id: int, data: Fields)
    ensures forall i :: 0 <= i < |rows| && rows[i].id == id ==>
      UpdateRows(rows, id, data)[i] == Row(id, Clean(data))
    ensures forall i :: 0 <= i < |rows| && rows[i].id != id ==>
      UpdateRows(rows, id, data)[i] == rows[i]
  {
  }

  /** An id no row carries leaves the table as it was. */
  lemma UpdateAbsentId(rows: seq<Row>, id: int, data: Fields)
    requires !HasId(rows, id)
    ensures UpdateRows(rows, id, data) == rows
  {
  }

  /** Deleting removes exactly the row with that id from a valid table, keeps it valid, and an
      absent id leaves it as it was. */
  lemma DeleteRemovesOnlyThatRow(t: Table, id: int)
    requires TableValid(t)
    ensures TableValid(Table(DeleteRows(t.rows, id), t.nextId))
    ensures !HasId(DeleteRows(t.rows, id), id)
    ensures !HasId(t.rows, id) ==> DeleteRows(t.rows, id) == t.rows
    ensures HasId(t.rows, id) ==> |DeleteRows(t.rows, id)| == |t.rows| - 1
  {
    var r := DeleteRows(t.rows, id);
    DeleteKeepsOrder(t.rows, id);
    assert forall i :: 0 <= i < |r| ==> r[i] in t.rows;
    if HasId(t.rows, id) {
      DeleteCount(t.rows, id);
    } else {
      DeleteAbsent(t.rows, id);
    }
  }

  ghost predicate Ascending(rows: seq<Row>) {
    forall i, j :: 0 <= i < j < |rows| ==> rows[i].id < rows[j].id
  }

  /** Deleting keeps the remaining rows in their order. */
  lemma {:induction false} DeleteKeepsOrder(rows: seq<Row>, id: int)
    requires Ascending(rows)
    ensures Ascending(DeleteRows(rows, id))
  {
    if rows != [] {
      var rest := DeleteRows(rows[1..], id);
      DeleteKeepsOrder(rows[1..], id);
      if rows[0].id != id {
        AboveHead(rows, rest);
        ConsAscending(rows[0], rest);
      }
    }
  }

  /** Every row taken from the tail of an ordered sequence has a larger id than its head. */
  lemma AboveHead(rows: seq<Row>, rest: seq<Row>)
    requires rows != [] && Ascending(rows)
    requires forall x :: x in rest ==> x in rows[1..]
    ensures forall i :: 0 <= i < |rest| ==> rows[0].id < rest[i].id
  {
    forall i | 0 <= i < |rest|
      ensures rows[0].id < rest[i].id
    {
      assert rest[i] in rows[1..];
      var k :| 0 <= k < |rows[1..]| && rows[1..][k] == rest[i];
      assert rows[k + 1] == rest[i];
    }
  }

  lemma ConsAscending(row: Row, rest: seq<Row>)
    requires Ascending(rest)
    requires forall i :: 0 <= i < |rest| ==> row.id < rest[i].id
    ensures Ascending([row] + rest)
  {
    forall i, j | 0 <= i < j < |[row] + rest|
      ensures ([row] + rest)[i].id < ([row] + rest)[j].id
    {
      if i > 0 {
        assert ([row] + rest)[i] == rest[i - 1];
      }
      assert ([row] + rest)[j] == rest[j - 1];
    }
  }

  /** Deleting an id no row carries changes nothing. */
  lemma {:induction false} DeleteAbsent(rows: seq<Row>, id: int)
    requires !HasId(rows, id)
    ensures DeleteRows(rows, id) == rows
  {
    if rows != [] {
      assert !HasId(rows[1..], id) by {
        forall i | 0 <= i < |rows[1..]| ensures rows[1..][i].id != id {
          assert rows[1..][i] == rows[i + 1];
        }
      }
      DeleteAbsent(rows[1..], id);
      assert rows == [rows[0]] + rows[1..];
    }
  }

  /** In an ordered table an id occurs at most once, so deleting it removes one row. */
  lemma {:induction false} DeleteCount(rows: seq<Row>, id: int)
    requires Ascending(rows) && HasId(rows, id)
    ensures |DeleteRows(rows, id)| == |rows| - 1
  {
    var k :| 0 <= k < |rows| && rows[k].id == id;
    if k == 0 {
      assert !HasId(rows[1..], id) by {
        forall i | 0 <= i < |rows[1..]| ensures rows[1..][i].id != id {
          assert rows[1..][i] == rows[i + 1];
        }
      }
      DeleteAbsent(rows[1..], id);
    } else {
      assert rows[1..][k - 1].id == id;
      DeleteCount(rows[1..], id);
    }
  }

  // ---------------------------------------------------------------- reads

  function Reverse(s: seq<Row>): (r: seq<Row>)
    ensures |r| == |s|
    ensures forall i :: 0 <= i < |s| ==> r[i] == s[|s| - 1 - i]
  {
    if s == [] then [] else Reverse(s[1..]) + [s[0]]
  }

  /** `SELECT * FROM … ORDER BY id DESC`. */
  function NewestFirst(t: Table): seq<Row> {
    Reverse(t.rows)
  }

  /** The listing holds exactly the table's rows, ordered by strictly decreasing id. */
  lemma {:induction false} NewestFirstOrder(t: Table)
    requires TableValid(t)
    ensures multiset(NewestFirst(t)) == multiset(t.rows)
    ensures forall i, j :: 0 <= i < j < |NewestFirst(t)| ==> NewestFirst(t)[i].id > NewestFirst(t)[j].id
  {
    ReverseSameRows(t.rows);
  }

  lemma {:induction false} ReverseSameRows(s: seq<Row>)
    ensures multiset(Reverse(s)) == multiset(s)
  {
    if s != [] {
      ReverseSameRows(s[1..]);
      assert s == [s[0]] + s[1..];
    }
  }

  /** `COUNT(*) … WHERE year_graduated = ? AND type = ?`. */
  function BucketCount(rows: seq<Row>, year: string, certType: string): nat {
    if rows == [] then 0
    else (if rows[0].fields.yearGraduated == year && rows[0].fields.certType == certType then 1 else 0)
         + BucketCount(rows[1..], year, certType)
  }

  lemma {:induction false} BucketCountAppend(rows: seq<Row>, row: Row, year: string, certType: string)
    ensures BucketCount(rows + [row], year, certType)
         == BucketCount(rows, year, certType)
            + (if row.fields.yearGraduated == year && row.fields.certType == certType then 1 else 0)
  {
    if rows != [] {
      assert (rows + [row])[1..] == rows[1..] + [row];
      BucketCountAppend(rows[1..], row, year, certType);
    }
  }

  /** Inserting a record raises the count of its own year and type by one and no other count. */
  lemma {:induction false} InsertCounts(t: Table, data: Fields, year: string, certType: string)
    ensures BucketCount(Insert(t, data).rows, year, certType)
         == BucketCount(t.rows, year, certType)
            + (if data.yearGraduated == year && data.certType == certType then 1 else 0)
  {
    BucketCountAppend(t.rows, Row(t.nextId, Clean(data)), year, certType);
  }

  /** No row counts outside its bucket, and a count never exceeds the table. */
  lemma {:induction false} BucketCountBound(rows: seq<Row>, year: string, certType: string)
    ensures BucketCount(rows, year, certType) <= |rows|
    ensures BucketCount(rows, year, certType) == 0 <==>
      forall i :: 0 <= i < |rows| ==> !(rows[i].fields.yearGraduated == year && rows[i].fields.certType == certType)
  {
    if rows != [] {
      BucketCountBound(rows[1..], year, certType);
      assert forall i :: 1 <= i < |rows| ==> rows[i] == rows[1..][i - 1];
    }
  }

  // ---------------------------------------------------------------- verification lookup

  /** `UPPER(cert_number) = ?` (SQLite's `UPPER` maps the ASCII letters only). */
  predicate IsMatch(row: Row, key: string) {
    Upper(row.fields.certNumber) == key
  }

  /** The position of the first matching row. The query has no `ORDER BY`; the model assumes the
      full scan returns rows in rowid order, the order `rows` keeps, which SQLite does not promise. */
  function FirstMatch(rows: seq<Row>, key: string): (r: Option<nat>)
    ensures r.Some? ==> r.value < |rows| && IsMatch(rows[r.value], key)
    ensures r.Some? ==> forall j :: 0 <= j < r.value ==> !IsMatch(rows[j], key)
    ensures r.None? <==> forall j :: 0 <= j < |rows| ==> !IsMatch(rows[j], key)
  {
    if rows == [] then None
    else if IsMatch(rows[0], key) then Some(0)
    else
      match FirstMatch(rows[1..], key)
      case None => None
      case Some(i) => Some(i + 1)
  }

  datatype VerifyResult = Verified(row: Row, isModern: bool) | NotFound | VerifyError

  /** The message a failed verification carries. */
  function Message(r: VerifyResult): string {
    match r
    case Verified(_, _) => ""
    case NotFound => "Certificate not found."
    case VerifyError => "An error occurred during verification."
  }

  /** The key a verification searches with: the input trimmed and upper-cased, nothing added. */
  function SearchKey(certNumber: string): string {
    Upper(Trim(certNumber))
  }

  /** `verifyCertificate` on tables that answer: the modern table first, the legacy one on a miss. */
  function Lookup(legacy: Table, modern: Table, certNumber: string): VerifyResult {
    var key := SearchKey(certNumber);
    match FirstMatch(modern.rows, key)
    case Some(i) => Verified(modern.rows[i], true)
    case None =>
      match FirstMatch(legacy.rows, key)
      case Some(i) => Verified(legacy.rows[i], false)
      case None => NotFound
  }

  /** A modern match wins, even when the legacy table holds the same number. */
  lemma ModernWins(legacy: Table, modern: Table, certNumber: string, i: nat)
    requires i < |modern.rows| && IsMatch(modern.rows[i], SearchKey(certNumber))
    ensures Lookup(legacy, modern, certNumber).Verified?
    ensures Lookup(legacy, modern, certNumber).isModern
    ensures IsMatch(Lookup(legacy, modern, certNumber).row, SearchKey(certNumber))
  {
  }

  /** The legacy table answers exactly when the modern table has no match and it has one. */
  lemma LegacyOnlyOnModernMiss(legacy: Table, modern: Table, certNumber: string)
    ensures (Lookup(legacy, modern, certNumber).Verified? && !Lookup(legacy, modern, certNumber).isModern)
        <==> (FirstMatch(modern.rows, SearchKey(certNumber)).None?
              && FirstMatch(legacy.rows, SearchKey(certNumber)).Some?)
    ensures Lookup(legacy, modern, certNumber).Verified? ==>
      var r := Lookup(legacy, modern, certNumber);
      IsMatch(r.row, SearchKey(certNumber))
      && (r.isModern ==> r.row in modern.rows) && (!r.isModern ==> r.row in legacy.rows)
  {
  }

  /** Not found exactly when neither table holds a row whose upper-cased number is the key. */
  lemma NotFoundIffNoMatch(legacy: Table, modern: Table, certNumber: string)
    ensures Lookup(legacy, modern, certNumber) == NotFound <==>
      (forall j :: 0 <= j < |modern.rows| ==> !IsMatch(modern.rows[j], SearchKey(certNumber)))
      && (forall j :: 0 <= j < |legacy.rows| ==> !IsMatch(legacy.rows[j], SearchKey(certNumber)))
  {
  }

  /** The lookup adds no `RMMO-`: when every stored number starts with it, a code without it is never found. */
  lemma BareCodeNotFound(legacy: Table, modern: Table, certNumber: string)
    requires forall j :: 0 <= j < |modern.rows| ==> StartsWith(Upper(modern.rows[j].fields.certNumber), "RMMO-")
    requires forall j :: 0 <= j < |legacy.rows| ==> StartsWith(Upper(legacy.rows[j].fields.certNumber), "RMMO-")
    requires !StartsWith(SearchKey(certNumber), "RMMO-")
    ensures Lookup(legacy, modern, certNumber) == NotFound
  {
  }

  /** A number just saved to the modern table verifies, from the modern table, under the
      same spelling or any spelling that trims and upper-cases to it. */
  lemma {:induction false} SavedModernIsVerified(legacy: Table, modern: Table, data: Fields, typed: string)
    requires SearchKey(typed) == Clean(data).certNumber
    ensures Lookup(legacy, Insert(modern, data), typed).Verified?
    ensures Lookup(legacy, Insert(modern, data), typed).isModern
  {
    var rows := Insert(modern, data).rows;
    var last := |rows| - 1;
    UpperOfUpper(Clean(data).certNumber);
    assert IsMatch(rows[last], SearchKey(typed));
    ModernWins(legacy, Insert(modern, data), typed, last);
  }

  // ---------------------------------------------------------------- the store

  /** The database behind the portal. Every action takes `fail`, standing for the database
      call throwing; a failed action changes nothing and reports what the source's `catch` returns. */
  class Store {
    var legacy: Table
    var modern: Table

    ghost predicate Valid()
      reads this
    {
      TableValid(legacy) && TableValid(modern)
    }

    constructor()
      ensures Valid() && legacy == EmptyTable && modern == EmptyTable
    {
      legacy := EmptyTable;
      modern := EmptyTable;
    }

    /** `saveCertificate`. */
    method SaveCertificate(data: Fields, fail: bool) returns (success: bool)
      requires Valid()
      modifies this
      ensures Valid() && success == !fail
      ensures legacy == if fail then old(legacy) else Insert(old(legacy), data)
      ensures modern == old(modern)
    {
      if fail {
        return false;
      }
      InsertAddsOneRow(legacy, data);
      legacy := Insert(legacy, data);
      return true;
    }

    /** `saveModernCertificate`. */
    method SaveModernCertificate(data: Fields, fail: bool) returns (success: bool)
      requires Valid()
      modifies this
      ensures Valid() && success == !fail
      ensures modern == if fail then old(modern) else Insert(old(modern), data)
      ensures legacy == old(legacy)
    {
      if fail {
        return false;
      }
      InsertAddsOneRow(modern, data);
      modern := Insert(modern, data);
      return true;
    }

    /** `getCertificates`: the legacy rows, newest first; an empty list when the query fails. */
    method GetCertificates(fail: bool) returns (rows: seq<Row>)
      ensures fail ==> rows == []
      ensures !fail ==> rows == NewestFirst(legacy)
    {
      if fail {
        return [];
      }
      return NewestFirst(legacy);
    }

    /** `getModernCertificates`. */
    method GetModernCertificates(fail: bool) returns (rows: seq<Row>)
      ensures fail ==> rows == []
      ensures !fail ==> rows == NewestFirst(modern)
    {
      if fail {
        return [];
      }
      return NewestFirst(modern);
    }

    /** `getModernCount`: the modern rows of one year and type; 0 when the query fails. */
    method GetModernCount(year: string, certType: string, fail: bool) returns (n: nat)
      ensures fail ==> n == 0
      ensures !fail ==> n == BucketCount(modern.rows, year, certType)
    {
      if fail {
        return 0;
      }
      return BucketCount(modern.rows, year, certType);
    }

    /** `updateCertificate`: the modern table when `isModern`, the legacy one otherwise.
        Success is reported whether or not a row had that id. */
    method UpdateCertificate(id: int, data: Fields, isModern: bool, fail: bool) returns (success: bool)
      requires Valid()
      modifies this
      ensures Valid() && success == !fail
      ensures !fail && isModern ==> modern == Table(UpdateRows(old(modern).rows, id, data), old(modern).nextId)
      ensures !fail && !isModern ==> legacy == Table(UpdateRows(old(legacy).rows, id, data), old(legacy).nextId)
      ensures fail || isModern ==> legacy == old(legacy)
      ensures fail || !isModern ==> modern == old(modern)
    {
      if fail {
        return false;
      }
      if isModern {
        UpdateKeepsIds(modern, id, data);
        modern := Table(UpdateRows(modern.rows, id, data), modern.nextId);
      } else {
        UpdateKeepsIds(legacy, id, data);
        legacy := Table(UpdateRows(legacy.rows, id, data), legacy.nextId);
      }
      return true;
    }

    /** `deleteCertificate`: from the modern table when `isModern`, the legacy one otherwise. */
    method DeleteCertificate(id: int, isModern: bool, fail: bool) returns (success: bool)
      requires Valid()
      modifies this
      ensures Valid() && success == !fail
      ensures !fail && isModern ==> modern == Table(DeleteRows(old(modern).rows, id), old(modern).nextId)
      ensures !fail && !isModern ==> legacy == Table(DeleteRows(old(legacy).rows, id), old(legacy).nextId)
      ensures fail || isModern ==> legacy == old(legacy)
      ensures fail || !isModern ==> modern == old(modern)
    {
      if fail {
        return false;
      }
      if isModern {
        DeleteRemovesOnlyThatRow(modern, id);
        modern := Table(DeleteRows(modern.rows, id), modern.nextId);
      } else {
        DeleteRemovesOnlyThatRow(legacy, id);
        legacy := Table(DeleteRows(legacy.rows, id), legacy.nextId);
      }
      return true;
    }

    /** `verifyCertificate`. */
    method VerifyCertificate(certNumber: string, fail: bool) returns (r: VerifyResult)
      ensures fail ==> r == VerifyError
      ensures !fail ==> r == Lookup(legacy, modern, certNumber)
    {
      if fail {
        return VerifyError;
      }
      return Lookup(legacy, modern, certNumber);
    }
  }
}
