/** The export handler handleCSV (main.go:119-178): it reads every stored
    record, reconciles their differing key sets into one header, and emits a
    rectangular table. */
module Export {
  import opened Text
  import opened Http
  import opened Submission
  import Timestamp

  /** The synthetic column every export carries; its cells stay empty. */
  const TimeColumn := "Time"
  const JsonSuffix := ".json"
  /** U+FEFF, the UTF-8 byte-order mark written before the table. */
  const Bom := "\U{FEFF}"
  const CsvContentType := "text/csv; charset=utf-8"
  const CsvDisposition := "attachment; filename=\"responses.csv\""
  const ListFailedPrefix := "无法读取 responses 目录："

  /** One entry of the directory listing: its name, whether it is a
      directory, and the record that reading and parsing its file gives, or
      None when ioutil.ReadFile or json.Unmarshal fails. */
  datatype Entry = Entry(name: string, isDir: bool, document: Option<Record>)

  /** ioutil.ReadDir's result: the entries in listing order, or its error. */
  datatype Listing = Listed(entries: seq<Entry>) | ListFailed(reason: string)

  /** The entries whose record reaches the export (main.go:131-140). */
  predicate Contributes(e: Entry) {
    !e.isDir && HasSuffix(e.name, JsonSuffix) && e.document.Some?
  }

  /** The records of the contributing entries, in listing order. */
  function Kept(entries: seq<Entry>): (records: seq<Record>)
    ensures |records| <= |entries|
  {
    if entries == [] then []
    else
      var last := entries[|entries| - 1];
      Kept(entries[..|entries| - 1]) + (if Contributes(last) then [last.document.value] else [])
  }

  /** Every key of every record. */
  function FieldUnion(records: seq<Record>): (fields: set<string>)
    ensures forall i :: 0 <= i < |records| ==> records[i].Keys <= fields
  {
    if records == [] then {}
    else FieldUnion(records[..|records| - 1]) + records[|records| - 1].Keys
  }

  /** Keeping distributes over concatenation of listings: kept records stay
      in listing order, and what one part of the listing holds does not
      change what the other part contributes. */
  lemma {:induction false} KeptAppend(a: seq<Entry>, b: seq<Entry>)
    ensures Kept(a + b) == Kept(a) + Kept(b)
  {
    if b == [] {
      assert a + b == a;
    } else {
      var b' := b[..|b| - 1];
      assert (a + b)[..|a + b| - 1] == a + b';
      assert (a + b)[|a + b| - 1] == b[|b| - 1];
      KeptAppend(a, b');
    }
  }

  /** An entry that does not contribute (a directory, another suffix, a
      file that cannot be read or parsed) is skipped and the export goes on
      with the rest. */
  lemma SkippedEntry(a: seq<Entry>, e: Entry, b: seq<Entry>)
    requires !Contributes(e)
    ensures Kept(a + [e] + b) == Kept(a) + Kept(b)
  {
    KeptAppend(a + [e], b);
    assert (a + [e])[..|a|] == a;
    assert Kept(a + [e]) == Kept(a);
  }

  /** A record is exported exactly when some contributing entry holds it. */
  lemma {:induction false} KeptMembers(entries: seq<Entry>, r: Record)
    ensures r in Kept(entries) <==>
      exists j :: 0 <= j < |entries| && Contributes(entries[j]) && entries[j].document.value == r
  {
    if entries != [] {
      var init := entries[..|entries| - 1];
      KeptMembers(init, r);
      if exists j :: 0 <= j < |entries| && Contributes(entries[j]) && entries[j].document.value == r {
        var j :| 0 <= j < |entries| && Contributes(entries[j]) && entries[j].document.value == r;
        if j < |init| { assert init[j] == entries[j]; }
      }
      if r in Kept(init) {
        var j :| 0 <= j < |init| && Contributes(init[j]) && init[j].document.value == r;
        assert entries[j] == init[j];
      }
    }
  }

  /** A key is in the union exactly when some record has it. */
  lemma {:induction false} FieldUnionMembers(records: seq<Record>, key: string)
    ensures key in FieldUnion(records) <==> exists i :: 0 <= i < |records| && key in records[i]
  {
    if records != [] {
      var init := records[..|records| - 1];
      FieldUnionMembers(init, key);
      if exists i :: 0 <= i < |records| && key in records[i] {
        var i :| 0 <= i < |records| && key in records[i];
        if i < |init| { assert init[i] == records[i]; }
      }
      if key in FieldUnion(init) {
        var i :| 0 <= i < |init| && key in init[i];
        assert records[i] == init[i];
      }
    }
  }

  /** The first pass of main.go:130-148: keep the contributing records and
      gather their keys, then add the Time column. */
  method CollectRecords(entries: seq<Entry>) returns (records: seq<Record>, fieldSet: set<string>)
    ensures records == Kept(entries)
    ensures fieldSet == FieldUnion(records) + {TimeColumn}
  {
    records := [];
    fieldSet := {};
    for i := 0 to |entries|
      invariant records == Kept(entries[..i])
      invariant fieldSet == FieldUnion(records)
    {
      assert entries[..i + 1][..i] == entries[..i];
      var entry := entries[i];
      if !entry.isDir && HasSuffix(entry.name, JsonSuffix) {
        match entry.document {
          case None =>
          case Some(data) =>
            fieldSet := fieldSet + data.Keys;
            assert (records + [data])[..|records|] == records;
            records := records + [data];
        }
      }
    }
    assert entries[..|entries|] == entries;
    fieldSet := fieldSet + {TimeColumn};
  }

  predicate Distinct(s: seq<string>) {
    forall i, j :: 0 <= i < j < |s| ==> s[i] != s[j]
  }

  /** main.go:151-154: list the field set in Go's map iteration order, which
      is unspecified; so the order here is any order at all, and all that is
      promised is that each field appears exactly once. */
  method BuildColumns(fieldSet: set<string>) returns (fields: seq<string>)
    ensures Distinct(fields)
    ensures forall f :: f in fields <==> f in fieldSet
    ensures |fields| == |fieldSet|
  {
    fields := [];
    var rest := fieldSet;
    while rest != {}
      invariant rest <= fieldSet
      invariant Distinct(fields)
      invariant forall f :: f in fields <==> f in fieldSet - rest
      invariant |fields| + |rest| == |fieldSet|
      decreases rest
    {
      var field :| field in rest;
      assert field !in fields;
      fields := fields + [field];
      rest := rest - {field};
    }
  }

  /** The cell of a record under a column: empty for Time, the record's value
      for a key it has, empty for a key it lacks. */
  function Cell(record: Record, field: string): string {
    if field == TimeColumn then ""
    else if field in record then record[field]
    else ""
  }

  /** main.go:164-170: a row as wide as the header, filled by index. */
  method BuildRow(record: Record, fields: seq<string>) returns (row: seq<string>)
    ensures |row| == |fields|
    ensures forall j :: 0 <= j < |fields| ==> row[j] == Cell(record, fields[j])
  {
    var cells := new string[|fields|](_ => "");
    for i := 0 to |fields|
      invariant forall j :: 0 <= j < i ==> cells[j] == Cell(record, fields[j])
      invariant forall j :: i <= j < |fields| ==> cells[j] == ""
    {
      if fields[i] == TimeColumn {
      } else {
        cells[i] := if fields[i] in record then record[fields[i]] else "";
      }
    }
    row := cells[..];
  }

  /** main.go:163-172: one row per record, in order. */
  method BuildRows(records: seq<Record>, fields: seq<string>) returns (rows: seq<seq<string>>)
    ensures |rows| == |records|
    ensures forall i :: 0 <= i < |rows| ==> |rows[i]| == |fields|
    ensures forall i, j :: 0 <= i < |rows| && 0 <= j < |fields| ==> rows[i][j] == Cell(records[i], fields[j])
  {
    rows := [];
    for i := 0 to |records|
      invariant |rows| == i
      invariant forall k :: 0 <= k < i ==> |rows[k]| == |fields|
      invariant forall k, j :: 0 <= k < i && 0 <= j < |fields| ==> rows[k][j] == Cell(records[k], fields[j])
    {
      var row := BuildRow(records[i], fields);
      rows := rows + [row];
    }
  }

  /** What an export of `records` is: a header naming every key of every
      record and Time, each once and nothing else; one row per record, in
      order; every row as wide as the header, its cells as Cell says. */
  ghost predicate Reconciles(records: seq<Record>, header: seq<string>, rows: seq<seq<string>>) {
    && Distinct(header)
    && (forall f :: f in header <==> f in FieldUnion(records) + {TimeColumn})
    && |header| == |FieldUnion(records) + {TimeColumn}|
    && |rows| == |records|
    && (forall i :: 0 <= i < |rows| ==> |rows[i]| == |header|)
    && (forall i, j :: 0 <= i < |rows| && 0 <= j < |header| ==> rows[i][j] == Cell(records[i], header[j]))
  }

  /** handleCSV. The listing is ioutil.ReadDir's result, each entry already
      read and parsed. */
  method HandleCSV(listing: Listing) returns (resp: Response)
    ensures listing.ListFailed? ==>
      resp == Error(StatusInternalServerError, ListFailedPrefix + listing.reason)
    ensures listing.Listed? ==>
      && resp.status == StatusOK
      && resp.headers == map["Content-Type" := CsvContentType, "Content-Disposition" := CsvDisposition]
      && resp.body.Csv?
      && resp.body.bom == Bom
      && Reconciles(Kept(listing.entries), resp.body.header, resp.body.rows)
  {
    if listing.ListFailed? {
      return Error(StatusInternalServerError, ListFailedPrefix + listing.reason);
    }
    var records, fieldSet := CollectRecords(listing.entries);
    var fields := BuildColumns(fieldSet);
    var rows := BuildRows(records, fields);
    assert Reconciles(records, fields, rows);
    resp := Response(StatusOK,
                     map["Content-Type" := CsvContentType, "Content-Disposition" := CsvDisposition],
                     Csv(Bom, fields, rows));
  }

  /** Nothing a record holds is lost, except under the Time key: every other
      key has a column, and the record's row carries its value there. */
  lemma ExportKeepsValues(records: seq<Record>, header: seq<string>, rows: seq<seq<string>>, i: nat, key: string)
    requires Reconciles(records, header, rows)
    requires i < |records| && key in records[i] && key != TimeColumn
    ensures exists j :: 0 <= j < |header| && header[j] == key && rows[i][j] == records[i][key]
  {
    FieldUnionMembers(records, key);
    assert key in header;
    var j :| 0 <= j < |header| && header[j] == key;
    assert rows[i][j] == Cell(records[i], header[j]);
  }

  /** A Time value a client posted never reaches the export. */
  lemma TimeColumnBlank(records: seq<Record>, header: seq<string>, rows: seq<seq<string>>, i: nat, j: nat)
    requires Reconciles(records, header, rows)
    requires i < |rows| && j < |header| && header[j] == TimeColumn
    ensures rows[i][j] == ""
  {
    assert rows[i][j] == Cell(records[i], header[j]);
  }

  /** Two exports of the same records can differ only in column order: they
      have the same columns, the same number of rows, and the same cell
      under each column. */
  lemma ExportsAgreeUpToColumnOrder(records: seq<Record>,
                                    h1: seq<string>, rows1: seq<seq<string>>,
                                    h2: seq<string>, rows2: seq<seq<string>>,
                                    i: nat, j1: nat, j2: nat)
    requires Reconciles(records, h1, rows1) && Reconciles(records, h2, rows2)
    requires i < |records| && j1 < |h1| && j2 < |h2| && h1[j1] == h2[j2]
    ensures |h1| == |h2| && |rows1| == |rows2|
    ensures rows1[i][j1] == rows2[i][j2]
  {
    assert rows1[i][j1] == Cell(records[i], h1[j1]);
    assert rows2[i][j2] == Cell(records[i], h2[j2]);
  }

  /** `entries` is a listing of the responses directory `files`: every file
      entry that read and parsed to a record names a stored file holding that
      record, and every stored file is listed. An entry whose read or parse
      failed is allowed whatever its file holds. */
  ghost predicate ListsStore(entries: seq<Entry>, files: map<string, StoredFile>) {
    && (forall j :: 0 <= j < |entries| && !entries[j].isDir && entries[j].document.Some? ==>
          && entries[j].name in files
          && files[entries[j].name] == Document(entries[j].document.value))
    && (forall name :: name in files ==>
          exists j :: 0 <= j < |entries| && !entries[j].isDir && entries[j].name == name)
  }

  /** Every file entry called `name` was read and parsed: ioutil.ReadFile
      did not fail on it (main.go:132-135). */
  predicate ReadsBack(entries: seq<Entry>, name: string) {
    forall j :: 0 <= j < |entries| && !entries[j].isDir && entries[j].name == name ==>
      entries[j].document.Some?
  }

  /** A record handleForm stored under its capture-time name is in every
      export of the directory in which that file read back. */
  lemma StoredRecordExported(entries: seq<Entry>, files: map<string, StoredFile>, t: Timestamp.Clock, record: Record)
    requires ListsStore(entries, files)
    requires Timestamp.Filename(t) in files && files[Timestamp.Filename(t)] == Document(record)
    requires ReadsBack(entries, Timestamp.Filename(t))
    ensures record in Kept(entries)
  {
    var name := Timestamp.Filename(t);
    var j :| 0 <= j < |entries| && !entries[j].isDir && entries[j].name == name;
    assert entries[j].document.Some?;
    assert Contributes(entries[j]);
    KeptMembers(entries, record);
  }

  /** A stored file whose read fails still leaves a listing of the
      directory: the one-entry listing of a store holding one record. */
  lemma {:induction false} FailedReadIsListed(t: Timestamp.Clock, record: Record)
    ensures ListsStore([Entry(Timestamp.Filename(t), false, None)], map[Timestamp.Filename(t) := Document(record)])
    ensures Kept([Entry(Timestamp.Filename(t), false, None)]) == []
  {
    var entries := [Entry(Timestamp.Filename(t), false, None)];
    assert entries[0].name == Timestamp.Filename(t);
    assert entries[..0] == [];
    assert !Contributes(entries[0]);
  }

  /** A stored record whose file failed to read, and which no other stored
      file holds, gets no row in the export. */
  lemma FailedReadDropsRecord(entries: seq<Entry>, files: map<string, StoredFile>, name: string, record: Record)
    requires ListsStore(entries, files)
    requires name in files && files[name] == Document(record)
    requires forall j :: 0 <= j < |entries| && !entries[j].isDir && entries[j].name == name ==>
      entries[j].document.None?
    requires forall n :: n in files && n != name ==> files[n] != Document(record)
    ensures record !in Kept(entries)
  {
    KeptMembers(entries, record);
  }

  /** The file a failed write leaves behind, when it does not parse, adds no
      row to any export. */
  lemma UnparsableContributesNothing(entries: seq<Entry>, files: map<string, StoredFile>, j: nat)
    requires ListsStore(entries, files)
    requires j < |entries| && entries[j].name in files && files[entries[j].name] == Unparsable
    ensures !Contributes(entries[j])
  {
  }

  /** Every exported record is a record some stored file holds. */
  lemma ExportedRecordsAreStored(entries: seq<Entry>, files: map<string, StoredFile>, record: Record)
    requires ListsStore(entries, files)
    requires record in Kept(entries)
    ensures exists name :: name in files && files[name] == Document(record)
  {
    KeptMembers(entries, record);
    var j :| 0 <= j < |entries| && Contributes(entries[j]) && entries[j].document.value == record;
    assert files[entries[j].name] == Document(record);
  }
}
