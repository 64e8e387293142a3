/** Callers of the two handlers: what their contracts let a client conclude
    about sequences of submissions and exports. */
module Scenarios {
  import opened Http
  import opened Timestamp
  import opened Submission
  import opened Export

  /** Two submissions captured in the same millisecond share a file name;
      os.Create truncates, so only the second record remains. */
  method SameMillisecondOverwrites(store: ResponseStore, first: Request, second: Request, t1: Clock, t2: Clock)
    requires Accepted(first) && Accepted(second) && SameMillisecond(t1, t2)
    modifies store
    ensures store.files == old(store.files)[Filename(t1) :=
      Document(NormalizedRecord(second.form.value, OriginAddress(second.forwardedFor, second.peerHost)))]
  {
    var _ := HandleForm(store, first, t1, None, None, Unparsable);
    var _ := HandleForm(store, second, t2, None, None, Unparsable);
    SameMillisecondSameName(t1, t2);
  }

  /** Submissions captured in different milliseconds land in different files,
      and both records are stored. */
  method DistinctMillisecondsKeepBoth(store: ResponseStore, first: Request, second: Request, t1: Clock, t2: Clock)
    requires Accepted(first) && Accepted(second) && !SameMillisecond(t1, t2)
    requires WellFormed(t1) && WellFormed(t2) && FourDigitYear(t1) && FourDigitYear(t2)
    modifies store
    ensures Filename(t1) != Filename(t2)
    ensures store.files == old(store.files)
      [Filename(t1) := Document(NormalizedRecord(first.form.value, OriginAddress(first.forwardedFor, first.peerHost)))]
      [Filename(t2) := Document(NormalizedRecord(second.form.value, OriginAddress(second.forwardedFor, second.peerHost)))]
  {
    var _ := HandleForm(store, first, t1, None, None, Unparsable);
    var _ := HandleForm(store, second, t2, None, None, Unparsable);
    FilenameOrder(t1, t2);
  }

  /** A GET changes nothing in the store. */
  method RejectedMethodStoresNothing(store: ResponseStore, req: Request, t: Clock)
    requires req.verb == "GET"
    modifies store
    ensures store.files == old(store.files)
  {
    var resp := HandleForm(store, req, t, None, None, Unparsable);
    assert resp.status == 405;
  }

  /** A submission of gender=F and age=22 from 203.0.113.5 without a
      forwarding proxy, with age posted twice. */
  method SubmitScenario() {
    var store := new ResponseStore(map[]);
    var form := map["gender" := ["F"], "age" := ["22", "23"]];
    var req := Request("POST", Some(form), "", "203.0.113.5");
    var t := Clock(2024, 5, 1, 12, 30, 15, 250_000_000);
    var resp := HandleForm(store, req, t, None, None, Unparsable);
    assert resp.status == StatusOK;
    assert OriginAddress("", "203.0.113.5") == "203.0.113.5";
    var expected := map["gender" := "F", "age" := "22", IpAddressKey := "203.0.113.5"];
    assert "gender" != IpAddressKey && "age" != IpAddressKey && "gender" != "age";
    assert form.Keys + {IpAddressKey} == expected.Keys;
    assert IsNormalized(expected, form, "203.0.113.5");
    NormalizedRecordUnique(expected, form, "203.0.113.5");
    assert store.files == map[Filename(t) := Document(expected)];
  }

  /** A successful submission followed by an export of the directory as it
      then stands: the export has a row for the submitted record. */
  method SubmitThenExport(store: ResponseStore, req: Request, t: Clock, listing: seq<Entry>)
    returns (table: Response)
    requires Accepted(req)
    modifies store
    ensures table.body.Csv? && Reconciles(Kept(listing), table.body.header, table.body.rows)
    ensures ListsStore(listing, store.files) && ReadsBack(listing, Filename(t)) ==>
      exists i :: 0 <= i < |Kept(listing)| &&
        Kept(listing)[i] == NormalizedRecord(req.form.value, OriginAddress(req.forwardedFor, req.peerHost))
  {
    var _ := HandleForm(store, req, t, None, None, Unparsable);
    table := HandleCSV(Listed(listing));
    if ListsStore(listing, store.files) && ReadsBack(listing, Filename(t)) {
      var record := NormalizedRecord(req.form.value, OriginAddress(req.forwardedFor, req.peerHost));
      StoredRecordExported(listing, store.files, t, record);
      var i :| 0 <= i < |Kept(listing)| && Kept(listing)[i] == record;
    }
  }
}
