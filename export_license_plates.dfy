/** `ExportLicensePlates.Run`: query the unexported plates, stop when there
    are none, otherwise export them to a CSV blob and, only when the upload
    reports success, mark them as exported. */
module ExportLicensePlates {
  import opened Models
  import opened Files
  import opened Database

  /** The HTTP response of a run: 204 No Content, 200 OK with the number of
      plates read for export, or an exception that escaped the run. */
  datatype Response = NoContent | Ok(plateCount: nat) | Faulted(fault: Fault)

  /** One export cycle. The query is enumerated twice: `AnyAsync` drains
      `firstRead` only to see whether it is empty, and `ToArrayAsync` restarts
      the query and materialises `secondRead`, which is what gets exported and
      marked. `now` is the UTC instant the blob name is taken from;
      `csvWriteSucceeds`, `uploadSucceeds` and `commitAccepted` are the
      outcomes of building the CSV, of the upload block and of the batch
      commit. */
  method Run(databaseMethods: DatabaseMethods, fileMethods: FileMethods,
             firstRead: seq<seq<PlateDocument>>, secondRead: seq<seq<PlateDocument>>,
             now: DateTime, csvWriteSucceeds: bool, uploadSucceeds: bool, commitAccepted: bool)
    returns (response: Response)
    requires databaseMethods.Valid() && now.Valid()
    modifies databaseMethods, fileMethods
    ensures databaseMethods.Valid()
    // Nothing to export: no file, no store mutation.
    ensures Flatten(firstRead) == [] ==>
              && response == NoContent
              && fileMethods.blobs == old(fileMethods.blobs)
              && databaseMethods.documents == old(databaseMethods.documents)
    // Something to export: the second read's snapshot is exported, then marked.
    ensures Flatten(firstRead) != [] ==>
              var plates := Flatten(secondRead);
              var uploaded := csvWriteSucceeds && uploadSucceeds;
              && response == (if csvWriteSucceeds then Ok(|plates|) else Faulted(CsvWriteFault))
              && fileMethods.blobs == (if uploaded then old(fileMethods.blobs)[BlobName(now) := WriteCsv(plates)]
                                       else old(fileMethods.blobs))
              && databaseMethods.documents == (if uploaded && commitAccepted
                                               then MarkedStore(old(databaseMethods.documents), plates)
                                               else old(databaseMethods.documents))
    // File then mark: the store only changes once the export file is stored.
    ensures databaseMethods.documents != old(databaseMethods.documents) ==>
              BlobName(now) in fileMethods.blobs &&
              fileMethods.blobs[BlobName(now)] == WriteCsv(Flatten(secondRead))
  {
    var licensePlates, _ := databaseMethods.GetLicensePlatesToExport(firstRead);
    var hasPlates := licensePlates != [];
    if !hasPlates {
      return NoContent;
    }

    var read, _ := databaseMethods.GetLicensePlatesToExport(secondRead);
    var plates := new PlateDocument[|read|](i requires 0 <= i < |read| => read[i]);
    assert plates[..] == read;
    var uploaded := fileMethods.GenerateAndSaveCsv(plates[..], now, csvWriteSucceeds, uploadSucceeds);
    if uploaded.Threw? {
      return Faulted(uploaded.fault);
    }
    if uploaded.value {
      var _ := databaseMethods.MarkLicensePlatesAsExported(plates, commitAccepted);
    }
    response := Ok(plates.Length);
  }

  /** A fully successful cycle over a faithful answer of the query leaves
      every document exported and otherwise unchanged; the next cycle's query
      then finds nothing, so that cycle answers No Content and changes
      nothing. */
  lemma SuccessfulCycleThenNoWork(store: Store, plates: seq<PlateDocument>, nextRead: seq<seq<PlateDocument>>)
    requires KeyedByFileName(store) && AnswersUnexportedQuery(store, plates)
    requires AnswersUnexportedQuery(MarkedStore(store, plates), Flatten(nextRead))
    ensures MarkedStore(store, plates) == map k | k in store :: store[k].(exported := true)
    ensures Flatten(nextRead) == []
  {
    MarkedStoreOfQueryAnswer(store, plates);
    RerunFindsNothing(store, plates, Flatten(nextRead));
  }

  /** Two unexported documents, one with a recognised plate and one with an
      empty text, are written as two rows in their order and both end up
      marked, in one commit. */
  lemma TwoPlateExample(t1: DateTime, t2: DateTime)
    ensures var d1 := PlateDocument("img1.jpg", NonNull("ABC123"), t1, false);
            var d2 := PlateDocument("img2.jpg", NonNull(""), t2, false);
            var store := map["img1.jpg" := d1, "img2.jpg" := d2];
            && WriteCsv([d1, d2]).records == [LicensePlateData("img1.jpg", NonNull("ABC123"), t1),
                                              LicensePlateData("img2.jpg", NonNull(""), t2)]
            && MarkedStore(store, [d1, d2]) == map["img1.jpg" := d1.(exported := true),
                                                   "img2.jpg" := d2.(exported := true)]
  {
    var d1 := PlateDocument("img1.jpg", NonNull("ABC123"), t1, false);
    var d2 := PlateDocument("img2.jpg", NonNull(""), t2, false);
    var store := map["img1.jpg" := d1, "img2.jpg" := d2];
    assert [d1, d2][1].fileName != [d1, d2][0].fileName;
    assert FileNames([d1, d2]) == {"img1.jpg", "img2.jpg"};
    MarkedStoreOfQueryAnswer(store, [d1, d2]);
  }
}
