/** `FileMethods`: project plate documents to rows, write them as a
    comma-delimited document, and upload it to blob storage under a name taken
    from the current UTC second. */
module Files {
  import opened Models
  import opened SortableTime

  /** The field delimiter configured for the CSV writer. */
  const Delimiter: string := ","

  /** `ToLicensePlateData`: the row written for one document. */
  function ToLicensePlateData(source: PlateDocument): (row: LicensePlateData)
    ensures row.fileName == source.fileName
    ensures row.licensePlateText == source.licensePlateText
    ensures row.timeStamp == source.timestamp
  {
    LicensePlateData(source.fileName, source.licensePlateText, source.timestamp)
  }

  /** The projection loses the `exported` flag and nothing else. */
  lemma ProjectionForgetsOnlyExported(a: PlateDocument, b: PlateDocument)
    ensures ToLicensePlateData(a) == ToLicensePlateData(b) <==> a.(exported := b.exported) == b
  {
  }

  /** `licensePlates.Select(ToLicensePlateData)`: one row per document, in
      order, none dropped and none repeated. */
  function Project(licensePlates: seq<PlateDocument>): (rows: seq<LicensePlateData>)
    ensures |rows| == |licensePlates|
    ensures forall i :: 0 <= i < |licensePlates| ==> rows[i] == ToLicensePlateData(licensePlates[i])
  {
    if licensePlates == [] then []
    else [ToLicensePlateData(licensePlates[0])] + Project(licensePlates[1..])
  }

  /** The document the CSV writer produces: its delimiter and its records. */
  datatype CsvDocument = CsvDocument(delimiter: string, records: seq<LicensePlateData>)

  function WriteCsv(licensePlates: seq<PlateDocument>): (doc: CsvDocument)
    ensures doc.delimiter == ","
    ensures |doc.records| == |licensePlates|
    ensures forall i :: 0 <= i < |licensePlates| ==>
              doc.records[i].fileName == licensePlates[i].fileName &&
              doc.records[i].licensePlateText == licensePlates[i].licensePlateText &&
              doc.records[i].timeStamp == licensePlates[i].timestamp
  {
    CsvDocument(Delimiter, Project(licensePlates))
  }

  /** `$"{DateTime.UtcNow:s}.csv"` for the instant `now`. */
  function BlobName(now: DateTime): (name: string)
    requires now.Valid()
    ensures |name| == 23 && name[19..] == ".csv"
    ensures SortableLayout(name[..19], now)
  {
    var stamp := SortableFormat(now);
    assert (stamp + ".csv")[..19] == stamp;
    stamp + ".csv"
  }

  /** Blob names sort in the order of the seconds they were taken in; two
      exports get the same name exactly when they run in the same second. */
  lemma BlobNameOrder(a: DateTime, b: DateTime)
    requires a.Valid() && b.Valid()
    ensures LexLess(BlobName(a), BlobName(b)) <==> EarlierSecond(a, b)
    ensures BlobName(a) == BlobName(b) <==> SameSecond(a, b)
  {
    SortableFormatOrder(a, b);
    LexLessAppend(SortableFormat(a), SortableFormat(b), ".csv", ".csv");
    if BlobName(a) == BlobName(b) {
      assert SortableFormat(a) == BlobName(a)[..19] && SortableFormat(b) == BlobName(b)[..19];
    }
  }

  /** An exception that escapes `GenerateAndSaveCsv`. */
  datatype Fault = CsvWriteFault

  /** What a call does: return a value or throw. */
  datatype Attempt<T> = Returned(value: T) | Threw(fault: Fault)

  /** The blob container the export files are uploaded to, as a map from blob
      name to the document stored under it. */
  class FileMethods {
    var blobs: map<string, CsvDocument>

    constructor (initial: map<string, CsvDocument>)
      ensures blobs == initial
    {
      blobs := initial;
    }

    /** `GenerateAndSaveCsv`. The CSV is built before the `try`, so a failure
        there (`csvWriteSucceeds` false) escapes as an exception; a failure of
        the upload block (`uploadSucceeds` false) is caught and becomes
        `false`. */
    method GenerateAndSaveCsv(licensePlates: seq<PlateDocument>, now: DateTime,
                              csvWriteSucceeds: bool, uploadSucceeds: bool)
      returns (r: Attempt<bool>)
      requires now.Valid()
      modifies this
      ensures !csvWriteSucceeds ==> r == Threw(CsvWriteFault) && blobs == old(blobs)
      ensures csvWriteSucceeds ==> r == Returned(uploadSucceeds)
      ensures csvWriteSucceeds && uploadSucceeds ==>
                blobs == old(blobs)[BlobName(now) := WriteCsv(licensePlates)]
      ensures !(csvWriteSucceeds && uploadSucceeds) ==> blobs == old(blobs)
    {
      var blobName := BlobName(now);
      if !csvWriteSucceeds {
        return Threw(CsvWriteFault);
      }
      var document := WriteCsv(licensePlates);
      if !uploadSucceeds {
        return Returned(false);
      }
      blobs := blobs[blobName := document];
      return Returned(true);
    }
  }
}
