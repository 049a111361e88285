/** `DatabaseMethods`: read the plate documents that still await export, and
    mark a collection of documents as exported in one transactional batch.
    The document store is a map from file name to document; the query engine
    and the batch engine are abstract (the pages a query returns and whether a
    batch commits are given to the methods). */
module Database {
  import opened Models

  /** The document container: each document under its file name. */
  type Store = map<string, PlateDocument>

  predicate KeyedByFileName(store: Store) {
    forall k :: k in store ==> store[k].fileName == k
  }

  function FileNames(s: seq<PlateDocument>): set<string> {
    set i | 0 <= i < |s| :: s[i].fileName
  }

  predicate DistinctFileNames(s: seq<PlateDocument>) {
    forall i, j :: 0 <= i < j < |s| ==> s[i].fileName != s[j].fileName
  }

  /** What the intended query (`exported == false`) returns for `store`:
      documents as stored, each unexported document once, and no other. */
  function AnswersUnexportedQuery(store: Store, s: seq<PlateDocument>): (r: bool)
    ensures r ==> FileNames(s) == set k | k in store && !store[k].exported
    ensures r ==> forall i :: 0 <= i < |s| ==> s[i] in store.Values
  {
    && (forall i :: 0 <= i < |s| ==>
          s[i].fileName in store && store[s[i].fileName] == s[i] && !s[i].exported)
    && DistinctFileNames(s)
    && (forall k :: k in store && !store[k].exported ==> k in FileNames(s))
  }

  // ---------------------------------------------------------------------
  // Paged reads

  /** The number of items on all `pages`. */
  function TotalCount(pages: seq<seq<PlateDocument>>): nat {
    if pages == [] then 0 else TotalCount(pages[..|pages| - 1]) + |pages[|pages| - 1]|
  }

  /** The items of all pages, page after page. */
  function Flatten(pages: seq<seq<PlateDocument>>): (items: seq<PlateDocument>)
    ensures |items| == TotalCount(pages)
  {
    if pages == [] then [] else Flatten(pages[..|pages| - 1]) + pages[|pages| - 1]
  }

  /** Item `k` of page `p` sits in the flattened sequence right after the
      items of the pages before `p`: nothing skipped, nothing repeated, page
      order kept. */
  lemma {:induction false} FlattenPosition(pages: seq<seq<PlateDocument>>, p: nat, k: nat)
    requires p < |pages| && k < |pages[p]|
    ensures TotalCount(pages[..p]) + k < |Flatten(pages)|
    ensures Flatten(pages)[TotalCount(pages[..p]) + k] == pages[p][k]
  {
    var n := |pages| - 1;
    if p < n {
      assert pages[..n][..p] == pages[..p];
      FlattenPosition(pages[..n], p, k);
    } else {
      assert pages[..n] == pages[..p];
    }
  }

  // ---------------------------------------------------------------------
  // Batch upserts

  /** Commit of a batch of upserts (overwrite by key), applied in staging
      order, so the last upsert for a key wins. */
  function ApplyUpserts(store: Store, staged: seq<PlateDocument>): (r: Store)
    ensures r.Keys == store.Keys + FileNames(staged)
  {
    if staged == [] then store
    else
      var last := staged[|staged| - 1];
      var before := staged[..|staged| - 1];
      assert FileNames(staged) == FileNames(before) + {last.fileName} by {
        assert forall i :: 0 <= i < |before| ==> before[i] == staged[i];
      }
      ApplyUpserts(store, before)[last.fileName := last]
  }

  /** `Exported = true` set on each of the records, in place. */
  function MarkAll(s: seq<PlateDocument>): (r: seq<PlateDocument>)
    ensures |r| == |s|
    ensures forall i :: 0 <= i < |s| ==> r[i] == s[i].(exported := true)
  {
    seq(|s|, i requires 0 <= i < |s| => s[i].(exported := true))
  }

  lemma FileNamesOfMarkAll(s: seq<PlateDocument>)
    ensures FileNames(MarkAll(s)) == FileNames(s)
  {
  }

  /** Committing the marked records adds no key beyond theirs, leaves every
      record passed in exported, and leaves every other document as it was. */
  lemma MarkAllEffects(store: Store, s: seq<PlateDocument>)
    ensures ApplyUpserts(store, MarkAll(s)).Keys == store.Keys + FileNames(s)
    ensures forall i :: 0 <= i < |s| ==> ApplyUpserts(store, MarkAll(s))[s[i].fileName].exported
    ensures forall k :: k in store && k !in FileNames(s) ==> ApplyUpserts(store, MarkAll(s))[k] == store[k]
  {
    var m := MarkAll(s);
    FileNamesOfMarkAll(s);
    forall i | 0 <= i < |s| ensures ApplyUpserts(store, m)[s[i].fileName].exported {
      assert m[i].fileName == s[i].fileName;
      UpsertsTakeStaged(store, m, s[i].fileName);
    }
    forall k | k in store && k !in FileNames(s) ensures ApplyUpserts(store, m)[k] == store[k] {
      UpsertsLeaveOthers(store, m, k);
    }
  }

  /** The store after a committed `MarkLicensePlatesAsExported(s)`. */
  function MarkedStore(store: Store, s: seq<PlateDocument>): (r: Store)
    ensures r.Keys == store.Keys + FileNames(s)
    ensures forall i :: 0 <= i < |s| ==> r[s[i].fileName].exported
    ensures forall k :: k in store && k !in FileNames(s) ==> r[k] == store[k]
  {
    MarkAllEffects(store, s);
    ApplyUpserts(store, MarkAll(s))
  }

  /** A commit leaves every document whose key the batch does not touch as
      it was. */
  lemma {:induction false} UpsertsLeaveOthers(store: Store, staged: seq<PlateDocument>, k: string)
    requires k in store && k !in FileNames(staged)
    ensures ApplyUpserts(store, staged)[k] == store[k]
  {
    if staged != [] {
      var before := staged[..|staged| - 1];
      assert FileNames(before) <= FileNames(staged) by {
        assert forall i :: 0 <= i < |before| ==> before[i] == staged[i];
      }
      assert staged[|staged| - 1].fileName in FileNames(staged);
      UpsertsLeaveOthers(store, before, k);
    }
  }

  /** A key the batch touches ends up holding one of the staged documents,
      whatever the store held before. */
  lemma {:induction false} UpsertsTakeStaged(store: Store, staged: seq<PlateDocument>, k: string)
    requires k in FileNames(staged)
    ensures ApplyUpserts(store, staged)[k] in staged
    ensures ApplyUpserts(store, staged)[k].fileName == k
  {
    var n := |staged| - 1;
    var before := staged[..n];
    if staged[n].fileName != k {
      var i :| 0 <= i < |staged| && staged[i].fileName == k;
      assert i < n && before[i] == staged[i];
      UpsertsTakeStaged(store, before, k);
      assert forall d :: d in before ==> d in staged;
    }
  }

  /** The value a touched key ends up with depends on the batch alone. */
  lemma {:induction false} UpsertsOverwrite(st1: Store, st2: Store, staged: seq<PlateDocument>, k: string)
    requires k in FileNames(staged)
    ensures ApplyUpserts(st1, staged)[k] == ApplyUpserts(st2, staged)[k]
  {
    var n := |staged| - 1;
    var before := staged[..n];
    if staged[n].fileName != k {
      var i :| 0 <= i < |staged| && staged[i].fileName == k;
      assert i < n && before[i] == staged[i];
      UpsertsOverwrite(st1, st2, before, k);
    }
  }

  /** A commit keeps every document under its own file name. */
  lemma {:induction false} UpsertsKeepKeying(store: Store, staged: seq<PlateDocument>)
    requires KeyedByFileName(store)
    ensures KeyedByFileName(ApplyUpserts(store, staged))
  {
    if staged != [] {
      UpsertsKeepKeying(store, staged[..|staged| - 1]);
    }
  }

  /** Committing the same batch twice leaves the store as committing it once. */
  lemma UpsertsIdempotent(store: Store, staged: seq<PlateDocument>)
    ensures ApplyUpserts(ApplyUpserts(store, staged), staged) == ApplyUpserts(store, staged)
  {
    var once := ApplyUpserts(store, staged);
    var twice := ApplyUpserts(once, staged);
    forall k | k in twice ensures twice[k] == once[k] {
      if k in FileNames(staged) {
        UpsertsOverwrite(once, store, staged, k);
      } else {
        UpsertsLeaveOthers(once, staged, k);
      }
    }
  }

  /** Marking the same records twice leaves the store as marking them once. */
  lemma MarkIdempotent(store: Store, s: seq<PlateDocument>)
    ensures MarkedStore(MarkedStore(store, s), s) == MarkedStore(store, s)
    ensures MarkedStore(MarkedStore(store, s), MarkAll(s)) == MarkedStore(store, s)
  {
    UpsertsIdempotent(store, MarkAll(s));
    assert MarkAll(MarkAll(s)) == MarkAll(s);
  }

  /** After a committed mark, every record passed in is exported in the
      store; when their file names are distinct, each is stored exactly as
      passed apart from the flag. */
  lemma MarkedRecords(store: Store, s: seq<PlateDocument>, i: nat)
    requires i < |s|
    ensures s[i].fileName in MarkedStore(store, s)
    ensures MarkedStore(store, s)[s[i].fileName].exported
    ensures DistinctFileNames(s) ==> MarkedStore(store, s)[s[i].fileName] == s[i].(exported := true)
  {
    var m := MarkAll(s);
    var k := s[i].fileName;
    assert m[i].fileName == k;
    UpsertsTakeStaged(store, m, k);
    var d := MarkedStore(store, s)[k];
    var j :| 0 <= j < |m| && m[j] == d;
    if DistinctFileNames(s) {
      assert s[j].fileName == k;
      assert j == i;
    }
  }

  /** A committed mark of exactly the unexported documents sets every
      document's flag and changes nothing else in the store. */
  lemma MarkedStoreOfQueryAnswer(store: Store, s: seq<PlateDocument>)
    requires KeyedByFileName(store) && AnswersUnexportedQuery(store, s)
    ensures MarkedStore(store, s) == map k | k in store :: store[k].(exported := true)
  {
    var after := MarkedStore(store, s);
    FileNamesOfMarkAll(s);
    assert after.Keys == store.Keys;
    forall k | k in store ensures after[k] == store[k].(exported := true) {
      if k in FileNames(s) {
        var i :| 0 <= i < |s| && s[i].fileName == k;
        MarkedRecords(store, s, i);
      } else {
        UpsertsLeaveOthers(store, MarkAll(s), k);
      }
    }
  }

  /** The first file name of `s`; it gives `RerunFindsNothing` a term for the
      first element of a non-empty answer. */
  function FirstFileName(s: seq<PlateDocument>): string {
    if s == [] then "" else s[0].fileName
  }

  /** After a committed mark of the query's answer, the query finds nothing:
      a second export cycle is a no-op. */
  lemma RerunFindsNothing(store: Store, s: seq<PlateDocument>, t: seq<PlateDocument>)
    requires KeyedByFileName(store) && AnswersUnexportedQuery(store, s)
    requires AnswersUnexportedQuery(MarkedStore(store, s), t)
    ensures t == []
  {
    MarkedStoreOfQueryAnswer(store, s);
    if t != [] {
      var first := FirstFileName(t);
      assert false;
    }
  }

  // ---------------------------------------------------------------------
  // The component

  class DatabaseMethods {
    var documents: Store

    ghost predicate Valid()
      reads this
    {
      KeyedByFileName(documents)
    }

    constructor (initial: Store)
      requires KeyedByFileName(initial)
      ensures Valid() && documents == initial
    {
      documents := initial;
    }

    /** `GetLicensePlatesToExport`: drain the query's `feed` page by page,
        counting the documents yielded. It changes nothing. */
    method GetLicensePlatesToExport(feed: seq<seq<PlateDocument>>)
      returns (plates: seq<PlateDocument>, exportedCount: nat)
      ensures plates == Flatten(feed)
      ensures exportedCount == |plates| == TotalCount(feed)
    {
      plates := [];
      exportedCount := 0;
      var page := 0;
      while page < |feed|
        invariant page <= |feed|
        invariant plates == Flatten(feed[..page])
        invariant exportedCount == |plates|
      {
        var next := feed[page];
        for j := 0 to |next|
          invariant plates == Flatten(feed[..page]) + next[..j]
          invariant exportedCount == |plates|
        {
          exportedCount := exportedCount + 1;
          plates := plates + [next[j]];
        }
        assert next[..|next|] == next;
        assert feed[..page + 1][..page] == feed[..page];
        page := page + 1;
      }
      assert feed[..|feed|] == feed;
    }

    /** `MarkLicensePlatesAsExported`: set `Exported` on each record in
        place, stage its upsert in one batch and count it; then execute the
        batch once. The batch's response is not inspected, so a rejected
        commit (`commitAccepted` false) leaves the store as it was and the
        call still returns normally. */
    method MarkLicensePlatesAsExported(licensePlates: array<PlateDocument>, commitAccepted: bool)
      returns (licensePlateCount: nat)
      requires Valid()
      modifies this, licensePlates
      ensures Valid()
      ensures licensePlates[..] == MarkAll(old(licensePlates[..]))
      ensures licensePlateCount == licensePlates.Length
      ensures documents == if commitAccepted then MarkedStore(old(documents), old(licensePlates[..]))
                           else old(documents)
    {
      var batch: seq<PlateDocument> := [];
      licensePlateCount := 0;
      for i := 0 to licensePlates.Length
        invariant documents == old(documents)
        invariant licensePlateCount == i
        invariant batch == licensePlates[..i]
        invariant forall k :: 0 <= k < i ==> licensePlates[k] == old(licensePlates[k]).(exported := true)
        invariant forall k :: i <= k < licensePlates.Length ==> licensePlates[k] == old(licensePlates[k])
      {
        licensePlates[i] := licensePlates[i].(exported := true);
        batch := batch + [licensePlates[i]];
        licensePlateCount := licensePlateCount + 1;
      }
      assert batch == MarkAll(old(licensePlates[..]));
      if commitAccepted {
        UpsertsKeepKeying(documents, batch);
        documents := ApplyUpserts(documents, batch);
      }
    }
  }
}
