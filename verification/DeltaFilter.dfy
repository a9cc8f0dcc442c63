/** URLs and the documents the crawl produces for them. */
module Documents {
  import opened Basics

  type Url(==, !new)

  /** `hash` is the content hash; the empty string is the absent hash. */
  datatype Extraction = Extraction(text: string, hash: string)

  datatype Doc = Doc(url: Url, extraction: Option<Extraction>)
}

/** The incremental filter: which documents become rows, given the content hashes already known. */
module DeltaFilter {
  import opened Basics
  import opened Documents

  class DocumentStore {
    var known: set<string>
    var rows: seq<Doc>

    /** `baseline` are the hashes the client said it already has. */
    constructor (baseline: set<string>)
      ensures known == baseline && rows == []
    {
      known, rows := baseline, [];
    }

    method Persist(doc: Doc)
      modifies this
      ensures (known, rows) == PersistStep(old(known), old(rows), doc)
    {
      if doc.extraction.None? {
        return;
      }
      var contentHash := doc.extraction.value.hash;
      if contentHash != "" && contentHash in known {
        return;
      }
      rows := rows + [doc];
      if contentHash != "" {
        known := known + {contentHash};
      }
    }
  }

  function PersistStep(known: set<string>, rows: seq<Doc>, doc: Doc): (set<string>, seq<Doc>) {
    if doc.extraction.None? then (known, rows)
    else
      var h := doc.extraction.value.hash;
      if h == "" then (known, rows + [doc])
      else if h in known then (known, rows)
      else (known + {h}, rows + [doc])
  }

  /** Known set and rows after persisting `docs` in order, starting from `baseline` and no rows. */
  function PersistAll(baseline: set<string>, docs: seq<Doc>): (set<string>, seq<Doc>) {
    if docs == [] then (baseline, [])
    else
      var (known, rows) := PersistAll(baseline, docs[..|docs| - 1]);
      PersistStep(known, rows, docs[|docs| - 1])
  }

  // ----- the specification: no known set, just which positions survive

  predicate HasHash(d: Doc) {
    d.extraction.Some? && d.extraction.value.hash != ""
  }

  predicate Hashless(d: Doc) {
    d.extraction.Some? && d.extraction.value.hash == ""
  }

  /** Position `i` survives: no hash to compare, or the first occurrence of a hash outside the baseline. */
  predicate Survives(baseline: set<string>, docs: seq<Doc>, i: nat)
    requires i < |docs|
  {
    Hashless(docs[i]) ||
    (HasHash(docs[i]) && docs[i].extraction.value.hash !in baseline &&
     forall j | 0 <= j < i && HasHash(docs[j]) :: docs[j].extraction.value.hash != docs[i].extraction.value.hash)
  }

  function Survivors(baseline: set<string>, docs: seq<Doc>, n: nat): seq<Doc>
    requires n <= |docs|
  {
    if n == 0 then []
    else Survivors(baseline, docs, n - 1) + (if Survives(baseline, docs, n - 1) then [docs[n - 1]] else [])
  }

  function Hashes(docs: seq<Doc>): set<string> {
    set d | d in docs && HasHash(d) :: d.extraction.value.hash
  }

  lemma HashesOfAppend(a: seq<Doc>, d: Doc)
    ensures Hashes(a + [d]) == Hashes(a) + (if HasHash(d) then {d.extraction.value.hash} else {})
  {
    assert forall x | x in a + [d] :: x in a || x == d;
    assert forall x | x in a :: x in a + [d];
    assert d in a + [d];
  }

  lemma SeenHash(docs: seq<Doc>, n: nat, h: string)
    requires n <= |docs|
    ensures h in Hashes(docs[..n]) <==>
            exists j :: 0 <= j < n && HasHash(docs[j]) && docs[j].extraction.value.hash == h
  {
    if j :| 0 <= j < n && HasHash(docs[j]) && docs[j].extraction.value.hash == h {
      assert docs[..n][j] == docs[j];
    }
  }

  /** The known set is the baseline and every hash seen, kept or not. */
  lemma {:induction false} KnownIsSeen(baseline: set<string>, docs: seq<Doc>)
    ensures PersistAll(baseline, docs).0 == baseline + Hashes(docs)
  {
    if docs == [] {
    } else {
      var n := |docs| - 1;
      assert docs == docs[..n] + [docs[n]];
      KnownIsSeen(baseline, docs[..n]);
      HashesOfAppend(docs[..n], docs[n]);
      hide Hashes;
    }
  }

  /** The known set is the baseline and the persisted hashes. */
  lemma {:induction false} KnownIsPersisted(baseline: set<string>, docs: seq<Doc>)
    ensures PersistAll(baseline, docs).0 == baseline + Hashes(PersistAll(baseline, docs).1)
  {
    if docs == [] {
    } else {
      var n := |docs| - 1;
      KnownIsPersisted(baseline, docs[..n]);
      HashesOfAppend(PersistAll(baseline, docs[..n]).1, docs[n]);
      hide Hashes;
    }
  }

  /** The rows are exactly the survivors. */
  lemma {:induction false} RowsAreSurvivors(baseline: set<string>, docs: seq<Doc>, n: nat)
    requires n <= |docs|
    ensures PersistAll(baseline, docs[..n]).1 == Survivors(baseline, docs, n)
  {
    if n == 0 {
    } else {
      assert docs[..n][..n - 1] == docs[..n - 1];
      RowsAreSurvivors(baseline, docs, n - 1);
      KnownIsSeen(baseline, docs[..n - 1]);
      var rows := Survivors(baseline, docs, n - 1);
      assert rows + [] == rows;
      if HasHash(docs[n - 1]) {
        SeenHash(docs, n - 1, docs[n - 1].extraction.value.hash);
      }
      hide Hashes;
    }
  }

  /** Persisting any documents in order equals the specification: the rows are the survivors, and the
      known set is the baseline and every persisted hash, which is every hash seen. */
  lemma {:induction false} PersistAllMeetsSpec(baseline: set<string>, docs: seq<Doc>)
    ensures var (known, rows) := PersistAll(baseline, docs);
            && rows == Survivors(baseline, docs, |docs|)
            && known == baseline + Hashes(rows) == baseline + Hashes(docs)
  {
    assert docs[..|docs|] == docs;
    RowsAreSurvivors(baseline, docs, |docs|);
    KnownIsSeen(baseline, docs);
    KnownIsPersisted(baseline, docs);
  }

  function HashlessOnly(docs: seq<Doc>): seq<Doc> {
    if docs == [] then []
    else HashlessOnly(docs[..|docs| - 1]) + (if Hashless(docs[|docs| - 1]) then [docs[|docs| - 1]] else [])
  }

  lemma {:induction false} KnownDocsPersistOnlyHashless(baseline: set<string>, docs: seq<Doc>)
    requires Hashes(docs) <= baseline
    ensures PersistAll(baseline, docs) == (baseline, HashlessOnly(docs))
  {
    if docs == [] {
    } else {
      var n := |docs| - 1;
      assert docs == docs[..n] + [docs[n]];
      HashesOfAppend(docs[..n], docs[n]);
      KnownDocsPersistOnlyHashless(baseline, docs[..n]);
      assert HashlessOnly(docs[..n]) + [] == HashlessOnly(docs[..n]);
    }
  }

  /** Re-running on the same documents with the first run's hashes (and its baseline) known persists
      exactly the documents that carry no hash, so nothing at all precisely when every extraction has one. */
  lemma RerunPersistsNothingNew(baseline: set<string>, docs: seq<Doc>)
    ensures var first := PersistAll(baseline, docs);
            var again := PersistAll(baseline + Hashes(first.1), docs);
            && again == (first.0, HashlessOnly(docs))
            && (again.1 == [] <==> forall d | d in docs :: !Hashless(d))
  {
    PersistAllMeetsSpec(baseline, docs);
    var first := PersistAll(baseline, docs);
    assert baseline + Hashes(first.1) == baseline + Hashes(docs);
    KnownDocsPersistOnlyHashless(baseline + Hashes(docs), docs);
    HashlessOnlyEmpty(docs);
  }

  /** Every extraction carries a content hash, so re-running the same documents persists nothing. */
  lemma RerunPersistsNothing(baseline: set<string>, docs: seq<Doc>)
    requires forall d | d in docs && d.extraction.Some? :: d.extraction.value.hash != ""
    ensures var first := PersistAll(baseline, docs);
            PersistAll(baseline + Hashes(first.1), docs) == (first.0, [])
  {
    RerunPersistsNothingNew(baseline, docs);
  }

  lemma {:induction false} HashlessOnlyEmpty(docs: seq<Doc>)
    ensures HashlessOnly(docs) == [] <==> forall d | d in docs :: !Hashless(d)
  {
    if docs == [] {
    } else {
      var n := |docs| - 1;
      assert docs == docs[..n] + [docs[n]];
      HashlessOnlyEmpty(docs[..n]);
      assert forall d | d in docs :: d in docs[..n] || d == docs[n];
    }
  }
}
