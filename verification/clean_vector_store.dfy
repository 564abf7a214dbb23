/**
 The age filter of `clean_old_documents`: a stored document survives when its
 `published_at` metadata parses with `datetime.fromisoformat` into an aware
 instant no earlier than `days_to_keep` days before now.

 `fromisoformat` is a parameter (`None` when it raises `ValueError`), and so
 is the current instant. Loading and rebuilding the FAISS index are left out;
 so is the failure of `FAISS.from_documents` on an empty list, which leaves
 the old index in place when no document is fresh.
 */
module CleanVectorStore {
  import opened Wrappers
  import opened PyDicts
  import opened Instants
  import opened StoreNews
  import opened Subsequences

  /** Line 14: `datetime.now(pytz.UTC) - timedelta(days=days_to_keep)`, or
      `None` for the `OverflowError` of leaving the `datetime` range. */
  function CutoffDate(now: Instant, daysToKeep: int): (r: Option<Instant>)
    ensures r.Some? <==> InRange(now - daysToKeep * MicrosPerDay)
    ensures r.Some? ==> r.value == now - daysToKeep * MicrosPerDay
  {
    var t := now - daysToKeep * MicrosPerDay;
    if InRange(t) then Some(t) else None
  }

  /** Lines 18-23: the document's date parses and is not before the cutoff.
      A naive date cannot be compared with the aware cutoff (`TypeError`),
      and that exception is swallowed like a parse failure; an aware date
      compares as the UTC instant it denotes. */
  predicate Retained(doc: Document, cutoff: Instant, fromIso: string -> Option<ParsedTime>) {
    match fromIso(Get(doc.metadata, "published_at", ""))
    case Some(Aware(wall, offset)) => wall - offset >= cutoff
    case _ => false
  }

  /** The loop of lines 18-25 over the stored documents, in store order. */
  function FreshDocs(docs: seq<Document>, cutoff: Instant,
                     fromIso: string -> Option<ParsedTime>): (r: seq<Document>)
    ensures forall d :: d in r <==> d in docs && Retained(d, cutoff, fromIso)
    ensures |r| <= |docs|
    decreases |docs|
  {
    if |docs| == 0 then []
    else
      var rest := FreshDocs(docs[1..], cutoff, fromIso);
      assert forall d :: d in docs <==> d == docs[0] || d in docs[1..];
      if Retained(docs[0], cutoff, fromIso) then [docs[0]] + rest else rest
  }

  /** Every copy of a fresh document survives, and no copy of a stale one:
      a store holding the same document twice keeps both. */
  lemma {:induction false} FreshDocsCounts(docs: seq<Document>, cutoff: Instant,
                                           fromIso: string -> Option<ParsedTime>)
    ensures forall d :: multiset(FreshDocs(docs, cutoff, fromIso))[d]
                        == if Retained(d, cutoff, fromIso) then multiset(docs)[d] else 0
    decreases |docs|
  {
    if |docs| > 0 {
      var rest := FreshDocs(docs[1..], cutoff, fromIso);
      FreshDocsCounts(docs[1..], cutoff, fromIso);
      assert docs == [docs[0]] + docs[1..];
      assert multiset(docs) == multiset{docs[0]} + multiset(docs[1..]);
      if Retained(docs[0], cutoff, fromIso) {
        assert multiset([docs[0]] + rest) == multiset{docs[0]} + multiset(rest);
      }
    }
  }

  /** `clean_old_documents` on the documents of the store: the documents the
      rebuilt store holds, or `None` when the cutoff overflows. */
  function CleanOldDocuments(docs: seq<Document>, now: Instant, daysToKeep: int,
                             fromIso: string -> Option<ParsedTime>): (r: Option<seq<Document>>)
    ensures r.Some? <==> InRange(now - daysToKeep * MicrosPerDay)
    ensures r.Some? ==> forall d :: d in r.value ==>
              d in docs && Retained(d, now - daysToKeep * MicrosPerDay, fromIso)
    // The rebuilt store is the age filter's output at the cutoff: every copy
    // of every fresh document, in store order.
    ensures r.Some? ==> r.value == FreshDocs(docs, now - daysToKeep * MicrosPerDay, fromIso)
  {
    match CutoffDate(now, daysToKeep)
    case None => None
    case Some(cutoff) => Some(FreshDocs(docs, cutoff, fromIso))
  }

  /** The survivors keep their order: they are a subsequence of the store. */
  lemma {:induction false} FreshDocsSubseq(docs: seq<Document>, cutoff: Instant,
                                           fromIso: string -> Option<ParsedTime>)
    ensures IsSubseq(FreshDocs(docs, cutoff, fromIso), docs)
    decreases |docs|
  {
    if |docs| > 0 {
      FreshDocsSubseq(docs[1..], cutoff, fromIso);
      var rest := FreshDocs(docs[1..], cutoff, fromIso);
      if Retained(docs[0], cutoff, fromIso) {
        assert ([docs[0]] + rest)[1..] == rest;
      }
    }
  }

  /** Sweeping twice with the same cutoff is sweeping once. */
  lemma {:induction false} FreshDocsIdempotent(docs: seq<Document>, cutoff: Instant,
                                               fromIso: string -> Option<ParsedTime>)
    ensures FreshDocs(FreshDocs(docs, cutoff, fromIso), cutoff, fromIso) == FreshDocs(docs, cutoff, fromIso)
    decreases |docs|
  {
    if |docs| > 0 {
      FreshDocsIdempotent(docs[1..], cutoff, fromIso);
      var rest := FreshDocs(docs[1..], cutoff, fromIso);
      if Retained(docs[0], cutoff, fromIso) {
        assert ([docs[0]] + rest)[1..] == rest;
      }
    }
  }

  /** A document with no `published_at` reads as "", which `fromisoformat`
      rejects, so it is dropped, whatever the comment beside line 19 says. */
  lemma UndatedDropped(doc: Document, cutoff: Instant, fromIso: string -> Option<ParsedTime>)
    requires "published_at" !in doc.metadata || doc.metadata["published_at"] == ""
    requires fromIso("") == None
    ensures !Retained(doc, cutoff, fromIso)
  {
  }

  /** A naive date is dropped however recent it is. */
  lemma NaiveDropped(doc: Document, cutoff: Instant, fromIso: string -> Option<ParsedTime>)
    requires fromIso(Get(doc.metadata, "published_at", "")).Some?
    requires fromIso(Get(doc.metadata, "published_at", "")).value.Naive?
    ensures !Retained(doc, cutoff, fromIso)
  {
  }
}
