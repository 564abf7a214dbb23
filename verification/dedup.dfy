/**
 The two-tier duplicate filter of the news ingestion step: a store of recently
 seen articles, keyed by a hash of title and URL, each entry holding the time it
 was recorded and the article's embedding. Articles are first matched exactly
 by hash, then approximately by embedding similarity; the store forgets entries
 older than a time-to-live.

 MD5, the embedding provider and cosine similarity are parameters: `md5` maps
 text to its hex digest, `embed` returns `None` when the provider raises, and
 `sim` is the similarity of two embeddings.
 */
module Dedup {
  import opened Wrappers
  import opened PyDicts
  import opened Instants

  /** `SIM_THRESHOLD`: a similarity at or above it marks a duplicate. */
  const SimThreshold: real := 0.85

  /** `TTL_HOURS`: how long a record stays in the store. */
  const TtlHours: int := 48

  /** An embedding vector. */
  type Embedding = seq<real>

  /** One store entry: `{"timestamp": ..., "embedding": ...}`. */
  datatype Record = Record(timestamp: Instant, embedding: Embedding)

  /** The dedup store, from hash to record. */
  type Store = map<string, Record>

  /** The earliest timestamp `cleanup_store` keeps. */
  function Cutoff(now: Instant, ttlHours: int): int {
    now - ttlHours * MicrosPerHour
  }

  /** `cleanup_store(store, ttl_hours)`: the entries recorded no earlier than
      `ttl_hours` before `now`. */
  function Cleanup(store: Store, now: Instant, ttlHours: int): (r: Store)
    ensures forall k :: k in r <==> k in store && store[k].timestamp >= Cutoff(now, ttlHours)
    ensures forall k :: k in r ==> r[k] == store[k]
  {
    map k | k in store && store[k].timestamp >= Cutoff(now, ttlHours) :: store[k]
  }

  /** Cleaning twice with the same clock is cleaning once. */
  lemma CleanupIdempotent(store: Store, now: Instant, ttlHours: int)
    ensures Cleanup(Cleanup(store, now, ttlHours), now, ttlHours) == Cleanup(store, now, ttlHours)
  {
    var once := Cleanup(store, now, ttlHours);
    assert Cleanup(once, now, ttlHours).Keys == once.Keys;
  }

  /** The text that is embedded: `f"{title} {content}"`. */
  function EmbedText(item: Item): string {
    Get(item, "title", "") + " " + Get(item, "content", "")
  }

  /** `get_hash(title + url)`. */
  function ItemHash(item: Item, md5: string -> string): string {
    md5(Get(item, "title", "") + Get(item, "url", ""))
  }

  /** Some stored embedding is at least `SimThreshold` similar to `e`. */
  predicate HasSimilar(store: Store, e: Embedding, sim: (Embedding, Embedding) -> real) {
    exists k :: k in store && sim(e, store[k].embedding) >= SimThreshold
  }

  /** The pair `(is_duplicate, store)` that `is_duplicate` returns. */
  datatype Verdict = Verdict(dup: bool, store: Store)

  /** `is_duplicate(item, store)` with `now` the clock reading it records. */
  function IsDuplicate(item: Item, store: Store, now: Instant,
                       md5: string -> string, embed: string -> Option<Embedding>,
                       sim: (Embedding, Embedding) -> real): (r: Verdict)
    // A duplicate changes nothing; a new article's hash was not stored.
    ensures r.dup ==> r.store == store
    ensures !r.dup ==> ItemHash(item, md5) !in store
  {
    var h := ItemHash(item, md5);
    if h in store then Verdict(true, store)
    else
      match embed(EmbedText(item))
      case None => Verdict(false, store)
      case Some(e) =>
        if HasSimilar(store, e, sim) then Verdict(true, store)
        else Verdict(false, store[h := Record(now, e)])
  }

  /** The four outcomes of `is_duplicate`, in the order it checks them. */
  lemma IsDuplicateCases(item: Item, store: Store, now: Instant,
                         md5: string -> string, embed: string -> Option<Embedding>,
                         sim: (Embedding, Embedding) -> real)
    ensures var r, h, e := IsDuplicate(item, store, now, md5, embed, sim), ItemHash(item, md5),
                           embed(EmbedText(item));
      // A known hash is a duplicate and changes nothing.
      && (h in store ==> r == Verdict(true, store))
      // A failed embedding call is not a duplicate and records nothing.
      && (h !in store && e.None? ==> r == Verdict(false, store))
      // A similar stored embedding is a duplicate and changes nothing.
      && (h !in store && e.Some? && HasSimilar(store, e.value, sim) ==> r == Verdict(true, store))
      // Otherwise the article is recorded under its hash, and nothing else changes.
      && (h !in store && e.Some? && !HasSimilar(store, e.value, sim) ==>
            && !r.dup
            && r.store.Keys == store.Keys + {h}
            && r.store[h] == Record(now, e.value)
            && forall k :: k in store ==> r.store[k] == store[k])
  {
  }

  /** The store only grows, and an existing entry is never rewritten. */
  lemma IsDuplicateExtends(item: Item, store: Store, now: Instant,
                              md5: string -> string, embed: string -> Option<Embedding>,
                              sim: (Embedding, Embedding) -> real)
    ensures var r := IsDuplicate(item, store, now, md5, embed, sim);
      && store.Keys <= r.store.Keys
      && (forall k :: k in store ==> r.store[k] == store[k])
      && (r.store != store ==> !r.dup && r.store.Keys == store.Keys + {ItemHash(item, md5)})
      && (!r.dup ==> ItemHash(item, md5) !in store)
      && (!r.dup && embed(EmbedText(item)).Some? ==> ItemHash(item, md5) in r.store)
  {
  }

  /** An article that was recorded is an exact duplicate from then on,
      whatever the clock or the embedding provider does later. */
  lemma RecordedIsDuplicate(item: Item, store: Store, now: Instant, later: Instant,
                               md5: string -> string, embed: string -> Option<Embedding>,
                               embed2: string -> Option<Embedding>, sim: (Embedding, Embedding) -> real)
    requires IsDuplicate(item, store, now, md5, embed, sim).store != store
    ensures var s := IsDuplicate(item, store, now, md5, embed, sim).store;
      IsDuplicate(item, s, later, md5, embed2, sim) == Verdict(true, s)
  {
  }

  /** No two stored embeddings are at least `SimThreshold` similar. */
  ghost predicate Spread(store: Store, sim: (Embedding, Embedding) -> real) {
    forall k1, k2 :: k1 in store && k2 in store && k1 != k2 ==>
      sim(store[k1].embedding, store[k2].embedding) < SimThreshold
  }

  ghost predicate Symmetric(sim: (Embedding, Embedding) -> real) {
    forall a, b :: sim(a, b) == sim(b, a)
  }

  /** With a symmetric similarity, `is_duplicate` keeps the stored embeddings
      pairwise below the threshold. */
  lemma {:induction false} IsDuplicateKeepsSpread(item: Item, store: Store, now: Instant,
                                    md5: string -> string, embed: string -> Option<Embedding>,
                                    sim: (Embedding, Embedding) -> real)
    requires Symmetric(sim)
    requires Spread(store, sim)
    ensures Spread(IsDuplicate(item, store, now, md5, embed, sim).store, sim)
  {
    var r := IsDuplicate(item, store, now, md5, embed, sim);
    var h := ItemHash(item, md5);
    if r.store != store {
      var e := embed(EmbedText(item)).value;
      forall k1, k2 | k1 in r.store && k2 in r.store && k1 != k2
        ensures sim(r.store[k1].embedding, r.store[k2].embedding) < SimThreshold
      {
        if k1 == h {
          assert sim(e, store[k2].embedding) < SimThreshold;
        } else if k2 == h {
          assert sim(e, store[k1].embedding) < SimThreshold;
          assert sim(store[k1].embedding, e) == sim(e, store[k1].embedding);
        }
      }
    }
  }

  /** Forgetting old entries keeps the store spread. */
  lemma CleanupKeepsSpread(store: Store, now: Instant, ttlHours: int, sim: (Embedding, Embedding) -> real)
    requires Spread(store, sim)
    ensures Spread(Cleanup(store, now, ttlHours), sim)
  {
  }
}
