/**
 `fetch_all_sources_news`: the sources are fetched in priority order, each
 article's date is normalised, and the duplicate filter decides which articles
 are new. One source's failure does not affect the others.

 The fetchers are parameters: `web` gives what each scraper returns, and
 `rssPerUrl` what `fetch_rss_entries` returns for each configured feed. One
 instant `now` stands for every clock reading of a run.
 */
module Ingestion {
  import opened Wrappers
  import opened PyDicts
  import opened Instants
  import opened NormalizeDates
  import opened Dedup
  import opened Subsequences

  datatype Source = FinancialExpress | EconomicTimesWeb | Rss | Groww | Pulse

  /** The order in which the sources are visited. */
  const Priority: seq<Source> := [FinancialExpress, EconomicTimesWeb, Rss, Groww, Pulse]

  /** What a fetcher does: raise, or return a list of articles. */
  datatype FetchResult = Raised | Returned(items: seq<Item>)

  /** `sum([fetch_rss_entries(u) for u in rss_urls], [])`: the feeds'
      articles one after another; the whole list raises if any feed does. */
  function RssFetch(perUrl: seq<FetchResult>): (r: FetchResult)
    ensures r.Raised? <==> exists i :: 0 <= i < |perUrl| && perUrl[i].Raised?
    decreases |perUrl|
  {
    if |perUrl| == 0 then Returned([])
    else
      var rest := RssFetch(perUrl[1..]);
      assert forall i :: 1 <= i < |perUrl| ==> perUrl[i] == perUrl[1..][i - 1];
      match perUrl[0]
      case Raised => Raised
      case Returned(xs) =>
        match rest
        case Raised => Raised
        case Returned(ys) => Returned(xs + ys)
  }

  /** Reading the feeds in two batches and joining the lists is reading
      them all at once. */
  lemma {:induction false} RssFetchAppend(a: seq<FetchResult>, b: seq<FetchResult>)
    requires RssFetch(a).Returned? && RssFetch(b).Returned?
    ensures RssFetch(a + b) == Returned(RssFetch(a).items + RssFetch(b).items)
    decreases |a|
  {
    if |a| == 0 {
      assert a + b == b;
    } else {
      assert (a + b)[1..] == a[1..] + b;
      RssFetchAppend(a[1..], b);
    }
  }

  /** What the source's fetcher gives. */
  function FetchOf(src: Source, web: Source -> FetchResult, rssPerUrl: seq<FetchResult>): FetchResult {
    if src == Rss then RssFetch(rssPerUrl) else web(src)
  }

  /** The fetch results in priority order. */
  function FetchAll(web: Source -> FetchResult, rssPerUrl: seq<FetchResult>): (r: seq<FetchResult>)
    ensures |r| == |Priority|
    ensures forall i :: 0 <= i < |r| ==> r[i] == FetchOf(Priority[i], web, rssPerUrl)
  {
    seq(|Priority|, i requires 0 <= i < |Priority| => FetchOf(Priority[i], web, rssPerUrl))
  }

  /** The date normaliser of a run: `normalize_date` at the run's instant. */
  function Normalizer(now: Instant, parse: string -> Option<ParsedTime>): string -> string {
    s => NormalizeDate(s, now, parse)
  }

  /** The date written back into an article: the normalised date, or the
      current instant in ISO form when normalisation gives "". */
  function StampedDate(item: Item, now: Instant, norm: string -> string): string {
    var n := norm(Get(item, "published_at", ""));
    if n != "" then n else IsoFormat(now)
  }

  /** The article after `item["published_at"] = normalized_date or now`. */
  function Stamp(item: Item, now: Instant, norm: string -> string): Item {
    item["published_at" := StampedDate(item, now, norm)]
  }

  /** The date a run stamps is never empty: it is the normalised date
      whenever normalisation succeeds, and the current instant otherwise. */
  lemma StampedDateCases(item: Item, now: Instant, parse: string -> Option<ParsedTime>)
    ensures var d, n := StampedDate(item, now, Normalizer(now, parse)),
                        NormalizeDate(Get(item, "published_at", ""), now, parse);
      && d != ""
      && (n != "" ==> d == n)
      && (n == "" ==> d == IsoFormat(now))
  {
    assert |IsoFormat(now)| >= 25;
  }

  /** Stamping sets the date field and keeps every other field as it was. */
  lemma StampFields(item: Item, now: Instant, norm: string -> string)
    ensures var r := Stamp(item, now, norm);
      && "published_at" in r && r["published_at"] == StampedDate(item, now, norm)
      && (forall k :: k != "published_at" ==> (k in r <==> k in item))
      && (forall k :: k in item && k != "published_at" ==> r[k] == item[k])
  {
  }

  function StampAll(items: seq<Item>, now: Instant, norm: string -> string): (r: seq<Item>)
    ensures |r| == |items|
    ensures forall i :: 0 <= i < |items| ==> r[i] == Stamp(items[i], now, norm)
  {
    seq(|items|, i requires 0 <= i < |items| => Stamp(items[i], now, norm))
  }

  /** The new articles found so far and the dedup store. */
  datatype Run = Run(out: seq<Item>, store: Store)

  /** The embedding call for `item` fails. */
  predicate EmbedFails(item: Item, embed: string -> Option<Embedding>) {
    embed(EmbedText(item)).None?
  }

  /** Two new articles share a hash only when the embedding call failed for
      the earlier one, which therefore was never recorded. */
  ghost predicate HashesApart(out: seq<Item>, md5: string -> string, embed: string -> Option<Embedding>) {
    forall i, j :: 0 <= i < j < |out| && ItemHash(out[i], md5) == ItemHash(out[j], md5) ==>
      EmbedFails(out[i], embed)
  }

  /** What the loops promise about the articles they let through, starting
      from store `before` and ending with store `after`: each has a title, was
      not in `before`, and is in `after` unless its embedding failed. */
  ghost predicate Survivors(out: seq<Item>, before: Store, after: Store,
                            md5: string -> string, embed: string -> Option<Embedding>) {
    && (forall i :: 0 <= i < |out| ==> "title" in out[i])
    && (forall i :: 0 <= i < |out| ==> ItemHash(out[i], md5) !in before)
    && (forall i :: 0 <= i < |out| && !EmbedFails(out[i], embed) ==> ItemHash(out[i], md5) in after)
    && HashesApart(out, md5, embed)
  }

  /** `after` extends `before` without rewriting any entry. */
  ghost predicate Extends(before: Store, after: Store) {
    before.Keys <= after.Keys && forall k :: k in before ==> after[k] == before[k]
  }

  /** The verdicts of the duplicate filter on a source's stamped articles,
      in order, each against the store the articles before it left; computed
      to the end of the list, as if no article ended the loop. */
  function Verdicts(items: seq<Item>, store: Store, now: Instant,
                    md5: string -> string, embed: string -> Option<Embedding>,
                    sim: (Embedding, Embedding) -> real,
                    norm: string -> string): (vs: seq<Verdict>)
    ensures |vs| == |items|
    decreases |items|
  {
    if |items| == 0 then []
    else
      var v := IsDuplicate(Stamp(items[0], now, norm), store, now, md5, embed, sim);
      [v] + Verdicts(items[1..], v.store, now, md5, embed, sim, norm)
  }

  /** Every article of the source is titled and none is a duplicate. */
  predicate ItemsAllNew(items: seq<Item>, store: Store, now: Instant,
                        md5: string -> string, embed: string -> Option<Embedding>,
                        sim: (Embedding, Embedding) -> real,
                        norm: string -> string)
  {
    AllTitledNew(items, Verdicts(items, store, now, md5, embed, sim, norm))
  }

  /** The per-article loop over one source's list. A new article without a
      `title` raises `KeyError` when it is logged, which ends the source's
      loop; the store already holds that article. */
  function ProcessItems(items: seq<Item>, store: Store, now: Instant,
                        md5: string -> string, embed: string -> Option<Embedding>,
                        sim: (Embedding, Embedding) -> real,
                        norm: string -> string): (r: Run)
    ensures Extends(store, r.store)
    ensures Survivors(r.out, store, r.store, md5, embed)
    decreases |items|
  {
    if |items| == 0 then Run([], store)
    else
      var it := Stamp(items[0], now, norm);
      var v := IsDuplicate(it, store, now, md5, embed, sim);
      IsDuplicateExtends(it, store, now, md5, embed, sim);
      if v.dup then ProcessItems(items[1..], v.store, now, md5, embed, sim, norm)
      else if "title" !in it then Run([], v.store)
      else
        var rest := ProcessItems(items[1..], v.store, now, md5, embed, sim, norm);
        SurvivorsCons(it, rest.out, store, v.store, rest.store, md5, embed);
        Run([it] + rest.out, rest.store)
  }

  /** The articles among the first `n` of `xs` whose verdict in `vs` is
      "new", in order: the list the loop appends to. */
  function NewBefore(xs: seq<Item>, vs: seq<Verdict>, n: nat): (r: seq<Item>)
    requires n <= |xs| && |xs| == |vs|
    ensures |r| <= n
  {
    if n == 0 then []
    else NewBefore(xs, vs, n - 1) + (if vs[n - 1].dup then [] else [xs[n - 1]])
  }

  /** Dropping the first article and its verdict. */
  lemma {:induction false} NewBeforeTail(xs: seq<Item>, vs: seq<Verdict>, n: nat)
    requires 1 <= n <= |xs| && |xs| == |vs|
    ensures NewBefore(xs, vs, n)
            == (if vs[0].dup then [] else [xs[0]]) + NewBefore(xs[1..], vs[1..], n - 1)
    decreases n
  {
    var head: seq<Item> := if vs[0].dup then [] else [xs[0]];
    if n == 1 {
      assert NewBefore(xs, vs, 1) == [] + head;
      assert head + [] == head;
    } else {
      NewBeforeTail(xs, vs, n - 1);
      var last: seq<Item> := if vs[n - 1].dup then [] else [xs[n - 1]];
      assert xs[1..][n - 2] == xs[n - 1] && vs[1..][n - 2] == vs[n - 1];
      assert NewBefore(xs[1..], vs[1..], n - 1) == NewBefore(xs[1..], vs[1..], n - 2) + last;
      assert (head + NewBefore(xs[1..], vs[1..], n - 2)) + last
             == head + (NewBefore(xs[1..], vs[1..], n - 2) + last);
    }
  }

  /** With no verdict "duplicate", every article is kept. */
  lemma {:induction false} NewBeforeAll(xs: seq<Item>, vs: seq<Verdict>, n: nat)
    requires n <= |xs| && |xs| == |vs|
    requires forall j :: 0 <= j < n ==> !vs[j].dup
    ensures NewBefore(xs, vs, n) == xs[..n]
    decreases n
  {
    if n > 0 {
      NewBeforeAll(xs, vs, n - 1);
      assert xs[..n] == xs[..n - 1] + [xs[n - 1]];
    }
  }

  /** The store after the first `n` verdicts. */
  function StoreAfter(store: Store, vs: seq<Verdict>, n: nat): Store
    requires n <= |vs|
  {
    if n == 0 then store else vs[n - 1].store
  }

  /** One step of the per-article loop, in terms of the first verdict. */
  lemma ProcessItemsStep(items: seq<Item>, store: Store, now: Instant,
                         md5: string -> string, embed: string -> Option<Embedding>,
                         sim: (Embedding, Embedding) -> real,
                         norm: string -> string)
    requires |items| > 0
    ensures var vs := Verdicts(items, store, now, md5, embed, sim, norm);
            var rest := ProcessItems(items[1..], vs[0].store, now, md5, embed, sim, norm);
            var all := StampAll(items, now, norm);
      && vs[1..] == Verdicts(items[1..], vs[0].store, now, md5, embed, sim, norm)
      && all[1..] == StampAll(items[1..], now, norm)
      && ProcessItems(items, store, now, md5, embed, sim, norm)
         == if vs[0].dup then rest
            else if "title" !in items[0] then Run([], vs[0].store)
            else Run([all[0]] + rest.out, rest.store)
  {
    StampFields(items[0], now, norm);
  }

  /** The store after the first `n` verdicts, read from the second one on. */
  lemma StoreAfterTail(store: Store, vs: seq<Verdict>, n: nat)
    requires 1 <= n <= |vs|
    ensures StoreAfter(store, vs, n) == StoreAfter(vs[0].store, vs[1..], n - 1)
  {
    if n > 1 {
      assert vs[1..][n - 2] == vs[n - 1];
    }
  }

  /** The conditions on where the loop stops, read from the second article on. */
  lemma CutTail(items: seq<Item>, vs: seq<Verdict>, stop: nat)
    requires 1 <= stop <= |items| && |vs| == |items|
    requires forall j :: 0 <= j < stop ==> vs[j].dup || "title" in items[j]
    requires stop < |items| ==> !vs[stop].dup && "title" !in items[stop]
    ensures forall j :: 0 <= j < stop - 1 ==> vs[1..][j].dup || "title" in items[1..][j]
    ensures stop - 1 < |items| - 1 ==> !vs[1..][stop - 1].dup && "title" !in items[1..][stop - 1]
  {
    forall j | 0 <= j < stop - 1
      ensures vs[1..][j].dup || "title" in items[1..][j]
    {
      assert vs[1..][j] == vs[j + 1] && items[1..][j] == items[j + 1];
    }
  }

  /** The inductive step of `ProcessItemsExact`, stated about the two runs
      alone: `whole` is one step of the loop before `rest`, and `rest` is
      exact for the list after the first article. */
  lemma ExactStep(items: seq<Item>, all: seq<Item>, vs: seq<Verdict>, store: Store, stop: nat,
                  whole: Run, rest: Run)
    requires |all| == |items| && |vs| == |items| && 1 <= stop <= |items|
    requires forall j :: 0 <= j < stop ==> vs[j].dup || "title" in items[j]
    requires whole == if vs[0].dup then rest
                      else if "title" !in items[0] then Run([], vs[0].store)
                      else Run([all[0]] + rest.out, rest.store)
    requires rest.out == NewBefore(all[1..], vs[1..], stop - 1)
    requires rest.store == StoreAfter(vs[0].store, vs[1..],
                                      if stop - 1 < |items| - 1 then stop - 1 + 1 else stop - 1)
    ensures whole.out == NewBefore(all, vs, stop)
    ensures whole.store == StoreAfter(store, vs, if stop < |items| then stop + 1 else stop)
  {
    NewBeforeTail(all, vs, stop);
    if vs[0].dup {
      assert NewBefore(all, vs, stop) == [] + rest.out;
      assert [] + rest.out == rest.out;
    } else {
      assert "title" in items[0];
    }
    StoreAfterTail(store, vs, if stop < |items| then stop + 1 else stop);
  }

  /** What one source's loop returns: exactly the stamped articles the
      filter judges new, each against the store built so far, up to the
      first new article without a title (`stop`), whose logging raises; and
      the store after that article, or after the whole list. */
  lemma {:induction false} ProcessItemsExact(items: seq<Item>, store: Store, now: Instant,
                                             md5: string -> string, embed: string -> Option<Embedding>,
                                             sim: (Embedding, Embedding) -> real,
                                             norm: string -> string, stop: nat)
    requires stop <= |items|
    requires forall j :: 0 <= j < stop ==>
               Verdicts(items, store, now, md5, embed, sim, norm)[j].dup || "title" in items[j]
    requires stop < |items| ==>
               !Verdicts(items, store, now, md5, embed, sim, norm)[stop].dup && "title" !in items[stop]
    ensures ProcessItems(items, store, now, md5, embed, sim, norm).out
            == NewBefore(StampAll(items, now, norm), Verdicts(items, store, now, md5, embed, sim, norm), stop)
    ensures ProcessItems(items, store, now, md5, embed, sim, norm).store
            == StoreAfter(store, Verdicts(items, store, now, md5, embed, sim, norm),
                          if stop < |items| then stop + 1 else stop)
    decreases |items|
  {
    var vs := Verdicts(items, store, now, md5, embed, sim, norm);
    var all := StampAll(items, now, norm);
    if |items| > 0 {
      ProcessItemsStep(items, store, now, md5, embed, sim, norm);
      if stop > 0 {
        CutTail(items, vs, stop);
        ProcessItemsExact(items[1..], vs[0].store, now, md5, embed, sim, norm, stop - 1);
        ExactStep(items, all, vs, store, stop, ProcessItems(items, store, now, md5, embed, sim, norm),
                  ProcessItems(items[1..], vs[0].store, now, md5, embed, sim, norm));
      }
    }
  }

  /** Where one source's loop stops: at the first article judged new that
      has no title, or at the end of the list. */
  function FirstStop(items: seq<Item>, vs: seq<Verdict>): (k: nat)
    requires |vs| == |items|
    ensures k <= |items|
    ensures forall j :: 0 <= j < k ==> vs[j].dup || "title" in items[j]
    ensures k < |items| ==> !vs[k].dup && "title" !in items[k]
    decreases |items|
  {
    if |items| == 0 then 0
    else if !vs[0].dup && "title" !in items[0] then 0
    else
      var k := FirstStop(items[1..], vs[1..]);
      assert forall j :: 1 <= j <= k ==> items[1..][j - 1] == items[j] && vs[1..][j - 1] == vs[j];
      1 + k
  }

  /** The articles one source contributes, read off its verdicts alone. */
  function NewFromItems(items: seq<Item>, store: Store, now: Instant,
                        md5: string -> string, embed: string -> Option<Embedding>,
                        sim: (Embedding, Embedding) -> real,
                        norm: string -> string): seq<Item>
  {
    var vs := Verdicts(items, store, now, md5, embed, sim, norm);
    NewBefore(StampAll(items, now, norm), vs, FirstStop(items, vs))
  }

  /** The store one source leaves, read off its verdicts alone. */
  function StoreFromItems(items: seq<Item>, store: Store, now: Instant,
                          md5: string -> string, embed: string -> Option<Embedding>,
                          sim: (Embedding, Embedding) -> real,
                          norm: string -> string): Store
  {
    var vs := Verdicts(items, store, now, md5, embed, sim, norm);
    var k := FirstStop(items, vs);
    StoreAfter(store, vs, if k < |items| then k + 1 else k)
  }

  /** One source's loop is exactly what its verdicts say. */
  lemma ProcessItemsIs(items: seq<Item>, store: Store, now: Instant,
                       md5: string -> string, embed: string -> Option<Embedding>,
                       sim: (Embedding, Embedding) -> real,
                       norm: string -> string)
    ensures ProcessItems(items, store, now, md5, embed, sim, norm)
            == Run(NewFromItems(items, store, now, md5, embed, sim, norm),
                   StoreFromItems(items, store, now, md5, embed, sim, norm))
  {
    var vs := Verdicts(items, store, now, md5, embed, sim, norm);
    var k := FirstStop(items, vs);
    ProcessItemsExact(items, store, now, md5, embed, sim, norm, k);
    var n := if k < |items| then k + 1 else k;
    assert NewFromItems(items, store, now, md5, embed, sim, norm)
           == NewBefore(StampAll(items, now, norm), vs, k);
    assert StoreFromItems(items, store, now, md5, embed, sim, norm) == StoreAfter(store, vs, n);
  }

  /** When every article is titled and new, the loop collects every one. */
  lemma ProcessItemsAllNew(items: seq<Item>, store: Store, now: Instant,
                           md5: string -> string, embed: string -> Option<Embedding>,
                           sim: (Embedding, Embedding) -> real,
                           norm: string -> string)
    requires ItemsAllNew(items, store, now, md5, embed, sim, norm)
    ensures ProcessItems(items, store, now, md5, embed, sim, norm).out == StampAll(items, now, norm)
  {
    var vs := Verdicts(items, store, now, md5, embed, sim, norm);
    var all := StampAll(items, now, norm);
    ProcessItemsExact(items, store, now, md5, embed, sim, norm, |items|);
    NewBeforeAll(all, vs, |items|);
    assert all[..|items|] == all;
  }

  /** Each of `items` is titled and its verdict in `vs` is "new". */
  predicate AllTitledNew(items: seq<Item>, vs: seq<Verdict>)
    requires |vs| == |items|
  {
    forall j :: 0 <= j < |items| ==> !vs[j].dup && "title" in items[j]
  }

  lemma AllTitledNewCons(items: seq<Item>, vs: seq<Verdict>)
    requires 0 < |vs| == |items|
    ensures AllTitledNew(items, vs) <==>
              !vs[0].dup && "title" in items[0] && AllTitledNew(items[1..], vs[1..])
  {
    if !vs[0].dup && "title" in items[0] && AllTitledNew(items[1..], vs[1..]) {
      forall j | 0 < j < |items|
        ensures !vs[j].dup && "title" in items[j]
      {
        assert vs[j] == vs[1..][j - 1] && items[j] == items[1..][j - 1];
      }
    }
  }

  /** The loop over the sources; a source that raises contributes nothing
      and leaves the store as it was. */
  function ProcessSources(fetched: seq<FetchResult>, store: Store, now: Instant,
                          md5: string -> string, embed: string -> Option<Embedding>,
                          sim: (Embedding, Embedding) -> real,
                          norm: string -> string): (r: Run)
    ensures Extends(store, r.store)
    ensures Survivors(r.out, store, r.store, md5, embed)
    decreases |fetched|
  {
    if |fetched| == 0 then Run([], store)
    else
      var first := match fetched[0]
        case Raised => Run([], store)
        case Returned(items) => ProcessItems(items, store, now, md5, embed, sim, norm);
      var rest := ProcessSources(fetched[1..], first.store, now, md5, embed, sim, norm);
      SurvivorsAppend(first.out, rest.out, store, first.store, rest.store, md5, embed);
      Run(first.out + rest.out, rest.store)
  }

  /** Every source that returned has only titled, new articles, each source
      judged against the store the sources before it left. */
  predicate SourcesAllNew(fetched: seq<FetchResult>, store: Store, now: Instant,
                          md5: string -> string, embed: string -> Option<Embedding>,
                          sim: (Embedding, Embedding) -> real,
                          norm: string -> string)
    decreases |fetched|
  {
    |fetched| == 0 ||
    match fetched[0]
    case Raised => SourcesAllNew(fetched[1..], store, now, md5, embed, sim, norm)
    case Returned(items) =>
      && ItemsAllNew(items, store, now, md5, embed, sim, norm)
      && SourcesAllNew(fetched[1..], ProcessItems(items, store, now, md5, embed, sim, norm).store,
                       now, md5, embed, sim, norm)
  }

  /** When every article of every source that returned is titled and new,
      the loop over the sources collects all of them, source after source. */
  lemma {:induction false} ProcessSourcesAllNew(fetched: seq<FetchResult>, store: Store, now: Instant,
                                                md5: string -> string, embed: string -> Option<Embedding>,
                                                sim: (Embedding, Embedding) -> real,
                                                norm: string -> string)
    requires SourcesAllNew(fetched, store, now, md5, embed, sim, norm)
    ensures ProcessSources(fetched, store, now, md5, embed, sim, norm).out
            == StampAll(ReturnedItems(fetched), now, norm)
    decreases |fetched|
  {
    if |fetched| > 0 {
      var first := match fetched[0]
        case Raised => Run([], store)
        case Returned(items) => ProcessItems(items, store, now, md5, embed, sim, norm);
      var rest := ProcessSources(fetched[1..], first.store, now, md5, embed, sim, norm);
      ProcessSourcesAllNew(fetched[1..], first.store, now, md5, embed, sim, norm);
      match fetched[0]
      case Raised =>
        assert first.out + rest.out == rest.out;
      case Returned(items) =>
        ProcessItemsAllNew(items, store, now, md5, embed, sim, norm);
        StampAllAppend(items, ReturnedItems(fetched[1..]), now, norm);
    }
  }

  /** The articles of all sources, read off the verdicts alone: each source
      that returned contributes its new articles up to where its loop stops,
      judged against the store the sources before it left. */
  function NewFromSources(fetched: seq<FetchResult>, store: Store, now: Instant,
                          md5: string -> string, embed: string -> Option<Embedding>,
                          sim: (Embedding, Embedding) -> real,
                          norm: string -> string): seq<Item>
    decreases |fetched|
  {
    if |fetched| == 0 then []
    else
      match fetched[0]
      case Raised => NewFromSources(fetched[1..], store, now, md5, embed, sim, norm)
      case Returned(items) =>
        NewFromItems(items, store, now, md5, embed, sim, norm)
        + NewFromSources(fetched[1..], StoreFromItems(items, store, now, md5, embed, sim, norm),
                         now, md5, embed, sim, norm)
  }

  /** The store the sources leave, read off the verdicts alone: a source
      that raises leaves it as it was, and one that returned leaves the store
      after its stopping article. */
  function StoreFromSources(fetched: seq<FetchResult>, store: Store, now: Instant,
                            md5: string -> string, embed: string -> Option<Embedding>,
                            sim: (Embedding, Embedding) -> real,
                            norm: string -> string): Store
    decreases |fetched|
  {
    if |fetched| == 0 then store
    else
      match fetched[0]
      case Raised => StoreFromSources(fetched[1..], store, now, md5, embed, sim, norm)
      case Returned(items) =>
        StoreFromSources(fetched[1..], StoreFromItems(items, store, now, md5, embed, sim, norm),
                         now, md5, embed, sim, norm)
  }

  /** The loop over the sources returns exactly those articles and leaves
      exactly that store. */
  lemma {:induction false} ProcessSourcesIs(fetched: seq<FetchResult>, store: Store, now: Instant,
                                            md5: string -> string, embed: string -> Option<Embedding>,
                                            sim: (Embedding, Embedding) -> real,
                                            norm: string -> string)
    ensures ProcessSources(fetched, store, now, md5, embed, sim, norm).out
            == NewFromSources(fetched, store, now, md5, embed, sim, norm)
    ensures ProcessSources(fetched, store, now, md5, embed, sim, norm).store
            == StoreFromSources(fetched, store, now, md5, embed, sim, norm)
    decreases |fetched|
  {
    if |fetched| > 0 {
      match fetched[0]
      case Raised =>
        ProcessSourcesIs(fetched[1..], store, now, md5, embed, sim, norm);
        assert [] + ProcessSources(fetched[1..], store, now, md5, embed, sim, norm).out
               == ProcessSources(fetched[1..], store, now, md5, embed, sim, norm).out;
      case Returned(items) =>
        ProcessItemsIs(items, store, now, md5, embed, sim, norm);
        ProcessSourcesIs(fetched[1..], StoreFromItems(items, store, now, md5, embed, sim, norm),
                         now, md5, embed, sim, norm);
    }
  }

  /** The hashes of a list of articles. */
  function HashesOf(items: seq<Item>, md5: string -> string): (hs: set<string>)
    ensures forall j :: 0 <= j < |items| ==> ItemHash(items[j], md5) in hs
    decreases |items|
  {
    if |items| == 0 then {}
    else {ItemHash(items[0], md5)} + HashesOf(items[1..], md5)
  }

  lemma {:induction false} HashesOfAppend(a: seq<Item>, b: seq<Item>, md5: string -> string)
    ensures HashesOf(a + b, md5) == HashesOf(a, md5) + HashesOf(b, md5)
    decreases |a|
  {
    if |a| == 0 {
      assert a + b == b;
    } else {
      assert (a + b)[0] == a[0] && (a + b)[1..] == a[1..] + b;
      HashesOfAppend(a[1..], b, md5);
    }
  }

  /** One source's loop adds to the store only hashes of that source's
      articles. */
  lemma {:induction false} ProcessItemsKeys(items: seq<Item>, store: Store, now: Instant,
                                            md5: string -> string, embed: string -> Option<Embedding>,
                                            sim: (Embedding, Embedding) -> real,
                                            norm: string -> string)
    ensures ProcessItems(items, store, now, md5, embed, sim, norm).store.Keys
            <= store.Keys + HashesOf(items, md5)
    decreases |items|
  {
    if |items| > 0 {
      var it := Stamp(items[0], now, norm);
      var v := IsDuplicate(it, store, now, md5, embed, sim);
      IsDuplicateExtends(it, store, now, md5, embed, sim);
      StampFields(items[0], now, norm);
      assert ItemHash(it, md5) == ItemHash(items[0], md5);
      assert v.store.Keys <= store.Keys + {ItemHash(items[0], md5)};
      ProcessItemsStep(items, store, now, md5, embed, sim, norm);
      ProcessItemsKeys(items[1..], v.store, now, md5, embed, sim, norm);
    }
  }

  /** The loop over the sources adds to the store only hashes of articles
      that sources returned: a raising source adds nothing. */
  lemma {:induction false} ProcessSourcesKeys(fetched: seq<FetchResult>, store: Store, now: Instant,
                                              md5: string -> string, embed: string -> Option<Embedding>,
                                              sim: (Embedding, Embedding) -> real,
                                              norm: string -> string)
    ensures ProcessSources(fetched, store, now, md5, embed, sim, norm).store.Keys
            <= store.Keys + HashesOf(ReturnedItems(fetched), md5)
    decreases |fetched|
  {
    if |fetched| > 0 {
      match fetched[0]
      case Raised =>
        ProcessSourcesKeys(fetched[1..], store, now, md5, embed, sim, norm);
      case Returned(items) =>
        var first := ProcessItems(items, store, now, md5, embed, sim, norm);
        ProcessItemsKeys(items, store, now, md5, embed, sim, norm);
        ProcessSourcesKeys(fetched[1..], first.store, now, md5, embed, sim, norm);
        HashesOfAppend(items, ReturnedItems(fetched[1..]), md5);
    }
  }

  lemma SurvivorsCons(it: Item, rest: seq<Item>, before: Store, mid: Store, after: Store,
                      md5: string -> string, embed: string -> Option<Embedding>)
    requires "title" in it && ItemHash(it, md5) !in before
    requires !EmbedFails(it, embed) ==> ItemHash(it, md5) in mid
    requires Extends(before, mid) && Extends(mid, after)
    requires Survivors(rest, mid, after, md5, embed)
    ensures Survivors([it] + rest, before, after, md5, embed)
  {
    var out := [it] + rest;
    forall i, j | 0 <= i < j < |out| && ItemHash(out[i], md5) == ItemHash(out[j], md5)
      ensures EmbedFails(out[i], embed)
    {
      assert out[j] == rest[j - 1];
      if i > 0 {
        assert out[i] == rest[i - 1];
      }
    }
  }

  /** The survivors of two consecutive stretches of the loop. */
  lemma SurvivorsAppend(a: seq<Item>, b: seq<Item>, before: Store, mid: Store, after: Store,
                        md5: string -> string, embed: string -> Option<Embedding>)
    requires Extends(before, mid) && Extends(mid, after)
    requires Survivors(a, before, mid, md5, embed)
    requires Survivors(b, mid, after, md5, embed)
    ensures Survivors(a + b, before, after, md5, embed)
  {
    var out := a + b;
    forall i | 0 <= i < |out|
      ensures "title" in out[i] && ItemHash(out[i], md5) !in before
      ensures !EmbedFails(out[i], embed) ==> ItemHash(out[i], md5) in after
    {
      if i >= |a| {
        assert out[i] == b[i - |a|];
      }
    }
    forall i, j | 0 <= i < j < |out| && ItemHash(out[i], md5) == ItemHash(out[j], md5)
      ensures EmbedFails(out[i], embed)
    {
      if j < |a| {
        assert out[i] == a[i] && out[j] == a[j];
      } else if i >= |a| {
        assert out[i] == b[i - |a|] && out[j] == b[j - |a|];
      } else {
        assert out[j] == b[j - |a|];
      }
    }
  }

  /** `fetch_all_sources_news(rss_urls)` on the store `loaded` from disk: the
      store is cleaned, every source is processed in priority order, and the
      new articles and the store to save are returned. */
  function FetchAllSourcesNews(web: Source -> FetchResult, rssPerUrl: seq<FetchResult>,
                               loaded: Store, now: Instant,
                               md5: string -> string, embed: string -> Option<Embedding>,
                               sim: (Embedding, Embedding) -> real,
                               parse: string -> Option<ParsedTime>): (r: Run)
    // Every new article has a title; its hash was not in the cleaned store and
    // is recorded unless its embedding failed; a repeated hash means the
    // earlier article's embedding failed.
    ensures forall i :: 0 <= i < |r.out| ==> "title" in r.out[i]
    ensures forall i :: 0 <= i < |r.out| ==> ItemHash(r.out[i], md5) !in Cleanup(loaded, now, TtlHours)
    ensures forall i :: 0 <= i < |r.out| && !EmbedFails(r.out[i], embed) ==>
              ItemHash(r.out[i], md5) in r.store
    ensures HashesApart(r.out, md5, embed)
    // The fresh part of the loaded store survives unchanged.
    ensures forall k :: k in loaded && loaded[k].timestamp >= Cutoff(now, TtlHours) ==>
              k in r.store && r.store[k] == loaded[k]
    // Exactly the articles the verdicts select are returned, in order.
    ensures r.out == NewFromSources(FetchAll(web, rssPerUrl), Cleanup(loaded, now, TtlHours), now,
                                    md5, embed, sim, Normalizer(now, parse))
    // The saved store is the pruned store with exactly the verdicts' additions:
    // every key is a fresh loaded one or the hash of a fetched article.
    ensures r.store.Keys <= Cleanup(loaded, now, TtlHours).Keys
                            + HashesOf(ReturnedItems(FetchAll(web, rssPerUrl)), md5)
    ensures r.store == StoreFromSources(FetchAll(web, rssPerUrl), Cleanup(loaded, now, TtlHours), now,
                                        md5, embed, sim, Normalizer(now, parse))
    // When every fetched article is titled and new, all are returned in order.
    ensures SourcesAllNew(FetchAll(web, rssPerUrl), Cleanup(loaded, now, TtlHours), now,
                          md5, embed, sim, Normalizer(now, parse)) ==>
              r.out == StampAll(ReturnedItems(FetchAll(web, rssPerUrl)), now, Normalizer(now, parse))
  {
    var fetched := FetchAll(web, rssPerUrl);
    var start := Cleanup(loaded, now, TtlHours);
    var norm := Normalizer(now, parse);
    ProcessSourcesIs(fetched, start, now, md5, embed, sim, norm);
    ProcessSourcesKeys(fetched, start, now, md5, embed, sim, norm);
    if SourcesAllNew(fetched, start, now, md5, embed, sim, norm) then
      ProcessSourcesAllNew(fetched, start, now, md5, embed, sim, norm);
      ProcessSources(fetched, start, now, md5, embed, sim, norm)
    else
      ProcessSources(fetched, start, now, md5, embed, sim, norm)
  }

  /** The new articles of one source are its date-stamped articles with the
      duplicates, and everything after an aborting article, left out. */
  lemma {:induction false} ProcessItemsSubseq(items: seq<Item>, store: Store, now: Instant,
                        md5: string -> string, embed: string -> Option<Embedding>,
                        sim: (Embedding, Embedding) -> real,
                        norm: string -> string)
    ensures IsSubseq(ProcessItems(items, store, now, md5, embed, sim, norm).out, StampAll(items, now, norm))
    decreases |items|
  {
    if |items| > 0 {
      var all := StampAll(items, now, norm);
      var it := Stamp(items[0], now, norm);
      var v := IsDuplicate(it, store, now, md5, embed, sim);
      assert all[1..] == StampAll(items[1..], now, norm);
      ProcessItemsSubseq(items[1..], v.store, now, md5, embed, sim, norm);
      var rest := ProcessItems(items[1..], v.store, now, md5, embed, sim, norm);
      if !v.dup && "title" in it {
        assert ([it] + rest.out)[1..] == rest.out;
      }
    }
  }

  /** The articles the fetchers returned, source after source. */
  function ReturnedItems(fetched: seq<FetchResult>): (r: seq<Item>)
    ensures |fetched| > 0 && fetched[0].Raised? ==> r == ReturnedItems(fetched[1..])
    decreases |fetched|
  {
    if |fetched| == 0 then []
    else
      match fetched[0]
      case Raised => ReturnedItems(fetched[1..])
      case Returned(items) => items + ReturnedItems(fetched[1..])
  }

  /** Date stamping is element-wise, so it distributes over joining. */
  lemma StampAllAppend(a: seq<Item>, b: seq<Item>, now: Instant, norm: string -> string)
    ensures StampAll(a + b, now, norm) == StampAll(a, now, norm) + StampAll(b, now, norm)
  {
  }

  /** The new articles of a run keep source-then-article order: they are a
      subsequence of all the date-stamped articles the sources returned. */
  lemma {:induction false} ProcessSourcesSubseq(fetched: seq<FetchResult>, store: Store, now: Instant,
                          md5: string -> string, embed: string -> Option<Embedding>,
                          sim: (Embedding, Embedding) -> real,
                          norm: string -> string)
    ensures IsSubseq(ProcessSources(fetched, store, now, md5, embed, sim, norm).out,
                     StampAll(ReturnedItems(fetched), now, norm))
    decreases |fetched|
  {
    if |fetched| > 0 {
      var first := match fetched[0]
        case Raised => Run([], store)
        case Returned(items) => ProcessItems(items, store, now, md5, embed, sim, norm);
      ProcessSourcesSubseq(fetched[1..], first.store, now, md5, embed, sim, norm);
      var rest := ProcessSources(fetched[1..], first.store, now, md5, embed, sim, norm);
      var tail := StampAll(ReturnedItems(fetched[1..]), now, norm);
      match fetched[0]
      case Raised =>
        assert first.out + rest.out == rest.out;
      case Returned(items) =>
        ProcessItemsSubseq(items, store, now, md5, embed, sim, norm);
        SubseqAppend(first.out, StampAll(items, now, norm), rest.out, tail);
        StampAllAppend(items, ReturnedItems(fetched[1..]), now, norm);
    }
  }

  /** A source that raises is as if it were not there: it adds no articles
      and leaves the store for the next source unchanged. */
  lemma RaisingSourceSkipped(fetched: seq<FetchResult>, store: Store, now: Instant,
                             md5: string -> string, embed: string -> Option<Embedding>,
                             sim: (Embedding, Embedding) -> real,
                             norm: string -> string)
    requires |fetched| > 0 && fetched[0].Raised?
    ensures ProcessSources(fetched, store, now, md5, embed, sim, norm)
            == ProcessSources(fetched[1..], store, now, md5, embed, sim, norm)
  {
    assert [] + ProcessSources(fetched[1..], store, now, md5, embed, sim, norm).out
           == ProcessSources(fetched[1..], store, now, md5, embed, sim, norm).out;
  }

  /** Every article the source loop lets through is one the sources
      returned, with its date stamped. */
  lemma ProcessSourcesStamped(fetched: seq<FetchResult>, store: Store, now: Instant,
                              md5: string -> string, embed: string -> Option<Embedding>,
                              sim: (Embedding, Embedding) -> real,
                              norm: string -> string)
    ensures forall x :: x in ProcessSources(fetched, store, now, md5, embed, sim, norm).out ==>
              exists y :: y in ReturnedItems(fetched) && x == Stamp(y, now, norm)
  {
    var out := ProcessSources(fetched, store, now, md5, embed, sim, norm).out;
    var all := StampAll(ReturnedItems(fetched), now, norm);
    ProcessSourcesSubseq(fetched, store, now, md5, embed, sim, norm);
    SubseqMembers(out, all);
    forall x | x in out
      ensures exists y :: y in ReturnedItems(fetched) && x == Stamp(y, now, norm)
    {
      var i :| 0 <= i < |all| && all[i] == x;
      assert ReturnedItems(fetched)[i] in ReturnedItems(fetched);
    }
  }

  /** Every new article of a run is one the sources returned, with its date
      replaced by the normalised date or, failing that, the current instant. */
  lemma NewArticlesAreStamped(web: Source -> FetchResult, rssPerUrl: seq<FetchResult>,
                              loaded: Store, now: Instant,
                              md5: string -> string, embed: string -> Option<Embedding>,
                              sim: (Embedding, Embedding) -> real,
                              parse: string -> Option<ParsedTime>)
    ensures var r := FetchAllSourcesNews(web, rssPerUrl, loaded, now, md5, embed, sim, parse);
      forall x :: x in r.out ==>
        exists y :: y in ReturnedItems(FetchAll(web, rssPerUrl)) && x == Stamp(y, now, Normalizer(now, parse))
  {
    ProcessSourcesStamped(FetchAll(web, rssPerUrl), Cleanup(loaded, now, TtlHours), now,
                          md5, embed, sim, Normalizer(now, parse));
  }

  /** With a symmetric similarity, a run keeps the stored embeddings pairwise
      below the threshold. */
  lemma {:induction false} ProcessItemsKeepsSpread(items: seq<Item>, store: Store, now: Instant,
                        md5: string -> string, embed: string -> Option<Embedding>,
                        sim: (Embedding, Embedding) -> real,
                        norm: string -> string)
    requires Symmetric(sim) && Spread(store, sim)
    ensures Spread(ProcessItems(items, store, now, md5, embed, sim, norm).store, sim)
    decreases |items|
  {
    if |items| > 0 {
      var it := Stamp(items[0], now, norm);
      IsDuplicateKeepsSpread(it, store, now, md5, embed, sim);
      var v := IsDuplicate(it, store, now, md5, embed, sim);
      ProcessItemsKeepsSpread(items[1..], v.store, now, md5, embed, sim, norm);
    }
  }

  lemma {:induction false} ProcessSourcesKeepsSpread(fetched: seq<FetchResult>, store: Store, now: Instant,
                          md5: string -> string, embed: string -> Option<Embedding>,
                          sim: (Embedding, Embedding) -> real,
                          norm: string -> string)
    requires Symmetric(sim) && Spread(store, sim)
    ensures Spread(ProcessSources(fetched, store, now, md5, embed, sim, norm).store, sim)
    decreases |fetched|
  {
    if |fetched| > 0 {
      var first := match fetched[0]
        case Raised => Run([], store)
        case Returned(items) => ProcessItems(items, store, now, md5, embed, sim, norm);
      if fetched[0].Returned? {
        ProcessItemsKeepsSpread(fetched[0].items, store, now, md5, embed, sim, norm);
      }
      ProcessSourcesKeepsSpread(fetched[1..], first.store, now, md5, embed, sim, norm);
    }
  }

  /** The store a run saves stays spread when the loaded one was. */
  lemma FetchAllKeepsSpread(web: Source -> FetchResult, rssPerUrl: seq<FetchResult>,
                            loaded: Store, now: Instant,
                            md5: string -> string, embed: string -> Option<Embedding>,
                            sim: (Embedding, Embedding) -> real,
                            parse: string -> Option<ParsedTime>)
    requires Symmetric(sim) && Spread(loaded, sim)
    ensures Spread(FetchAllSourcesNews(web, rssPerUrl, loaded, now, md5, embed, sim, parse).store, sim)
  {
    CleanupKeepsSpread(loaded, now, TtlHours, sim);
    ProcessSourcesKeepsSpread(FetchAll(web, rssPerUrl), Cleanup(loaded, now, TtlHours), now,
                              md5, embed, sim, Normalizer(now, parse));
  }
}
