# News freshness and retention, modelled in Dafny

This project models the part of the stock-news alert system that decides
which articles are new and which stored records or documents are still fresh.
It covers:

- the two-tier duplicate filter of `fetch_all_sources_news`: an exact
  `title + url` hash, then an embedding-similarity scan with threshold 0.85,
  over a dedup store pruned to the last 48 hours;
- `normalize_date`, which turns RSS, IST, "N units ago" and "N units" dates
  into a whole-second UTC ISO-8601 string, or `""` on failure;
- the two retention sweepers: `clean_seen_hashes`, which trims an ordered
  map to its last N entries, and the age filter of `clean_old_documents`;
- `convert_news_to_documents` and the two formatters of `format_news.py`;
- the decisions of `job_runner`: the early returns, the set of unique
  tickers, the market-hours window, the live-data fallback text, the alert
  gate and the alert message, and what is saved at the end.

Time is an integer number of microseconds since the Unix epoch, kept inside
the range Python's `datetime` can hold (years 1 to 9999). Leaving that range
is Python's `OverflowError`. `isoformat` is written out in full, calendar
conversion included, and is proved injective.

Everything outside the core is a function parameter. That covers:

- the MD5 digest, the embedding provider and the similarity measure;
- the source fetchers and `dateutil`'s parser;
- `datetime.fromisoformat`;
- the stock identifier, the retriever and the analyser;
- the tick capture and aggregation, and `DataFrame.to_markdown`.

A call that can raise becomes a parameter returning `Option`, with `None`
standing for the exception. Each run reads the clock once, as a parameter
`now`.

The model follows the code where it differs from what a reader might
expect:

- `job_runner` saves the identifier's `{ticker, article}` records rather
  than the articles (main.py:114). `convert_news_to_documents` reads
  top-level `title`, `content` and `published_at`, so every saved document
  is blank: its text is `"\n\n"` and it has no date (`Job.SavedDocumentsBlank`).
  The next age sweep then drops all of them (`Job.SavedDocumentsSwept`).
- The comment at utils/clean_vector_store.py:19 says an undated document
  is kept. The bare `except` actually drops it, and a naive date is dropped
  too, because comparing it with the aware cutoff raises `TypeError`
  (`CleanVectorStore.UndatedDropped`, `CleanVectorStore.NaiveDropped`).
- In the per-source loop of `fetch_all_sources_news`, the article is
  recorded in the store before it is logged. `item['title']` then raises
  for an article without a title, and that ends the source's loop. The
  article stays recorded but is not returned.
- A failed embedding call returns "not a duplicate" without recording
  anything. Two returned articles can therefore share a hash, but only
  when the earlier one's embedding failed (`Ingestion.HashesApart`).

Modules, one per file:

- `Wrappers`, `PyStrings` and `PyDicts` hold the Python string and `dict`
  helpers the core uses: `strip`, `in`, `lower`, `replace`, `dict.get` and
  integer formatting.
- `Instants` holds time, the civil calendar and `isoformat`.
- `Subsequences` holds the order-preservation predicates.
- `Dedup` models the store pruning and the duplicate check of
  `fetch_all_sources_news.py`. `Ingestion` models the rest of that file: the
  source order, the date stamping and the per-source loop.
- `NormalizeDates`, `CleanSeenHashes`, `CleanVectorStore`, `StoreNews` and
  `FormatNews` model the files `normalize_dates.py`, `clean_seen_hashes.py`,
  `clean_vector_store.py`, `store_news.py` and `format_news.py`.
  `FormatNews` also holds the item-building loop of
  `fetch_related_past_news.py`.
- `Job` models `job_runner` in `main.py`.

## Model

| member | source | states |
|---|---|---|
| Dedup.Cleanup | src2/news_ingestion/fetch_all_sources_news.py:48-53 | a key survives exactly when its record's timestamp is at or after `now - ttl_hours`; surviving records are unchanged and no key is added |
| Dedup.CleanupIdempotent | src2/news_ingestion/fetch_all_sources_news.py:48-53 | pruning twice with the same clock is pruning once |
| Dedup.IsDuplicate | src2/news_ingestion/fetch_all_sources_news.py:55-86 | a duplicate verdict leaves the store unchanged; a "not duplicate" verdict means the article's hash was not stored |
| Dedup.IsDuplicateCases | src2/news_ingestion/fetch_all_sources_news.py:55-86 | the four outcomes in order: a known hash is a duplicate with the store unchanged; a failed embedding is not a duplicate with the store unchanged; a similar stored embedding is a duplicate with the store unchanged; otherwise not a duplicate, and the store gains exactly the key `h` mapped to `{now, embedding}` with every other entry unchanged |
| Dedup.IsDuplicateExtends | src2/news_ingestion/fetch_all_sources_news.py:62-86 | the store only grows, without rewriting entries; it changes only by adding the article's hash on a "not duplicate" answer; "not duplicate" implies the hash was new, and it is recorded whenever the embedding succeeded |
| Dedup.RecordedIsDuplicate | src2/news_ingestion/fetch_all_sources_news.py:62-86 | once an article has been recorded, checking it again against the resulting store reports a duplicate and changes nothing, whatever the clock or the embedding provider |
| Dedup.IsDuplicateKeepsSpread | src2/news_ingestion/fetch_all_sources_news.py:75-86 | with a symmetric similarity, stored embeddings pairwise below the threshold stay so after a check |
| Dedup.CleanupKeepsSpread | src2/news_ingestion/fetch_all_sources_news.py:48-53 | pruning keeps the stored embeddings pairwise below the threshold |
| Ingestion.RssFetch | src2/news_ingestion/fetch_all_sources_news.py:101 | the RSS source raises exactly when one of its feeds raises |
| Ingestion.RssFetchAppend | src2/news_ingestion/fetch_all_sources_news.py:101 | the RSS articles are the feeds' articles concatenated in feed order |
| Ingestion.FetchAll | src2/news_ingestion/fetch_all_sources_news.py:98-104 | the five sources are fetched in the listed priority order |
| Ingestion.StampedDateCases | src2/news_ingestion/fetch_all_sources_news.py:110-112 | the stamped date is never empty: it is the normalised date when normalisation succeeds, and the run's clock in ISO form otherwise |
| Ingestion.StampFields | src2/news_ingestion/fetch_all_sources_news.py:112 | stamping sets `published_at` and leaves every other key and value unchanged |
| Ingestion.StampAll | src2/news_ingestion/fetch_all_sources_news.py:109-112 | every article of a source is stamped, in order |
| Ingestion.ProcessItems | src2/news_ingestion/fetch_all_sources_news.py:109-117 | one source's loop only extends the store; every article it returns has a title and a hash absent from the store it started with; the hash is recorded unless the embedding failed; a repeated hash means the earlier embedding failed |
| Ingestion.ProcessItemsExact | src2/news_ingestion/fetch_all_sources_news.py:106-117 | given where the loop stops (the first article judged new that has no title, or the end), it returns exactly the stamped articles judged new before that point, in order, each judged against the store the articles before it left; the store it leaves is the one after the stopping article, or after the whole list |
| Ingestion.FirstStop | src2/news_ingestion/fetch_all_sources_news.py:114-117 | the stopping point: every article before it is a duplicate or has a title, and the article at it is new and untitled |
| Ingestion.ProcessItemsIs | src2/news_ingestion/fetch_all_sources_news.py:106-117 | one source's output and final store are exactly those read off its verdicts up to its stopping point |
| Ingestion.ProcessItemsAllNew | src2/news_ingestion/fetch_all_sources_news.py:109-117 | when every article is titled and none is a duplicate, the loop returns all of the source's stamped articles, in order |
| Ingestion.ProcessSources | src2/news_ingestion/fetch_all_sources_news.py:106-119 | across all sources: the store only grows; every returned article has a title and a hash absent from the starting store, recorded unless its embedding failed; a repeated hash means the earlier embedding failed |
| Ingestion.ProcessSourcesIs | src2/news_ingestion/fetch_all_sources_news.py:106-119 | the loop over the sources returns exactly the articles read off the verdicts, source after source, skipping sources that raised, each source judged against the store the earlier ones left; the store it leaves is the one the same verdicts build, source after source |
| Ingestion.HashesOf | src2/news_ingestion/fetch_all_sources_news.py:62 | every article's MD5 hash key is in the set |
| Ingestion.ProcessItemsKeys | src2/news_ingestion/fetch_all_sources_news.py:82-86 | one source's loop adds no key other than the hashes of its own articles |
| Ingestion.ProcessSourcesKeys | src2/news_ingestion/fetch_all_sources_news.py:106-119 | across all sources the store gains no key other than the hashes of articles that were fetched |
| Ingestion.ProcessSourcesAllNew | src2/news_ingestion/fetch_all_sources_news.py:106-119 | when every article of every source that returned is titled and new, all of their stamped articles are returned, in source-then-article order |
| Ingestion.SurvivorsAppend | src2/news_ingestion/fetch_all_sources_news.py:106-119 | the guarantees of two consecutive sources compose |
| Ingestion.FetchAllSourcesNews | src2/news_ingestion/fetch_all_sources_news.py:91-124 | the returned articles are exactly those read off the verdicts against the pruned store, and all stamped articles when every one is titled and new; every returned article has a title, and its hash is not in the pruned store; it is recorded in the saved store unless its embedding failed; a repeated hash means the earlier embedding failed; every fresh loaded record is saved unchanged; the saved store is exactly the one the verdicts build from the pruned store, so each of its keys is a fresh loaded key or the hash of a fetched article |
| Ingestion.ProcessItemsSubseq | src2/news_ingestion/fetch_all_sources_news.py:109-117 | a source's new articles are a subsequence of its stamped articles |
| Ingestion.ProcessSourcesSubseq | src2/news_ingestion/fetch_all_sources_news.py:106-119 | the output keeps source-then-item order: it is a subsequence of all stamped articles of the sources that did not raise |
| Ingestion.RaisingSourceSkipped | src2/news_ingestion/fetch_all_sources_news.py:118-119 | a source that raises contributes nothing and does not change the store; the later sources run as if it were absent |
| Ingestion.StampAllAppend | src2/news_ingestion/fetch_all_sources_news.py:106-112 | stamping distributes over concatenated sources |
| Ingestion.ProcessSourcesStamped | src2/news_ingestion/fetch_all_sources_news.py:108-117 | every output article is some fetched article with its date stamped |
| Ingestion.NewArticlesAreStamped | src2/news_ingestion/fetch_all_sources_news.py:106-119 | every article the whole run returns is a fetched article stamped with its normalised date, or with `now` when normalisation failed |
| Ingestion.FetchAllKeepsSpread | src2/news_ingestion/fetch_all_sources_news.py:91-124 | with a symmetric similarity, a store whose embeddings are pairwise below the threshold stays so through the run |
| NormalizeDates.NormalizeDate | utils/normalize_dates.py:6-66 | `""` exactly when some step fails; otherwise a 25-character ISO string ending in `+00:00` that formats the normalised instant |
| NormalizeDates.DispatchOrder | utils/normalize_dates.py:14-54 | the dispatch order: "," and "+" go to the RSS parse; otherwise "IST" is replaced by "+05:30" and parsed; otherwise the "ago" form, computed from the match of the lower-cased string; otherwise the bare form, likewise; otherwise the generic parse |
| NormalizeDates.NormalizeInstant | utils/normalize_dates.py:14-62 | a normalised instant has zero microseconds, and the relative forms never give an instant after `now` |
| NormalizeDates.ToUtcSecond | utils/normalize_dates.py:57-62 | a naive time is read as UTC and an aware one is converted to UTC; either is truncated to the second, and leaving the datetime range fails |
| NormalizeDates.RelativeIgnoresParser | utils/normalize_dates.py:23-50 | the relative forms never consult `dateutil` |
| NormalizeDates.MatchAgoExact | utils/normalize_dates.py:23-24 | the "ago" matcher succeeds exactly on strings of the shape `[\d\.]+\s+(minute\|hour\|day\|week)s?\s+ago` at the start, and returns the amount and the unit |
| NormalizeDates.MatchBareExact | utils/normalize_dates.py:38-39 | the bare matcher succeeds exactly on `\d+\s+unit s?` followed by the end or a final newline, and returns the digits and the unit |
| NormalizeDates.ParseAmount | utils/normalize_dates.py:25 | which amounts `float()` accepts: plain digits, or digits around one point (a lone point fails); two points fail. The value is the exact decimal, not the nearest double |
| NormalizeDates.RoundHalfEven | utils/normalize_dates.py:29-35 | `timedelta` rounds a fractional amount to the nearest microsecond, ties to even |
| NormalizeDates.Before | utils/normalize_dates.py:27-35 | subtracting the offset from `now` fails only when it leaves the datetime range |
| NormalizeDates.IntegerAgo | utils/normalize_dates.py:23-35 | "N unit(s) ago" gives `now - N` units |
| NormalizeDates.IntegerBare | utils/normalize_dates.py:38-50 | "N unit(s)" gives `now - N` units |
| NormalizeDates.UnitSeconds | utils/normalize_dates.py:28-35 | each unit is a positive whole number of seconds |
| Instants.IsoFormatInjective | utils/normalize_dates.py:62 | distinct instants have distinct ISO strings |
| Instants.DaysFromCivilInverts | utils/normalize_dates.py:62 | the calendar date printed by `isoformat` determines the day number |
| Instants.TruncateToSecond | utils/normalize_dates.py:62 | dropping microseconds gives the whole second at or just before the instant |
| CleanSeenHashes.CleanSeenHashes | utils/clean_seen_hashes.py:4-19 | a missing file is not written; a file with at most `keep_last` entries is not rewritten; a longer one is rewritten with a suffix of its entries |
| CleanSeenHashes.SliceFrom | utils/clean_seen_hashes.py:14 | Python's `xs[start:]` for every integer start: a suffix, of the clamped length |
| CleanSeenHashes.KeepLast | utils/clean_seen_hashes.py:12-14 | for `keep_last >= 1` the file keeps its last `min(len, keep_last)` entries |
| CleanSeenHashes.ShortFileUntouched | utils/clean_seen_hashes.py:12-19 | a file with at most `keep_last` entries is neither changed nor rewritten |
| CleanSeenHashes.KeepZeroKeepsAll | utils/clean_seen_hashes.py:14 | `keep_last = 0` keeps every entry, and a non-empty file is rewritten unchanged |
| CleanSeenHashes.KeepNegativeDropsFront | utils/clean_seen_hashes.py:14 | a negative `keep_last` drops the first `-keep_last` entries |
| CleanSeenHashes.KeptIdempotent | utils/clean_seen_hashes.py:12-14 | for `keep_last >= 0` trimming twice is trimming once; for `keep_last >= 1` the second call does not rewrite |
| CleanSeenHashes.KeepNegativeNotIdempotent | utils/clean_seen_hashes.py:14 | with `keep_last = -1`, a second call removes more entries |
| CleanSeenHashes.KeptKeysDistinct | utils/clean_seen_hashes.py:14 | rebuilding the `dict` from the kept entries keeps keys distinct and values unchanged |
| CleanSeenHashes.KeepLastN | utils/clean_seen_hashes.py:12-14 | intended trimming: the last `min(len, N)` entries, none for `N = 0` |
| CleanSeenHashes.KeptMatchesKeepLastN | utils/clean_seen_hashes.py:14 | the code agrees with the intended trimming for `keep_last >= 1` and differs from it at 0 on every non-empty file |
| CleanVectorStore.CutoffDate | utils/clean_vector_store.py:14 | the cutoff is `now - days_to_keep` days, and fails when that leaves the datetime range |
| CleanVectorStore.FreshDocs | utils/clean_vector_store.py:18-25 | a document is kept exactly when its `published_at` parses to an aware instant at or after the cutoff |
| CleanVectorStore.CleanOldDocuments | utils/clean_vector_store.py:14-25 | the rebuilt store is the age filter's output at the cutoff, so it holds every copy of every stored document dated at or after the cutoff and nothing else, in store order; the sweep fails exactly when the cutoff overflows |
| CleanVectorStore.FreshDocsCounts | utils/clean_vector_store.py:18-25 | each fresh document survives as many times as it is stored, and a stale one not at all |
| CleanVectorStore.FreshDocsSubseq | utils/clean_vector_store.py:15-23 | the retained documents keep their store order |
| CleanVectorStore.FreshDocsIdempotent | utils/clean_vector_store.py:14-25 | sweeping twice with the same cutoff is sweeping once |
| CleanVectorStore.UndatedDropped | utils/clean_vector_store.py:19-25 | a document without `published_at` is dropped |
| CleanVectorStore.NaiveDropped | utils/clean_vector_store.py:21-25 | a document with a naive date is dropped |
| StoreNews.ToDocument | src2/faiss_vector_store/store_news.py:13-31 | the text is `title + "\n\n" + content`; the metadata has exactly the keys title, url, published_at and source, each copied from the article or `""` |
| StoreNews.ConvertNewsToDocuments | src2/faiss_vector_store/store_news.py:11-33 | one document per article, same length and order |
| StoreNews.UntitledIsSeparator | src2/faiss_vector_store/store_news.py:14-20 | an article with no title or content is stored as `"\n\n"` |
| FormatNews.FormatRelatedNews | utils/format_news.py:1-10 | formatting succeeds exactly when every item has a text `article_content` (otherwise `KeyError` or `AttributeError`) |
| FormatNews.RelatedEmpty | utils/format_news.py:2-10 | an empty list formats to `""` |
| FormatNews.ItemContributes | utils/format_news.py:4-8 | the i-th item, counting from 1, contributes `i. **[date]**:\n` then its stripped content then `\n\n`, between the entries before it and those after it |
| FormatNews.NumberedAppend | utils/format_news.py:4-8 | formatting a concatenation is concatenating the formattings, with the numbering continued |
| FormatNews.FormatRelatedLoop | utils/format_news.py:1-10 | the accumulating loop computes the same text as the recursive definition |
| FormatNews.DateOf | utils/format_news.py:5 | a missing `article_date` renders as "Unknown Date"; a present one, `None` included, renders as itself |
| FormatNews.UndatedItem | utils/format_news.py:5-8 | an item without a date shows "Unknown Date"; one with a `None` date shows "None" |
| FormatNews.RetrievedFormats | src2/retriever/fetch_related_past_news.py:36-45 | the items built from retrieved documents always format |
| FormatNews.RelatedFromDocs | src2/retriever/fetch_related_past_news.py:36-45 | one item per document, with exactly the keys `article_content` and `article_date`: the document's text, and its `published_at` (None when absent) |
| FormatNews.FormatLatestNews | utils/format_news.py:12-19 | the text opens with the title line and a newline, and ends with the link line, with the defaults N/A |
| FormatNews.LatestNewsSplits | utils/format_news.py:12-19 | splitting the text at newlines gives the Title, Content, Date, Source and Link lines in order, with defaults N/A, "", Unknown, Unknown and N/A and the content stripped |
| FormatNews.SplitJoin | utils/format_news.py:13-19 | joining single lines with newlines and splitting again gives back the lines |
| Job.UseLiveDataClock | main.py:43-49 | live data is used exactly when the time of day is between 09:15 and 15:30 inclusive, compared field by field as `time` does |
| Job.UniqueTickers | main.py:40 | the unique tickers are exactly the tickers of the records that have one |
| Job.LiveDataMarkdown | main.py:80-86 | a ticker without aggregated data, or with an empty table, gets "No live data available (market closed)"; otherwise its table's markdown |
| Job.MissingSignalAlerts | main.py:99 | an analysis without `signal_analysis` raises an alert |
| Job.NoImpactSilences | main.py:99 | a signal that contains the no-impact text anywhere raises no alert |
| Job.AlertMessage | main.py:100-107 | the alert text ends with the formatted article |
| Job.AnalyzeRecord | main.py:72-108 | an analysed record had content and a ticker; its alert, if any, ends with the formatted article |
| Job.AnalyzeRecordFails | main.py:72-94 | a record fails when its article has no content, the retriever raises, its past news cannot be formatted, or it has no ticker |
| Job.AnalyzedAlertGate | main.py:88-108 | when every call succeeds the record is analysed, and it alerts exactly when the analyser's signal lacks the no-impact text; the alert ends with the formatted article |
| Job.AnalyzeAll | main.py:72-108 | at most one alert per record; a loop that did not fail analysed every record |
| Job.AnalyzeAllAlerts | main.py:72-119 | the loop fails exactly when some record fails, and every alert sent came from an analysed record |
| Job.FirstFailed | main.py:72-108 | the first failing record: every record before it is analysed and the record at it fails, or it is the number of records |
| Job.AnalyzeAllExact | main.py:72-119 | the loop's result exactly: the alerts of the records before the first failing one, in record order, and a failure flag that is set exactly when some record fails |
| Job.AnalyzeAllSendsAll | main.py:72-108 | a loop without an exception sends the alert of every record that raises one, in record order |
| Job.LiveTable | main.py:50-66 | the live-data table is the aggregation's during market hours and an empty one otherwise |
| Job.JobRunner | main.py:22-119 | stops with no news exactly when none arrived; stops as irrelevant exactly when filtering yields nothing; a failed capture happens only in market hours; a completed run analysed every record, sent every record's alert in order and saves one document per record; an aborted run sent the alerts of the records before the first failing one, or none when the aggregation failed |
| Job.ClosedMarketIgnoresTicks | main.py:51-67 | outside market hours the outcome does not depend on the capture or the aggregation, and the run never stops for a failed capture |
| Job.SavedDocumentsBlank | main.py:113-115 | one document per record is saved, each with text `"\n\n"` and empty title and date |
| Job.SavedDocumentsSwept | main.py:113-115 | the next age sweep drops every saved document |

## Left out

- Persistence: loading and saving the dedup store as JSON, reading and
  writing the seen-hashes file, and FAISS load, save and add. The stores are
  values. The dedup save is a plain overwrite, not atomic, and that is not
  modelled either.
- Logging and `print`: they have no effect on results.
- The clock: each run reads it once, as a parameter `now`. The source reads
  it several times. `cleanup_store` reads it before the scrapers run, and
  the scrapers sleep two seconds per scroll
  (src2/news_ingestion/news_webscrape.py:23-25, 71-74). The readings for
  recorded timestamps and stamped dates
  (src2/news_ingestion/fetch_all_sources_news.py:83, 112) are therefore
  seconds to minutes later than the pruning cutoff's.
- NormalizeDates.ParseAmount: the amount is read as an exact decimal, while
  `float` rounds it to the nearest double. The two can differ: "100000.000000000005
  weeks ago" is 100000.0 weeks as a double, but the exact reading adds 3
  microseconds, so the truncated result can be one second earlier.
- Ingestion.ProcessItems: article fields are strings. A scraper can return a
  `None` url (src2/news_ingestion/news_webscrape.py:93), which makes the hash
  at src2/news_ingestion/fetch_all_sources_news.py:62 raise `TypeError` and
  ends that source's loop; that case is not modelled.
- Job.AnalyzeRecord: analysis fields are strings. A `null` signal from the
  analyser (src2/final_analysis/final_analysis_by_llm.py:178) makes the test
  at main.py:99 raise `TypeError` and abort the job; that case is not
  modelled.
- Ingestion.ProcessSources: its own ensures state which articles are new;
  that it returns exactly the articles the verdicts select, and leaves
  exactly the store they build, is stated by `Ingestion.ProcessSourcesIs`.
- CleanVectorStore.FreshDocs: its own ensures give membership and length;
  how many copies of each document survive is stated by
  `CleanVectorStore.FreshDocsCounts`.
- Job.AnalyzeAll: its own ensures bound the alerts; the exact alert list is
  stated by `Job.AnalyzeAllExact`.
- CleanVectorStore.CleanOldDocuments: when no document is fresh,
  `FAISS.from_documents([])` raises (utils/clean_vector_store.py:27) and the
  old index stays on disk. The rebuild is not modelled, so that case returns
  the empty list.
- Dedup.Cleanup: stored timestamps are instants rather than ISO strings that
  `fromisoformat` re-parses, and `ttl_hours` is an integer rather than a float.
  The parse and the naive-versus-aware comparison error are not modelled.
- MD5, the embedding provider and numpy's cosine similarity are
  uninterpreted parameters. The floating-point arithmetic and the zero-norm
  case are not modelled.
- `dateutil.parser.parse` and `datetime.fromisoformat` are partial
  parameters returning a naive or aware wall time. Their grammars are not
  modelled.
- `str.lower` and `\d` are modelled for ASCII only. Python's `\d` also
  matches other Unicode decimal digits, and `lower` folds non-ASCII letters.
- The scrapers, the RSS feed reader and the market-data downloads are
  fetch parameters. Whether a source raises is part of each fetch result.
- The LLM chains: the stock identifier and the analyser are parameters.
  `get_last_5_days_ohlc_data` is folded into the analyser parameter,
  because it is called just before it and only feeds it.
- The live tick capture and the pandas aggregation are parameters.
  `DataFrame.to_markdown` is one as well.
- The retriever's time-weighted scoring lives in a library that is not part
  of this model. The retriever is a parameter returning documents.
- The Telegram call: an alert is the message text, since
  `send_telegram_message` catches every exception.
- The APScheduler loop, signal handlers and the sleep loop of `main.py`.
- Job.JobRunner: the identifier's records have an optional ticker, although
  the pydantic model requires one; a missing ticker fails that record. The
  records' `article` field is kept only as far as the loop reads it.
- Time is kept in microseconds, not seconds, because the stored timestamps
  and `isoformat` carry microseconds.

## Findings

| source | as written | input that shows it | evidently intended | confidence | as-written member | corrected member |
|---|---|---|---|---|---|---|
| utils/clean_seen_hashes.py:14 | `list(hashes.items())[-keep_last:]`: with `keep_last = 0` the slice is `[0:]`, which keeps every entry | `keep_last = 0` on a file with one entry: the file is rewritten with that entry, and the log says "Kept last 0 entries" | keep the last `keep_last` entries, none for 0 | not executed | CleanSeenHashes.KeptMatchesKeepLastN | CleanSeenHashes.KeepLastN |
