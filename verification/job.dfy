/**
 The decisions of one scheduled `job_runner` run: when it stops early,
 whether it waits for live ticks, which tickers it watches, which analyses
 raise an alert and what it saves to the vector store.

 Everything the job asks of the outside world is a parameter: the articles
 `fetch_all_sources_news` returned, the stock identifier, the local time of
 day, whether the tick capture succeeded, the aggregated ticks (`None` when
 aggregation raises), the markdown rendering of a table, the retriever and
 the analyser (`None` when they raise). Sending an alert never raises, as
 `send_telegram_message` catches every exception, so an alert is simply the
 message the job would send.
 */
module Job {
  import opened Wrappers
  import opened PyStrings
  import opened PyDicts
  import opened Instants
  import opened StoreNews
  import opened FormatNews
  import opened CleanVectorStore
  import opened Subsequences

  /** `datetime.now().time()`: the local time of day in microseconds. */
  type TimeOfDay = t: int | 0 <= t < MicrosPerDay

  /** `dtime(9, 15)` and `dtime(15, 30)` (lines 46-47). */
  const MarketOpen: TimeOfDay := 9 * MicrosPerHour + 15 * MicrosPerMinute
  const MarketClose: TimeOfDay := 15 * MicrosPerHour + 30 * MicrosPerMinute

  /** Line 49: `market_open <= now <= market_close`. */
  predicate UseLiveData(now: TimeOfDay) {
    MarketOpen <= now <= MarketClose
  }

  /** Python compares two `time` values field by field. */
  predicate ClockLe(a: Clock, b: Clock) {
    || a.hour < b.hour
    || (a.hour == b.hour && a.minute < b.minute)
    || (a.hour == b.hour && a.minute == b.minute && a.second < b.second)
    || (a.hour == b.hour && a.minute == b.minute && a.second == b.second && a.micro <= b.micro)
  }

  predicate ValidClock(k: Clock) {
    0 <= k.hour < 24 && 0 <= k.minute < 60 && 0 <= k.second < 60 && 0 <= k.micro < MicrosPerSecond
  }

  function MicrosOf(k: Clock): int {
    (3600 * k.hour + 60 * k.minute + k.second) * MicrosPerSecond + k.micro
  }

  /** On valid clocks, comparing field by field is comparing the times they
      denote. */
  lemma ClockLeMicros(a: Clock, b: Clock)
    requires ValidClock(a) && ValidClock(b)
    ensures ClockLe(a, b) <==> MicrosOf(a) <= MicrosOf(b)
  {
    var sa := 3600 * a.hour + 60 * a.minute + a.second;
    var sb := 3600 * b.hour + 60 * b.minute + b.second;
    assert MicrosOf(a) == sa * MicrosPerSecond + a.micro;
    assert MicrosOf(b) == sb * MicrosPerSecond + b.micro;
    assert (a.hour, a.minute, a.second) == (b.hour, b.minute, b.second) <==> sa == sb;
    assert sa < sb ==> MicrosOf(a) < MicrosOf(b);
    assert sb < sa ==> MicrosOf(b) < MicrosOf(a);
  }

  /** Live data is used exactly when the wall clock reads from 09:15:00 to
      15:30:00, both ends included. */
  lemma UseLiveDataClock(now: TimeOfDay)
    ensures UseLiveData(now)
            <==> ClockLe(Clock(9, 15, 0, 0), ClockOf(now)) && ClockLe(ClockOf(now), Clock(15, 30, 0, 0))
  {
    var k := ClockOf(now);
    assert MicrosOf(k) == now;
    ClockLeMicros(Clock(9, 15, 0, 0), k);
    ClockLeMicros(k, Clock(15, 30, 0, 0));
  }

  /** One record of `identify_stocks_from_news`: a ticker and the article it
      was found in. */
  datatype Prediction = Prediction(ticker: Option<string>, article: Item)

  /** Line 40: the tickers of the records that have one. */
  function UniqueTickers(records: seq<Prediction>): (r: set<string>)
    ensures forall t :: t in r <==> exists i :: 0 <= i < |records| && records[i].ticker == Some(t)
  {
    set i | 0 <= i < |records| && records[i].ticker.Some? :: records[i].ticker.value
  }

  /** A pandas `DataFrame`, as far as `.empty` and `to_markdown` see it. */
  datatype Frame = Frame(columns: seq<string>, rows: seq<seq<string>>)

  /** `DataFrame.empty`: no column or no row. */
  predicate IsEmpty(f: Frame) {
    |f.columns| == 0 || |f.rows| == 0
  }

  const NoLiveData: string := "No live data available (market closed)"

  /** Lines 80-86: the markdown of the ticker's ticks, or the fallback text
      when there are none. */
  function LiveDataMarkdown(result: map<string, Frame>, ticker: string,
                            toMarkdown: Frame -> string): (r: string)
    ensures ticker !in result ==> r == NoLiveData
    ensures ticker in result ==>
              r == if IsEmpty(result[ticker]) then NoLiveData else toMarkdown(result[ticker])
  {
    var f := Get(result, ticker, Frame([], []));
    if IsEmpty(f) then NoLiveData else toMarkdown(f)
  }

  const NoImpactText: string :=
    "News does not indicate material impact on the stock. No further analysis required."

  /** Line 99: alert unless the signal analysis says there is no impact. */
  predicate ShouldAlert(analysis: Item) {
    !IsSubstring(NoImpactText, Get(analysis, "signal_analysis", ""))
  }

  /** An analysis without a signal counts as "" and raises an alert. */
  lemma MissingSignalAlerts(analysis: Item)
    requires "signal_analysis" !in analysis
    ensures ShouldAlert(analysis)
  {
    assert !OccursAt(NoImpactText, "", 0);
  }

  /** A signal that quotes the no-impact text anywhere raises no alert. */
  lemma NoImpactSilences(analysis: Item, before: string, after: string)
    requires Get(analysis, "signal_analysis", "") == before + NoImpactText + after
    ensures !ShouldAlert(analysis)
  {
    assert OccursAt(NoImpactText, NoImpactText, 0);
    OccursAtConcat(NoImpactText, before, NoImpactText, 0);
    OccursAtExtend(NoImpactText, before + NoImpactText, after, |before|);
  }

  /** Lines 100-107: the alert text. */
  function AlertMessage(ticker: string, analysis: Item, latestNews: string): (r: string)
    ensures IsSuffix(latestNews, r)
  {
    var head := "\U{1F4CA} *Stock Analysis: " + ticker + "*\n\n"
      + "Signal: " + Get(analysis, "signal_analysis", "") + "\n"
      + "Potential: " + Get(analysis, "potential_analysis", "") + "\n"
      + "Confidence: " + Get(analysis, "confidence_analysis", "") + "\n"
      + "Sectors: " + Get(analysis, "sector_analysis", "") + "\n\n"
      + "\U{1F4F0} News: ";
    assert (head + latestNews)[|head|..] == latestNews;
    head + latestNews
  }

  /** What one pass of the loop of lines 72-108 does. */
  datatype Step = Failed | Analyzed(alert: Option<string>)

  /** One record: format it, retrieve and format its past news, look up its
      live data and analyse it. `retrieve_related_past_news` raises a
      `KeyError` for an article without content, and `article["ticker"]`
      raises one for a record without a ticker. */
  function AnalyzeRecord(rec: Prediction, live: map<string, Frame>, toMarkdown: Frame -> string,
                         retrieve: string -> Option<seq<Document>>,
                         analyze: (string, string, string, string) -> Option<Item>): (r: Step)
    // An analysed record had content and a ticker; its alert, if any, ends
    // with the formatted article.
    ensures r.Analyzed? ==> "content" in rec.article && rec.ticker.Some?
    ensures r.Analyzed? && r.alert.Some? ==> IsSuffix(FormatLatestNews(rec.article), r.alert.value)
  {
    var latestNews := FormatLatestNews(rec.article);
    if "content" !in rec.article then Failed
    else match retrieve(rec.article["content"])
      case None => Failed
      case Some(docs) =>
        match FormatRelatedNews(RelatedFromDocs(docs))
        case None => Failed
        case Some(relatedNews) =>
          match rec.ticker
          case None => Failed
          case Some(t) =>
            match analyze(t, latestNews, relatedNews, LiveDataMarkdown(live, t, toMarkdown))
            case None => Failed
            case Some(a) =>
              var analysis := a["article" := latestNews];
              Analyzed(if ShouldAlert(analysis) then Some(AlertMessage(t, analysis, latestNews)) else None)
  }

  /** A record fails when its article has no content, the retriever or the
      analyser raises, the past news cannot be formatted, or it has no
      ticker. */
  lemma AnalyzeRecordFails(rec: Prediction, live: map<string, Frame>, toMarkdown: Frame -> string,
                           retrieve: string -> Option<seq<Document>>,
                           analyze: (string, string, string, string) -> Option<Item>)
    ensures "content" !in rec.article ==> AnalyzeRecord(rec, live, toMarkdown, retrieve, analyze) == Failed
    ensures "content" in rec.article && retrieve(rec.article["content"]).None? ==>
              AnalyzeRecord(rec, live, toMarkdown, retrieve, analyze) == Failed
    ensures "content" in rec.article && retrieve(rec.article["content"]).Some? &&
            FormatRelatedNews(RelatedFromDocs(retrieve(rec.article["content"]).value)).None? ==>
              AnalyzeRecord(rec, live, toMarkdown, retrieve, analyze) == Failed
    ensures rec.ticker.None? ==> AnalyzeRecord(rec, live, toMarkdown, retrieve, analyze) == Failed
  {
  }

  /** When every call succeeds the record is analysed, and it raises an
      alert exactly when the analyser's own signal does not quote the
      no-impact text: overwriting the "article" key never changes the
      decision. The alert ends with the formatted article. */
  lemma AnalyzedAlertGate(rec: Prediction, live: map<string, Frame>, toMarkdown: Frame -> string,
                          retrieve: string -> Option<seq<Document>>,
                          analyze: (string, string, string, string) -> Option<Item>,
                          docs: seq<Document>, related: string, t: string, a: Item)
    requires "content" in rec.article && retrieve(rec.article["content"]) == Some(docs)
    requires FormatRelatedNews(RelatedFromDocs(docs)) == Some(related)
    requires rec.ticker == Some(t)
    requires analyze(t, FormatLatestNews(rec.article), related, LiveDataMarkdown(live, t, toMarkdown))
             == Some(a)
    ensures AnalyzeRecord(rec, live, toMarkdown, retrieve, analyze).Analyzed?
    ensures AnalyzeRecord(rec, live, toMarkdown, retrieve, analyze).alert.Some?
            <==> !IsSubstring(NoImpactText, Get(a, "signal_analysis", ""))
    ensures AnalyzeRecord(rec, live, toMarkdown, retrieve, analyze).alert.Some? ==>
              IsSuffix(FormatLatestNews(rec.article),
                       AnalyzeRecord(rec, live, toMarkdown, retrieve, analyze).alert.value)
  {
    var latestNews := FormatLatestNews(rec.article);
    assert Get(a["article" := latestNews], "signal_analysis", "") == Get(a, "signal_analysis", "");
  }

  /** The alerts sent so far and whether an exception ended the loop. */
  datatype Loop = Loop(alerts: seq<string>, failed: bool)

  /** The loop of lines 72-108 over the records, in order, each pass done by
      `step`; an exception leaves it for the outer handler. */
  function AnalyzeAll(records: seq<Prediction>, step: Prediction -> Step): (r: Loop)
    ensures |r.alerts| <= |records|
    ensures !r.failed ==> forall i :: 0 <= i < |records| ==> step(records[i]).Analyzed?
    decreases |records|
  {
    if |records| == 0 then Loop([], false)
    else
      match step(records[0])
      case Failed => Loop([], true)
      case Analyzed(alert) =>
        var rest := AnalyzeAll(records[1..], step);
        assert forall i :: 1 <= i < |records| ==> records[1..][i - 1] == records[i];
        Loop((if alert.Some? then [alert.value] else []) + rest.alerts, rest.failed)
  }

  /** The loop stops at the first failing record, and every alert it sent
      came from a record analysed before that. */
  lemma {:induction false} AnalyzeAllAlerts(records: seq<Prediction>, step: Prediction -> Step)
    ensures AnalyzeAll(records, step).failed <==> exists i :: 0 <= i < |records| && step(records[i]).Failed?
    ensures forall m :: m in AnalyzeAll(records, step).alerts ==>
              exists i :: 0 <= i < |records| && step(records[i]) == Analyzed(Some(m))
    decreases |records|
  {
    if |records| > 0 {
      var tail := records[1..];
      AnalyzeAllAlerts(tail, step);
      assert forall i :: 1 <= i < |records| ==> tail[i - 1] == records[i];
      match step(records[0])
      case Failed =>
      case Analyzed(alert) =>
        var rest := AnalyzeAll(tail, step);
        assert AnalyzeAll(records, step).alerts == (if alert.Some? then [alert.value] else []) + rest.alerts;
        forall m | m in AnalyzeAll(records, step).alerts
          ensures exists i :: 0 <= i < |records| && step(records[i]) == Analyzed(Some(m))
        {
          if m !in rest.alerts {
            assert step(records[0]) == Analyzed(Some(m));
          } else {
            var j :| 0 <= j < |tail| && step(tail[j]) == Analyzed(Some(m));
            assert step(records[j + 1]) == Analyzed(Some(m));
          }
        }
        if rest.failed {
          var j :| 0 <= j < |tail| && step(tail[j]).Failed?;
          assert step(records[j + 1]).Failed?;
        }
    }
  }

  /** The alerts the first `n` records raise, in order. */
  function AlertsBefore(records: seq<Prediction>, step: Prediction -> Step, n: nat): (ms: seq<string>)
    requires n <= |records|
    ensures |ms| <= n
  {
    if n == 0 then []
    else
      var s := step(records[n - 1]);
      AlertsBefore(records, step, n - 1) + (if s.Analyzed? && s.alert.Some? then [s.alert.value] else [])
  }

  /** Dropping the first record. */
  lemma {:induction false} AlertsBeforeTail(records: seq<Prediction>, step: Prediction -> Step, n: nat)
    requires 1 <= n <= |records|
    ensures var s := step(records[0]);
      AlertsBefore(records, step, n)
      == (if s.Analyzed? && s.alert.Some? then [s.alert.value] else [])
         + AlertsBefore(records[1..], step, n - 1)
    decreases n
  {
    var s := step(records[0]);
    var head: seq<string> := if s.Analyzed? && s.alert.Some? then [s.alert.value] else [];
    if n == 1 {
      assert AlertsBefore(records, step, 1) == [] + head;
      assert head + [] == head;
    } else {
      AlertsBeforeTail(records, step, n - 1);
      var l := step(records[n - 1]);
      var last: seq<string> := if l.Analyzed? && l.alert.Some? then [l.alert.value] else [];
      assert records[1..][n - 2] == records[n - 1];
      assert AlertsBefore(records[1..], step, n - 1) == AlertsBefore(records[1..], step, n - 2) + last;
      assert (head + AlertsBefore(records[1..], step, n - 2)) + last
             == head + (AlertsBefore(records[1..], step, n - 2) + last);
    }
  }

  /** The position of the first record whose pass raises, or the number of
      records when none does. */
  function FirstFailed(records: seq<Prediction>, step: Prediction -> Step): (k: nat)
    ensures k <= |records|
    ensures forall j :: 0 <= j < k ==> step(records[j]).Analyzed?
    ensures k < |records| ==> step(records[k]).Failed?
    decreases |records|
  {
    if |records| == 0 then 0
    else if step(records[0]).Failed? then 0
    else
      var k := FirstFailed(records[1..], step);
      assert forall j :: 1 <= j <= k ==> records[1..][j - 1] == records[j];
      1 + k
  }

  /** The loop's result, exactly: it sends the alerts of the records before
      the first failing one, in order, and fails exactly when some record
      fails. */
  lemma {:induction false} AnalyzeAllExact(records: seq<Prediction>, step: Prediction -> Step)
    ensures AnalyzeAll(records, step)
            == Loop(AlertsBefore(records, step, FirstFailed(records, step)),
                    FirstFailed(records, step) < |records|)
    decreases |records|
  {
    if |records| > 0 && step(records[0]).Analyzed? {
      var tail := records[1..];
      AnalyzeAllExact(tail, step);
      var k := FirstFailed(tail, step);
      assert FirstFailed(records, step) == 1 + k;
      AlertsBeforeTail(records, step, 1 + k);
    }
  }

  /** Without an exception every record's alert is sent, in record order. */
  lemma AnalyzeAllSendsAll(records: seq<Prediction>, step: Prediction -> Step)
    ensures !AnalyzeAll(records, step).failed ==>
              AnalyzeAll(records, step).alerts == AlertsBefore(records, step, |records|)
  {
    AnalyzeAllExact(records, step);
  }

  /** The live-data table the analysis reads: the aggregation's during market
      hours and an empty one otherwise (lines 63-66). */
  function LiveTable(now: TimeOfDay, aggregate: Option<map<string, Frame>>): (t: Option<map<string, Frame>>)
    ensures !UseLiveData(now) ==> t == Some(map[])
    ensures UseLiveData(now) ==> t == aggregate
  {
    if UseLiveData(now) then aggregate else Some(map[])
  }

  /** One pass of the loop, with the live-data table fixed. */
  function StepOf(live: map<string, Frame>, toMarkdown: Frame -> string,
                  retrieve: string -> Option<seq<Document>>,
                  analyze: (string, string, string, string) -> Option<Item>): Prediction -> Step
  {
    rec => AnalyzeRecord(rec, live, toMarkdown, retrieve, analyze)
  }

  /** How a run ends. */
  datatype Outcome =
    | NoNews                                        // lines 30-32
    | NothingRelevant                               // lines 36-38
    | CaptureFailed                                 // lines 59-61
    | Aborted(alerts: seq<string>)                  // lines 118-119: an exception reached the outer handler
    | Completed(alerts: seq<string>, saved: seq<Document>)  // lines 114-116

  /** The record as the `dict` `convert_news_to_documents` reads: only its
      ticker is a string, and none of the keys read is present. */
  function RecordItem(rec: Prediction): Item {
    if rec.ticker.Some? then map["ticker" := rec.ticker.value] else map[]
  }

  function RecordItems(records: seq<Prediction>): (items: seq<Item>)
    ensures |items| == |records|
    ensures forall i :: 0 <= i < |records| ==> items[i] == RecordItem(records[i])
  {
    seq(|records|, i requires 0 <= i < |records| => RecordItem(records[i]))
  }

  /** `job_runner()` (lines 22-119). */
  function JobRunner(latest: seq<Item>, identify: seq<Item> -> seq<Prediction>, now: TimeOfDay,
                     capture: set<string> -> bool, aggregate: Option<map<string, Frame>>,
                     toMarkdown: Frame -> string, retrieve: string -> Option<seq<Document>>,
                     analyze: (string, string, string, string) -> Option<Item>): (r: Outcome)
    ensures r == NoNews <==> |latest| == 0
    ensures r == NothingRelevant <==> |latest| > 0 && |identify(latest)| == 0
    ensures r == CaptureFailed ==> UseLiveData(now) && !capture(UniqueTickers(identify(latest)))
    ensures r.Completed? ==> |r.saved| == |identify(latest)| && |r.alerts| <= |identify(latest)|
    // A completed run analysed every record (no record fails before the
    // end) and sent every alert, in order.
    ensures r.Completed? ==>
              && LiveTable(now, aggregate).Some?
              && var step := StepOf(LiveTable(now, aggregate).value, toMarkdown, retrieve, analyze);
                 && FirstFailed(identify(latest), step) == |identify(latest)|
                 && r.alerts == AlertsBefore(identify(latest), step, |identify(latest)|)
    // An aborted run sent the alerts of the records before the first failure;
    // a failed aggregation aborts before any.
    ensures r.Aborted? && LiveTable(now, aggregate).None? ==> r.alerts == []
    ensures r.Aborted? && LiveTable(now, aggregate).Some? ==>
              var step := StepOf(LiveTable(now, aggregate).value, toMarkdown, retrieve, analyze);
              && FirstFailed(identify(latest), step) < |identify(latest)|
              && r.alerts == AlertsBefore(identify(latest), step, FirstFailed(identify(latest), step))
  {
    if |latest| == 0 then NoNews
    else
      var records := identify(latest);
      if |records| == 0 then NothingRelevant
      else if UseLiveData(now) && !capture(UniqueTickers(records)) then CaptureFailed
      else
        match LiveTable(now, aggregate)
        case None => Aborted([])
        case Some(result) =>
          var step := StepOf(result, toMarkdown, retrieve, analyze);
          var loop := AnalyzeAll(records, step);
          AnalyzeAllExact(records, step);
          if loop.failed then Aborted(loop.alerts)
          else Completed(loop.alerts, ConvertNewsToDocuments(RecordItems(records)))
  }

  /** Outside market hours the job neither captures nor aggregates ticks:
      its outcome is the same whatever the capture and the aggregation would
      have done. */
  lemma ClosedMarketIgnoresTicks(latest: seq<Item>, identify: seq<Item> -> seq<Prediction>,
                                 now: TimeOfDay, capture: set<string> -> bool,
                                 aggregate: Option<map<string, Frame>>,
                                 capture': set<string> -> bool, aggregate': Option<map<string, Frame>>,
                                 toMarkdown: Frame -> string, retrieve: string -> Option<seq<Document>>,
                                 analyze: (string, string, string, string) -> Option<Item>)
    requires !UseLiveData(now)
    ensures JobRunner(latest, identify, now, capture, aggregate, toMarkdown, retrieve, analyze)
            == JobRunner(latest, identify, now, capture', aggregate', toMarkdown, retrieve, analyze)
    ensures !JobRunner(latest, identify, now, capture, aggregate,
                       toMarkdown, retrieve, analyze).CaptureFailed?
  {
  }

  /** What the run saves: one document per record, each with an empty
      title, content and date, because the records hold the article under
      the key "article" rather than at the top level. */
  lemma SavedDocumentsBlank(records: seq<Prediction>)
    ensures |ConvertNewsToDocuments(RecordItems(records))| == |records|
    ensures forall d :: d in ConvertNewsToDocuments(RecordItems(records)) ==>
              d.pageContent == "\n\n" && d.metadata["published_at"] == "" && d.metadata["title"] == ""
  {
    var docs := ConvertNewsToDocuments(RecordItems(records));
    forall d | d in docs
      ensures d.pageContent == "\n\n" && d.metadata["published_at"] == "" && d.metadata["title"] == ""
    {
      var i :| 0 <= i < |docs| && docs[i] == d;
      UntitledIsSeparator(RecordItem(records[i]));
    }
  }

  /** The documents a completed run saves have no date, so the next
      `clean_old_documents` drops every one of them, whatever the cutoff. */
  lemma SavedDocumentsSwept(records: seq<Prediction>, cutoff: Instant,
                            fromIso: string -> Option<ParsedTime>)
    requires fromIso("") == None
    ensures FreshDocs(ConvertNewsToDocuments(RecordItems(records)), cutoff, fromIso) == []
  {
    var docs := ConvertNewsToDocuments(RecordItems(records));
    SavedDocumentsBlank(records);
    var kept := FreshDocs(docs, cutoff, fromIso);
    if |kept| > 0 {
      assert kept[0] in docs;
      UndatedDropped(kept[0], cutoff, fromIso);
      assert false;
    }
  }
}
