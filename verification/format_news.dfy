/**
 The two prompt formatters: `format_related_news` numbers the past articles
 the retriever returns, and `format_latest_news` lays out the article under
 analysis as five labelled lines.

 The related items come from `retrieve_related_past_news`, whose date is
 `doc.metadata.get('published_at')`: a value that may be `None`. Those items
 therefore hold `Field`s, and a Python exception (`KeyError`, or
 `AttributeError` from `None.strip()`) is a `None` result.
 */
module FormatNews {
  import opened Wrappers
  import opened PyStrings
  import opened PyDicts
  import opened StoreNews
  import opened Subsequences

  /** A value of a related-news `dict`: a string, or Python's `None`. */
  datatype Field = Text(s: string) | Null

  /** The value as an f-string renders it. */
  function Render(f: Field): string {
    match f
    case Text(s) => s
    case Null => "None"
  }

  /** One item of `related_news`. */
  type RelatedItem = map<string, Field>

  /** `news_item.get("article_date", "Unknown Date")`, rendered (line 5). */
  function DateOf(item: RelatedItem): (r: string)
    ensures "article_date" !in item ==> r == "Unknown Date"
    ensures "article_date" in item ==> r == Render(item["article_date"])
  {
    Render(Get(item, "article_date", Text("Unknown Date")))
  }

  /** `news_item["article_content"]` when it is a string; `None` for the
      `KeyError` of a missing key and the `AttributeError` of `None.strip()`. */
  function ContentOf(item: RelatedItem): (r: Option<string>)
    ensures r.Some? <==> "article_content" in item && item["article_content"].Text?
    ensures r.Some? ==> r.value == item["article_content"].s
  {
    if "article_content" in item then
      match item["article_content"]
      case Text(s) => Some(s)
      case Null => None
    else None
  }

  /** The text one item contributes at position `idx` (line 8). */
  function RelatedEntry(idx: nat, date: string, content: string): string {
    NatToString(idx) + ". **[" + date + "]**:\n" + Strip(content) + "\n\n"
  }

  /** Lines 5-8 for one item: its entry, or `None` when the item has no
      string content. */
  function EntryOf(idx: nat, item: RelatedItem): (r: Option<string>)
    ensures r.Some? <==> ContentOf(item).Some?
  {
    match ContentOf(item)
    case None => None
    case Some(content) => Some(RelatedEntry(idx, DateOf(item), content))
  }

  /** `s` in front of a result that may have failed. */
  function Prepend(s: string, r: Option<string>): Option<string> {
    match r
    case None => None
    case Some(t) => Some(s + t)
  }

  /** The items rendered by `entry` and numbered from `idx`, one after the
      other, or `None` as soon as one of them fails. */
  function Numbered(items: seq<RelatedItem>, idx: nat,
                    entry: (nat, RelatedItem) -> Option<string>): Option<string>
    decreases |items|
  {
    if |items| == 0 then Some("")
    else
      var rest := Numbered(items[1..], idx + 1, entry);
      match entry(idx, items[0])
      case None => None
      case Some(e) => Prepend(e, rest)
  }

  /** `format_related_news(related_news)` (lines 1-10): the entries numbered
      from 1. It fails (the `KeyError` of line 6, the `AttributeError` of
      line 8) exactly when some item's content is missing or `None`. */
  function FormatRelatedNews(items: seq<RelatedItem>): (r: Option<string>)
    ensures r.Some? <==> forall i :: 0 <= i < |items| ==> ContentOf(items[i]).Some?
  {
    NumberedSome(items, 1, EntryOf);
    Numbered(items, 1, EntryOf)
  }

  /** The numbering fails exactly when one of the entries does. */
  lemma {:induction false} NumberedSome(items: seq<RelatedItem>, idx: nat,
                                        entry: (nat, RelatedItem) -> Option<string>)
    ensures Numbered(items, idx, entry).Some?
            <==> forall i :: 0 <= i < |items| ==> entry(idx + i, items[i]).Some?
    decreases |items|
  {
    if |items| > 0 {
      NumberedSome(items[1..], idx + 1, entry);
      assert forall i :: 1 <= i < |items| ==> items[1..][i - 1] == items[i];
    }
  }

  /** Prepending twice is prepending the two strings together. */
  lemma PrependPrepend(s: string, t: string, r: Option<string>)
    ensures Prepend(s, Prepend(t, r)) == Prepend(s + t, r)
  {
    if r.Some? {
      assert s + (t + r.value) == (s + t) + r.value;
    }
  }

  /** Lines 2-10 as written: the loop appending to `formatted`. */
  method FormatRelatedLoop(items: seq<RelatedItem>) returns (r: Option<string>)
    ensures r == FormatRelatedNews(items)
  {
    var formatted := "";
    var k := 0;
    assert items[0..] == items;
    var whole := Numbered(items, 1, EntryOf);
    assert whole == FormatRelatedNews(items);
    assert Prepend("", whole) == whole by {
      if whole.Some? {
        assert "" + whole.value == whole.value;
      }
    }
    while k < |items|
      invariant 0 <= k <= |items|
      invariant whole == Prepend(formatted, Numbered(items[k..], k + 1, EntryOf))
    {
      assert items[k..][0] == items[k] && items[k..][1..] == items[k + 1..];
      var e := EntryOf(k + 1, items[k]);
      if e.None? {
        assert whole == None;
        return None;
      }
      PrependPrepend(formatted, e.value, Numbered(items[k + 1..], k + 2, EntryOf));
      formatted := formatted + e.value;
      k := k + 1;
    }
    assert items[k..] == [];
    assert formatted + "" == formatted;
    r := Some(formatted);
  }

  /** No past news formats to the empty string. */
  lemma RelatedEmpty()
    ensures FormatRelatedNews([]) == Some("")
  {
  }

  /** Numbering a concatenation is numbering each part, the second part
      numbered on from where the first stops. */
  lemma {:induction false} NumberedAppend(a: seq<RelatedItem>, b: seq<RelatedItem>, idx: nat,
                                          entry: (nat, RelatedItem) -> Option<string>)
    requires Numbered(a, idx, entry).Some? && Numbered(b, idx + |a|, entry).Some?
    ensures Numbered(a + b, idx, entry)
            == Some(Numbered(a, idx, entry).value + Numbered(b, idx + |a|, entry).value)
    decreases |a|
  {
    if |a| == 0 {
      assert a + b == b;
      assert "" + Numbered(b, idx, entry).value == Numbered(b, idx, entry).value;
    } else {
      assert (a + b)[0] == a[0];
      assert (a + b)[1..] == a[1..] + b;
      NumberedAppend(a[1..], b, idx + 1, entry);
      var e := entry(idx, a[0]).value;
      var x := Numbered(a[1..], idx + 1, entry).value;
      var y := Numbered(b, idx + |a|, entry).value;
      assert e + (x + y) == (e + x) + y;
    }
  }

  /** One item numbered `idx` is its own entry. */
  lemma NumberedSingle(x: RelatedItem, idx: nat, entry: (nat, RelatedItem) -> Option<string>)
    ensures Numbered([x], idx, entry) == entry(idx, x)
  {
    assert [x][1..] == [];
    if entry(idx, x).Some? {
      assert entry(idx, x).value + "" == entry(idx, x).value;
    }
  }

  /** The item at `j` contributes its own entry, between the entries before
      it and those after it. */
  lemma {:induction false} NumberedAt(items: seq<RelatedItem>, j: nat, idx: nat,
                   entry: (nat, RelatedItem) -> Option<string>)
    requires j < |items|
    requires Numbered(items, idx, entry).Some?
    ensures entry(idx + j, items[j]).Some?
    ensures Numbered(items[..j], idx, entry).Some? && Numbered(items[j + 1..], idx + j + 1, entry).Some?
    ensures Numbered(items, idx, entry).value
            == Numbered(items[..j], idx, entry).value + entry(idx + j, items[j]).value
               + Numbered(items[j + 1..], idx + j + 1, entry).value
    decreases j
  {
    var e0 := entry(idx, items[0]);
    var tail := Numbered(items[1..], idx + 1, entry);
    assert e0.Some? && tail.Some?;
    if j == 0 {
      assert items[..0] == [] && items[1..] == items[j + 1..];
      assert "" + e0.value + tail.value == e0.value + tail.value;
    } else {
      NumberedAt(items[1..], j - 1, idx + 1, entry);
      assert items[1..][j - 1] == items[j];
      assert items[..j][0] == items[0] && items[..j][1..] == items[1..][..j - 1];
      assert items[1..][j..] == items[j + 1..];
      var x := Numbered(items[1..][..j - 1], idx + 1, entry).value;
      var y := entry(idx + j, items[j]).value;
      var z := Numbered(items[j + 1..], idx + j + 1, entry).value;
      assert e0.value + (x + y + z) == (e0.value + x) + y + z;
    }
  }

  /** The `i`-th item (counting from 1) contributes its own numbered entry,
      between the entries before it and those after it. */
  lemma ItemContributes(items: seq<RelatedItem>, i: nat)
    requires 1 <= i <= |items|
    requires FormatRelatedNews(items).Some?
    ensures ContentOf(items[i - 1]).Some?
    ensures Numbered(items[..i - 1], 1, EntryOf).Some? && Numbered(items[i..], i + 1, EntryOf).Some?
    ensures FormatRelatedNews(items).value
            == Numbered(items[..i - 1], 1, EntryOf).value
               + RelatedEntry(i, DateOf(items[i - 1]), ContentOf(items[i - 1]).value)
               + Numbered(items[i..], i + 1, EntryOf).value
  {
    NumberedAt(items, i - 1, 1, EntryOf);
  }

  /** An item without a date is shown as "Unknown Date"; one whose date is
      `None` is shown as "None". */
  lemma UndatedItem(content: string)
    ensures FormatRelatedNews([map["article_content" := Text(content)]])
            == Some(RelatedEntry(1, "Unknown Date", content))
    ensures FormatRelatedNews([map["article_content" := Text(content), "article_date" := Null]])
            == Some(RelatedEntry(1, "None", content))
  {
    NumberedSingle(map["article_content" := Text(content)], 1, EntryOf);
    NumberedSingle(map["article_content" := Text(content), "article_date" := Null], 1, EntryOf);
  }

  /** Lines 36-43 of `retrieve_related_past_news`: one item per retrieved
      document, its date `None` when the document has none. */
  function RelatedFromDocs(docs: seq<Document>): (items: seq<RelatedItem>)
    ensures |items| == |docs|
    ensures forall i :: 0 <= i < |docs| ==>
              items[i].Keys == {"article_content", "article_date"}
              && items[i]["article_content"] == Text(docs[i].pageContent)
              && items[i]["article_date"] == (if "published_at" in docs[i].metadata
                                              then Text(docs[i].metadata["published_at"]) else Null)
  {
    seq(|docs|, i requires 0 <= i < |docs| =>
      map["article_content" := Text(docs[i].pageContent),
          "article_date" := if "published_at" in docs[i].metadata
                            then Text(docs[i].metadata["published_at"]) else Null])
  }

  /** What the retriever returns always formats: every item has a content. */
  lemma RetrievedFormats(docs: seq<Document>)
    ensures FormatRelatedNews(RelatedFromDocs(docs)).Some?
  {
  }

  /** Lines joined by newlines: `"\n".join(ls)`. */
  function JoinLines(ls: seq<string>): string
    requires |ls| >= 1
  {
    if |ls| == 1 then ls[0] else ls[0] + "\n" + JoinLines(ls[1..])
  }

  /** The five labelled lines of `format_latest_news` (lines 14-18). */
  function LabelledLines(title: string, content: string, date: string,
                         source: string, link: string): (ls: seq<string>)
    ensures |ls| == 5
  {
    ["**Title**: " + title, "**Content**: " + content, "**Date**: " + date,
     "**Source**: " + source, "**Link**: " + link]
  }

  /** The lines for one article: the title ("N/A" when absent), the stripped
      content (""), the date ("Unknown"), the source ("Unknown") and the link
      ("N/A"). The adjacent f-strings of the source are these lines joined by
      newlines. */
  function LatestNewsLines(news: Item): (ls: seq<string>)
    ensures |ls| == 5
  {
    LabelledLines(Get(news, "title", "N/A"), Strip(Get(news, "content", "")),
                  Get(news, "published_at", "Unknown"), Get(news, "source", "Unknown"),
                  Get(news, "url", "N/A"))
  }

  /** `format_latest_news(news)`: it opens with the title line and closes
      with the link line. */
  function FormatLatestNews(news: Item): (r: string)
    ensures |r| >= 12 + |Get(news, "title", "N/A")|
    ensures r[..12 + |Get(news, "title", "N/A")|] == "**Title**: " + Get(news, "title", "N/A") + "\n"
    ensures IsSuffix("**Link**: " + Get(news, "url", "N/A"), r)
  {
    JoinLinesEnds(LatestNewsLines(news));
    JoinLines(LatestNewsLines(news))
  }

  /** The joined text starts with the first line and a newline, and ends
      with the last line. */
  lemma {:induction false} JoinLinesEnds(ls: seq<string>)
    requires |ls| >= 2
    ensures |JoinLines(ls)| >= |ls[0]| + 1
    ensures JoinLines(ls)[..|ls[0]| + 1] == ls[0] + "\n"
    ensures IsSuffix(ls[|ls| - 1], JoinLines(ls))
    decreases |ls|
  {
    var rest := JoinLines(ls[1..]);
    assert JoinLines(ls) == (ls[0] + "\n") + rest;
    if |ls| == 2 {
      assert rest == ls[1];
    } else {
      JoinLinesEnds(ls[1..]);
    }
    assert (ls[0] + "\n") + rest == ls[0] + "\n" + rest;
  }

  /** Python's `s.split("\n")`. */
  function SplitLines(s: string): (ls: seq<string>)
    ensures |ls| >= 1
    decreases |s|
  {
    if |s| == 0 then [""]
    else
      var rest := SplitLines(s[1..]);
      if s[0] == '\n' then [""] + rest else [[s[0]] + rest[0]] + rest[1..]
  }

  /** Text that stays on one line. */
  predicate OneLine(s: string) {
    forall i :: 0 <= i < |s| ==> s[i] != '\n'
  }

  /** Splitting a line, a newline and the rest gives that line, then the lines
      of the rest. */
  lemma {:induction false} SplitFirstLine(x: string, y: string)
    requires OneLine(x)
    ensures SplitLines(x + "\n" + y) == [x] + SplitLines(y)
    decreases |x|
  {
    if |x| == 0 {
      assert x + "\n" + y == "\n" + y;
      assert ("\n" + y)[1..] == y;
    } else {
      assert (x + "\n" + y)[1..] == x[1..] + "\n" + y;
      SplitFirstLine(x[1..], y);
      assert [x[0]] + x[1..] == x;
    }
  }

  /** A string with no newline is one line. */
  lemma {:induction false} SplitOneLine(x: string)
    requires OneLine(x)
    ensures SplitLines(x) == [x]
    decreases |x|
  {
    if |x| > 0 {
      SplitOneLine(x[1..]);
      assert [x[0]] + x[1..] == x;
    }
  }

  /** Splitting undoes joining, as long as no line holds a newline. */
  lemma {:induction false} SplitJoin(ls: seq<string>)
    requires |ls| >= 1
    requires forall i :: 0 <= i < |ls| ==> OneLine(ls[i])
    ensures SplitLines(JoinLines(ls)) == ls
    decreases |ls|
  {
    if |ls| == 1 {
      SplitOneLine(ls[0]);
    } else {
      assert forall i :: 0 <= i < |ls| - 1 ==> ls[1..][i] == ls[i + 1];
      SplitJoin(ls[1..]);
      SplitFirstLine(ls[0], JoinLines(ls[1..]));
      assert [ls[0]] + ls[1..] == ls;
    }
  }

  lemma OneLineConcat(a: string, b: string)
    requires OneLine(a) && OneLine(b)
    ensures OneLine(a + b)
  {
    assert forall i :: |a| <= i < |a + b| ==> (a + b)[i] == b[i - |a|];
  }

  /** Labelled one-line fields split back into exactly those lines. */
  lemma LabelledSplits(title: string, content: string, date: string, source: string, link: string)
    requires OneLine(title) && OneLine(content) && OneLine(date) && OneLine(source) && OneLine(link)
    ensures SplitLines(JoinLines(LabelledLines(title, content, date, source, link)))
            == LabelledLines(title, content, date, source, link)
  {
    OneLineConcat("**Title**: ", title);
    OneLineConcat("**Content**: ", content);
    OneLineConcat("**Date**: ", date);
    OneLineConcat("**Source**: ", source);
    OneLineConcat("**Link**: ", link);
    SplitJoin(LabelledLines(title, content, date, source, link));
  }

  /** When no field spans several lines, the formatted news splits back into
      exactly its five labelled lines, in order. */
  lemma LatestNewsSplits(news: Item)
    requires OneLine(Get(news, "title", "N/A")) && OneLine(Strip(Get(news, "content", "")))
    requires OneLine(Get(news, "published_at", "Unknown")) && OneLine(Get(news, "source", "Unknown"))
    requires OneLine(Get(news, "url", "N/A"))
    ensures SplitLines(FormatLatestNews(news)) == LatestNewsLines(news)
  {
    LabelledSplits(Get(news, "title", "N/A"), Strip(Get(news, "content", "")),
                   Get(news, "published_at", "Unknown"), Get(news, "source", "Unknown"),
                   Get(news, "url", "N/A"));
  }
}
