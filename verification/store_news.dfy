/**
 `convert_news_to_documents`: one vector-store document per news article,
 its text the title and the content, its metadata four of the article's
 fields. Loading, extending and saving the store are left out.
 */
module StoreNews {
  import opened PyDicts

  /** A LangChain `Document`: the text that is embedded and the metadata kept
      beside it. */
  datatype Document = Document(pageContent: string, metadata: map<string, string>)

  /** The document for one article (lines 14-31): missing fields read as "". */
  function ToDocument(item: Item): (d: Document)
    ensures d.pageContent == Get(item, "title", "") + "\n\n" + Get(item, "content", "")
    ensures d.metadata.Keys == {"title", "url", "published_at", "source"}
    ensures forall k :: k in d.metadata ==> d.metadata[k] == Get(item, k, "")
  {
    var title := Get(item, "title", "");
    var content := Get(item, "content", "");
    Document(title + "\n\n" + content,
             map["title" := title, "url" := Get(item, "url", ""),
                 "published_at" := Get(item, "published_at", ""),
                 "source" := Get(item, "source", "")])
  }

  /** `convert_news_to_documents(news_items)`. */
  function ConvertNewsToDocuments(items: seq<Item>): (docs: seq<Document>)
    ensures |docs| == |items|
    ensures forall i :: 0 <= i < |items| ==> docs[i] == ToDocument(items[i])
  {
    seq(|items|, i requires 0 <= i < |items| => ToDocument(items[i]))
  }

  /** An article with neither a title nor a content is stored as the bare
      separator. */
  lemma UntitledIsSeparator(item: Item)
    requires "title" !in item && "content" !in item
    ensures ToDocument(item).pageContent == "\n\n"
  {
  }
}
