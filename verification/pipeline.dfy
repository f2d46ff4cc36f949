/**
 The hand-off between the spider and the task: the feed exporter writes each
 article record as one JSON line, which the task reads back as a decoded
 object whose `url` is the article's URL.
 */
module Pipeline {
  import opened Wrappers
  import opened NaverSpider
  import opened CeleryTask

  /** The JSON object the exporter writes for an article, as the task decodes it. */
  function ArticleDocument(a: Article): (d: Document)
    ensures d.url == Some(a.url)
    ensures d.fields.Keys == {"title", "content", "date", "summary_status"}
    ensures d.fields["title"] == a.title && d.fields["content"] == a.content && d.fields["date"] == a.date
    ensures d.fields["summary_status"] == a.summaryStatus
  {
    Document(map["title" := a.title, "content" := a.content, "date" := a.date, "summary_status" := a.summaryStatus], Some(a.url))
  }

  /** The output file the spider's records become, one record line per article. */
  function FeedLines(articles: seq<Article>): (lines: seq<Line>)
    ensures |lines| == |articles|
    ensures forall i :: 0 <= i < |articles| ==> lines[i] == Record(ArticleDocument(articles[i]))
  {
    if articles == [] then [] else [Record(ArticleDocument(articles[0]))] + FeedLines(articles[1..])
  }

  /**
   Storing the spider's own output never aborts, inserts at most one document
   per article, and afterwards every crawled URL is in the collection.
   */
  lemma SpiderOutputStored(store: seq<Document>, articles: seq<Article>)
    ensures var r := Ingest(store, FeedLines(articles));
      && !r.aborted
      && r.newCount <= |articles|
      && forall i :: 0 <= i < |articles| ==> HasUrl(r.store, Some(articles[i].url))
  {
    var lines := FeedLines(articles);
    var r := Ingest(store, lines);
    IngestAbortsOnNonObject(store, lines);
    IngestStoresEveryRecord(store, lines);
    IngestAddsOnlyRecords(store, lines);
    assert Handled(lines) == |lines|;
    assert lines[..Handled(lines)] == lines;
    AddedBoundedByLines(store, lines);
  }

  /** A run inserts at most one document per line. */
  lemma {:induction false} AddedBoundedByLines(store: seq<Document>, lines: seq<Line>)
    ensures Ingest(store, lines).newCount <= |lines|
    decreases |lines|
  {
    if lines != [] && !lines[0].NonObject? {
      AddedBoundedByLines(Admit(store, lines[0]), lines[1..]);
    }
  }

  /**
   A whole crawl, from the article pages to the collection: every page's URL
   is stored afterwards, the run never aborts, and it inserts at most one
   document per page.
   */
  lemma CrawledPagesStored(store: seq<Document>, count: nat, pages: seq<ArticlePage>)
    ensures var r := Ingest(store, FeedLines(ParseArticles(count, pages).0));
      && !r.aborted
      && r.newCount <= |pages|
      && forall i :: 0 <= i < |pages| ==> HasUrl(r.store, Some(pages[i].url))
  {
    var articles := ParseArticles(count, pages).0;
    SpiderOutputStored(store, articles);
    var r := Ingest(store, FeedLines(articles));
    forall i | 0 <= i < |pages|
      ensures HasUrl(r.store, Some(pages[i].url))
    {
      assert articles[i].url == pages[i].url;
    }
  }
}
