/**
 The Naver breaking-news spider: choosing which article links of the listing
 page to follow, and turning one article page into the record the feed
 exporter writes. CSS/XPath evaluation is left to the crawling framework, so
 each selector's result arrives here as an optional string.
 */
module NaverSpider {
  import opened Wrappers
  import opened Text

  /** At most this many listing links are followed. */
  const MaxLinks: nat := 60
  /** Prefix given to links that are not already absolute. */
  const ArticleHost: string := "https://n.news.naver.com"
  const AbsoluteMark: string := "http"

  const TitlePlaceholder: string := "제목 없음"
  const ContentPlaceholder: string := ""
  const DatePlaceholder: string := "날짜 없음"
  /** Every record leaves the spider waiting for summarisation. */
  const PendingStatus: string := "pending"

  function Min(a: nat, b: nat): nat {
    if a <= b then a else b
  }

  /** The record one article page yields. */
  datatype Article = Article(title: string, content: string, date: string, url: string, summaryStatus: string)

  /** What the three selectors found on one article page, and the page's own URL. */
  datatype ArticlePage = ArticlePage(url: string, title: Option<string>, content: Option<string>, date: Option<string>)

  /** The record produced for a page, together with the spider's article counter afterwards. */
  datatype Parsed = Parsed(article: Article, count: nat)

  /** Python truthiness of an optional selector result: neither `None` nor the empty string. */
  predicate Present(o: Option<string>) {
    o.Some? && o.value != ""
  }

  /** The URL requested for one listing link. */
  function Absolutize(link: string): (r: string)
    ensures StartsWith(r, AbsoluteMark)
    ensures |link| <= |r| && r[|r| - |link|..] == link
    ensures StartsWith(link, AbsoluteMark) ==> r == link
    ensures !StartsWith(link, AbsoluteMark) ==> r == ArticleHost + link
  {
    if StartsWith(link, AbsoluteMark) then link
    else
      assert (ArticleHost + link)[..|AbsoluteMark|] == AbsoluteMark;
      ArticleHost + link
  }

  /** Absolutising twice is absolutising once. */
  lemma AbsolutizeIdempotent(link: string)
    ensures Absolutize(Absolutize(link)) == Absolutize(link)
  {
  }

  /** The request URLs for `links`, one per link and in the same order. */
  function AbsolutizeAll(links: seq<string>): (r: seq<string>)
    ensures |r| == |links|
    ensures forall i :: 0 <= i < |links| ==> r[i] == Absolutize(links[i])
  {
    if links == [] then []
    else [Absolutize(links[0])] + AbsolutizeAll(links[1..])
  }

  /** The requests the listing page produces: its first 60 links, made absolute. */
  function ListingRequests(links: seq<string>): (r: seq<string>)
    ensures |r| == Min(|links|, MaxLinks)
    ensures forall i :: 0 <= i < |r| ==> r[i] == Absolutize(links[i])
    ensures forall i :: 0 <= i < |r| ==> StartsWith(r[i], AbsoluteMark)
  {
    AbsolutizeAll(links[..Min(|links|, MaxLinks)])
  }

  /** A listing of at most 60 links that are all absolute is requested exactly as given. */
  lemma AbsoluteListingUnchanged(links: seq<string>)
    requires |links| <= MaxLinks
    requires forall i :: 0 <= i < |links| ==> StartsWith(links[i], AbsoluteMark)
    ensures ListingRequests(links) == links
  {
  }

  /** Links past the first 60 never influence the requests. */
  lemma ListingIgnoresTail(links: seq<string>, more: seq<string>)
    requires |links| >= MaxLinks
    ensures ListingRequests(links + more) == ListingRequests(links)
  {
    assert (links + more)[..MaxLinks] == links[..MaxLinks];
  }

  /** Appending links only ever adds requests at the end. */
  lemma ListingPrefixMonotone(links: seq<string>, more: seq<string>)
    ensures ListingRequests(links) <= ListingRequests(links + more)
  {
    var a := ListingRequests(links);
    var b := ListingRequests(links + more);
    assert forall i :: 0 <= i < |a| ==> (links + more)[i] == links[i];
    assert a == b[..|a|];
  }

  /** One article page to its record; `count` is the spider's counter before the page. */
  function ParseArticle(count: nat, page: ArticlePage): (r: Parsed)
    ensures r.count == count + 1
    ensures r.article.url == page.url
    ensures r.article.summaryStatus == PendingStatus
    ensures !Present(page.title) ==> r.article.title == TitlePlaceholder
    ensures Present(page.title) ==> r.article.title == Strip(page.title.value)
    ensures !Present(page.content) ==> r.article.content == ContentPlaceholder
    ensures Present(page.content) ==> r.article.content == Strip(page.content.value)
    ensures !Present(page.date) ==> r.article.date == DatePlaceholder
    ensures Present(page.date) ==> r.article.date == page.date.value
  {
    var title := if Present(page.title) then Strip(page.title.value) else TitlePlaceholder;
    var content := if Present(page.content) then Strip(page.content.value) else ContentPlaceholder;
    var date := if Present(page.date) then page.date.value else DatePlaceholder;
    Parsed(Article(title, content, date, page.url, PendingStatus), count + 1)
  }

  /** Neither the title nor the content of a record has whitespace at either end. */
  lemma ParsedTextIsTrimmed(count: nat, page: ArticlePage)
    ensures var a := ParseArticle(count, page).article;
      && (a.title == [] || (!IsSpace(a.title[0]) && !IsSpace(a.title[|a.title| - 1])))
      && (a.content == [] || (!IsSpace(a.content[0]) && !IsSpace(a.content[|a.content| - 1])))
  {
  }

  /**
   The title placeholder appears only for a missing or empty title, or for a
   title that is itself the placeholder text; a whitespace-only title gives
   the empty string, not the placeholder.
   */
  lemma TitlePlaceholderOnlyWhenMissing(count: nat, page: ArticlePage)
    ensures ParseArticle(count, page).article.title == TitlePlaceholder
      <==> !Present(page.title) || Strip(page.title.value) == TitlePlaceholder
    ensures Present(page.title) && AllSpace(page.title.value) ==> ParseArticle(count, page).article.title == ""
  {
    if Present(page.title) {
      StripEmptyIffAllSpace(page.title.value);
    }
  }

  /** Parsing the reply pages in turn: one record per page, and the counter advances by one each time. */
  function ParseArticles(count: nat, pages: seq<ArticlePage>): (r: (seq<Article>, nat))
    ensures |r.0| == |pages|
    ensures r.1 == count + |pages|
    ensures forall i :: 0 <= i < |pages| ==> r.0[i] == ParseArticle(count + i, pages[i]).article
    ensures forall i :: 0 <= i < |pages| ==> r.0[i].url == pages[i].url
    decreases pages
  {
    if pages == [] then ([], count)
    else
      var first := ParseArticle(count, pages[0]);
      var rest := ParseArticles(first.count, pages[1..]);
      ([first.article] + rest.0, rest.1)
  }
}
