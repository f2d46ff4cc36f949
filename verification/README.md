# Naver news crawl and store, modelled in Dafny

The system crawls the Naver breaking-news listing page with a Scrapy spider,
writes one JSON line per article, and a Celery task then stores every article
whose `url` is not yet in the MongoDB `articles` collection. This project
models the two pieces of logic the repository itself authors:

- **Link selection and record shaping** (`naver_spider.py`). The spider keeps
  the first 60 listing links in order and makes each absolute by prefixing
  `https://n.news.naver.com` to any link not starting with `"http"`. For each
  article page it builds a five-field record from three optional selector
  results, falling back to `"제목 없음"`, `""` and `"날짜 없음"`, with
  `summary_status` always `"pending"`.
- **Dedup-and-insert over the crawl output** (`celery_task.py`). The task
  returns early when the crawl exits nonzero or leaves no output file.
  Otherwise it reads the file line by line. It skips lines that strip to
  nothing and lines that fail JSON decoding. It inserts each decoded object
  for which `find_one` on its `url` finds nothing, and counts the inserts.

Files:

- `wrappers.dfy` — `Option`, the stand-in for Python's `None`.
- `text.dfy` — Python's `str.strip()`, its whitespace set and `str.startswith`.
- `naver_spider.dfy` — module `NaverSpider`: listing requests and article records.
- `celery_task.dfy` — module `CeleryTask`: line classification, the insert loop
  as a fold (`Ingest`), the loop as a method (`StoreFile`), and the task's early returns.
- `pipeline.dfy` — module `Pipeline`: what the spider's records become in the
  output file, and what storing them guarantees.

Selector results, the JSON decoder's outcome per line, the crawl's exit code
and the output file's existence are all inputs. The collection is the sequence
of its documents in insertion order. A document's key is `Option<string>`:
`None` stands for an absent `url` key or a JSON null. As in MongoDB, a `None`
key matches other `None`-keyed documents.

## Model

| member | source | states |
|---|---|---|
| Text.Strip | naver_spider.py:44-45 | the result is a contiguous middle part of the input; what it drops at both ends is whitespace; it has no whitespace at either end |
| Text.StripEmptyIffAllSpace | celery_task.py:52-53 | a line strips to the empty string exactly when every character is whitespace, so `not line.strip()` skips exactly the whitespace-only lines |
| Text.StripIdempotent | naver_spider.py:44-45 | stripping an already stripped title or content changes nothing |
| NaverSpider.Absolutize | naver_spider.py:22-23 | the requested URL starts with `"http"` and ends with the original link; a link already starting with `"http"` is kept as is, any other is prefixed with the article host |
| NaverSpider.AbsolutizeIdempotent | naver_spider.py:22-23 | absolutising an already requested URL gives it back unchanged |
| NaverSpider.ListingRequests | naver_spider.py:20-24 | exactly min(number of links, 60) requests, so none for no links; the i-th request is the absolutised i-th link, with no reordering or dropping; every request URL starts with `"http"` |
| NaverSpider.AbsoluteListingUnchanged | naver_spider.py:21-24 | at most 60 links that are all absolute are requested exactly as listed |
| NaverSpider.ListingIgnoresTail | naver_spider.py:21 | links after the 60th have no effect on the requests |
| NaverSpider.ListingPrefixMonotone | naver_spider.py:21-24 | adding links to the end of the listing only adds requests at the end |
| NaverSpider.ParseArticle | naver_spider.py:26-49 | the counter grows by one; `url` is the response URL; status is `"pending"`; title and content are the stripped raw values when present (not `None` and not empty) and `"제목 없음"` / `""` otherwise; the date is the raw value unmodified when present and `"날짜 없음"` otherwise |
| NaverSpider.ParsedTextIsTrimmed | naver_spider.py:44-45 | a record's title and content never begin or end with whitespace |
| NaverSpider.TitlePlaceholderOnlyWhenMissing | naver_spider.py:44 | the title is `"제목 없음"` exactly when the raw title is missing or empty or strips to that same text; a whitespace-only raw title gives `""` |
| NaverSpider.ParseArticles | naver_spider.py:38-48 | parsing pages in turn yields one record per page with that page's URL, and the counter ends exactly the number of pages higher |
| CeleryTask.Classify | celery_task.py:52-59 | a line is skipped as blank exactly when it is all whitespace; otherwise a decode error makes it malformed, an object makes it a record carrying that object, and any other JSON value makes it a line whose `.get` raises |
| CeleryTask.Admit | celery_task.py:56-58 | one loop step keeps the collection as a prefix and adds at most one document; it appends exactly when the line is a record whose `url` no stored document has; afterwards a record's `url` is always present |
| CeleryTask.Ingest | celery_task.py:49-63 | the initial collection is a prefix of the final one, so no document is modified or removed, and the final size is the initial size plus `new_count` |
| CeleryTask.IngestAbortsOnNonObject | celery_task.py:54-60 | the run ends early exactly when some line decodes to a non-object; decode errors never end it |
| CeleryTask.IngestAddsFresh | celery_task.py:56-57 | every inserted document has a `url` absent from the collection before the run, and inserted documents have pairwise different `url`s |
| CeleryTask.IngestKeepsUrlsUnique | celery_task.py:51-58 | a collection whose `url` keys are pairwise distinct keeps them distinct |
| CeleryTask.IngestAddsOnlyRecords | celery_task.py:51-57 | every inserted document is the decoded object of a line the loop reached |
| CeleryTask.IngestStoresEveryRecord | celery_task.py:51-57 | after the run, every decoded record the loop reached has its `url` in the collection |
| CeleryTask.FirstOccurrenceInserted | celery_task.py:51-58 | a record whose `url` is neither stored nor carried by an earlier record of the file is inserted |
| CeleryTask.OnlyFirstOccurrenceInserted | celery_task.py:51-58 | among records sharing a new `url`, the first one is the only inserted document with that `url` |
| CeleryTask.IngestCovered | celery_task.py:56-58 | when every record the loop reaches already has its `url` stored, the collection is unchanged and `new_count` is 0 |
| CeleryTask.Idempotent | celery_task.py:56-58 | processing the same lines again against the resulting collection inserts nothing, gives `new_count = 0`, and ends the same way |
| CeleryTask.HandleLine | celery_task.py:52-60 | the loop body raises exactly on a non-object line and then changes nothing; otherwise it leaves the collection as `Admit` does and counts one per insert |
| CeleryTask.StoreFile | celery_task.py:49-60 | the line-by-line loop ends with the collection, count and outcome of the fold `Ingest`; the old collection is a prefix of the new one and the count is the growth |
| CeleryTask.CrawlAndStore | celery_task.py:36-58 | a nonzero exit code or a missing output file ends the task before the collection is touched; a zero exit code with an existing file runs the insert loop over the file's lines; a run only grows the collection, by `new_count`, and keeps unique `url`s unique |
| CeleryTask.TaskInsertOnly | celery_task.py:36-58 | in every case the collection before the task is a prefix of the one after, unique `url`s stay unique, and the early returns leave it unchanged |
| Pipeline.ArticleDocument | naver_spider.py:43-49 | the stored object for an article has the article's URL as its key and exactly the title, content, date and summary-status fields besides, each holding the article's value |
| Pipeline.SpiderOutputStored | celery_task.py:51-58 | storing the spider's own output never ends early, inserts at most one document per article, and leaves every crawled URL in the collection |
| Pipeline.CrawledPagesStored | naver_spider.py:38-49 | storing the records parsed from a sequence of article pages never ends early, inserts at most one document per page, and leaves every page's URL in the collection |
| Pipeline.AddedBoundedByLines | celery_task.py:57-58 | `new_count` never exceeds the number of lines read |

## Left out

- Scrapy's engine: fetching, the request scheduler and its duplicate-request filter, response order, and redirects. `parse_article` receives the page URL as an input.
- NaverSpider.ListingRequests: does not model the `scrapy.Request` constructor, which escapes the URL and raises `ValueError` for a URL without a scheme such as `"http-guide.html"` (it starts with `"http"`, so it is kept unchanged). Such a link would end the generator and the later links would not be requested; the model requests every one of the first 60 links.
- CSS/XPath evaluation: the three selector results are `Option<string>` inputs.
- All `print` output, `time.time()` and `time.strftime`. In the spider the counter only drives printing, so no budget exists and none is modelled.
- The subprocess call, deleting and opening `output.json`, `load_dotenv` and environment settings. The exit code and the file's existence are inputs to `CrawlAndStore`.
- The JSON decoder and the feed exporter. Each line's decode outcome is an input. `Pipeline.ArticleDocument` assumes the exporter's line decodes back to the same five fields.
- The value types inside a decoded object other than its `url`. The other fields are modelled as decoded string values.
- A non-string `url` value such as a number. `url` is modelled as `Option<string>`.
- The `_id` field `insert_one` adds to the inserted object, and MongoDB query semantics beyond "some document has an equal `url`".
- Errors raised by reading the file (a line that is not UTF-8) or by an unreachable database. They would propagate like the non-object case but are not modelled.
- Concurrent task runs and the race between `find_one` and `insert_one`. The model is sequential.
- `lambda_handler.py`, a try/except wrapper that turns the task's outcome into a status dictionary, and `beat_schedule.py`, cron configuration only.
- Date normalisation, the notification POST and any time or count budget. The code has none of these. The date string is passed through unchanged, and a missing date becomes `"날짜 없음"`, not a null.
- The listing comment says 30 articles, but the code takes 60. The model follows the code.
- `summary_status` is the plain string `"pending"`, not a member of an enumeration.
- NaverSpider.TitlePlaceholderOnlyWhenMissing: the title is not the placeholder strictly "exactly when the raw title is missing". A raw title that strips to `"제목 없음"` yields it too, so the lemma's equivalence includes that third case.
