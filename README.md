# Netflix streaming feed, modelled in Dafny

`netflix_streaming_feed.py` turns the viewing-activity CSV that Netflix exports
(a `Title,Date` header, then one row per title watched) into an RSS 2.0 feed of
the twenty most recently watched titles. This project models the core of that
program:

- the `Show` record (`__init__`, `__lt__`, `__str__`, `rss`);
- the loop in `main` that reads the rows into shows, with the guid counter
  starting at 1000, the search link and the date parse;
- the newest-first sort and the cut to twenty shows;
- the text `write_feed` writes, with the item exactly as `Show.rss` writes it.

It models the library calls that core depends on:

- `time.strptime(s, "%m/%d/%y")`, including the calendar arithmetic it uses to
  fill in the weekday and the day of the year;
- `time.strftime` for the two patterns the program applies to a show's date;
- `xml.sax.saxutils.escape`;
- `urllib.parse.quote`.

Modules, one file each:

| file | module | what it holds |
|---|---|---|
| wrappers.dfy | `Wrappers` | `Option` and `Result` |
| digits.dfy | `Digits` | decimal digits, `str(n)`, two-digit zero padding |
| calendar.dfy | `Calendar` | leap years, month lengths, ordinals, weekdays |
| time_format.dfy | `TimeFormat` | `struct_time`, `strptime("%m/%d/%y")`, the two `strftime` patterns, tuple order |
| xml_escape.dfy | `XmlEscape` | `escape` and a strict reader for escaped text |
| url_quote.dfy | `UrlQuote` | UTF-8, `quote` with `safe='/'`, and its inverse |
| shows.dfy | `Shows` | the `Show` record, its order, `__str__`, the RSS item and a reader for it |
| newest_first.dfy | `NewestFirst` | `sort(reverse=True)` and `[:20]` |
| feed.dfy | `Feed` | the reading loop of `main`, `write_feed`, a reader for the feed, and `main` end to end |

The file that `main` reads arrives as a sequence of rows, each one a sequence
of fields. The file that `write_feed` writes is returned as a string. An
exception that stops `main` becomes an `Err` value: `ParseError` names which
exception it is and at which data row it was raised.

## Model

| member | source | states |
|---|---|---|
| `Shows.NewShow` | netflix_streaming_feed.py:15-19 | A show is built exactly when the date text parses; the title, url and guid are stored as given; the date is what strptime returns. |
| `TimeFormat.StrptimePadded` | netflix_streaming_feed.py:19 | strptime reads back the zero-padded `mm/dd/yy` spelling of every date it can return. |
| `TimeFormat.StrptimeUnpadded` | netflix_streaming_feed.py:19 | strptime reads back the spelling without leading zeros (`1/2/23`) too. |
| `TimeFormat.StrptimeExample` | netflix_streaming_feed.py:19 | `01/02/23` and `1/2/23` both give Monday 2 January 2023: weekday 0, day of year 2, midnight, isdst -1. |
| `TimeFormat.StrptimeExampleLater` | netflix_streaming_feed.py:19 | `01/05/23` gives Thursday 5 January 2023. |
| `TimeFormat.StrptimeWindowStart` | netflix_streaming_feed.py:19 | Year `69` is read as 1969; 31 December 1969 is a Wednesday and day 365. |
| `TimeFormat.StrptimeWindowEnd` | netflix_streaming_feed.py:19 | Year `68` is read as 2068; 31 December 2068 is a Monday and day 366. |
| `TimeFormat.StrptimeLeapDay` | netflix_streaming_feed.py:19 | 29 February is accepted in a leap year (`2/29/24`). |
| `TimeFormat.StrptimeRejectsLeapDay` | netflix_streaming_feed.py:19 | 29 February is refused in a common year (`2/29/23`); this raises ValueError. |
| `TimeFormat.StrptimeRejectsMonth` | netflix_streaming_feed.py:19 | A month outside 1-12 is refused (`13/40/99`). |
| `TimeFormat.StrptimeRejectsLongYear` | netflix_streaming_feed.py:19 | `%y` takes exactly two digits, so a four-digit year leaves text unconverted and is refused (`01/02/2023`). |
| `Calendar.DaysInMonth` | netflix_streaming_feed.py:19 | Every month has 28 to 31 days; February has 29 exactly in a leap year. |
| `Calendar.NextDayWeekday` | netflix_streaming_feed.py:19 | The weekday strptime fills in moves on by one, modulo 7, from each day to the next, across month and year ends. |
| `Calendar.NextDayOrdinal` | netflix_streaming_feed.py:19 | The ordinal of the next calendar day is one more, across month and year ends. |
| `Calendar.OrdinalIsCalendarOrder` | netflix_streaming_feed.py:19-22 | The ordinal is strictly increasing in calendar order, and equal exactly for the same date. |
| `TimeFormat.TimeLessIsChronological` | netflix_streaming_feed.py:21-22 | On dates strptime returns, the nine-field struct_time tuple comparison is calendar order (through the ordinal); neither is less exactly when they are equal. |
| `Shows.LessIsChronological` | netflix_streaming_feed.py:21-22 | `__lt__` holds exactly when the first show was watched on an earlier day. |
| `Shows.LessIsStrictWeakOrder` | netflix_streaming_feed.py:21-22 | `__lt__` is irreflexive and transitive, and "not less" is transitive, so it sorts. |
| `Shows.DescribeNamesTitleAndDate` | netflix_streaming_feed.py:24-25 | `__str__` holds the title right after `title:`, and its last ten characters are an ISO date that reads back to the show's date. |
| `TimeFormat.IsoDateRoundTrip` | netflix_streaming_feed.py:25 | The `%Y-%m-%d` date reads back to the year, month and day. |
| `TimeFormat.ItemDateRoundTrip` | netflix_streaming_feed.py:28 | The item date is 31 characters: the English weekday name, and the day, month name and year that read back to the date, followed by ` 00:00:00 -0700`. |
| `TimeFormat.ItemDateIsPlain` | netflix_streaming_feed.py:28 | The item date holds only letters, digits, spaces, `,`, `:` and `-`: never `<`, `>`, `&` or `]`. |
| `Digits.Pad2` | netflix_streaming_feed.py:28 | The two-digit zero-padded fields (`%d`, `%H`, `%M`, `%S`) are two digits that read back to the number. |
| `XmlEscape.EscapeIsPerCharacter` | netflix_streaming_feed.py:30 | The three chained replaces of `escape` (`&` first, then `>`, then `<`) act as one substitution per character, so no entity gets escaped twice. |
| `XmlEscape.UnescapeEscape` | netflix_streaming_feed.py:30 | Unescaping the escaped title gives back the title. |
| `XmlEscape.EscapeIsText` | netflix_streaming_feed.py:30 | The escaped title holds no raw `<` or `>`, and every `&` in it starts `&amp;`, `&lt;` or `&gt;`. |
| `XmlEscape.EscapePlainText` | netflix_streaming_feed.py:30 | A title with none of `&`, `<`, `>` is left unchanged by escaping. |
| `Shows.ParseItemXml` | netflix_streaming_feed.py:29-35 | Reading the item template back gives each element's text and the text after the item, provided no element text holds `<` and the description holds no `]]>`. |
| `Shows.RssCarriesShow` | netflix_streaming_feed.py:27-35 | A reader of the item `rss` writes recovers the title (after unescaping), the date, the link and the guid as it stands. The description is the raw title, ` on ` and the item date. |
| `Shows.CorrectedRssCarriesShow` | netflix_streaming_feed.py:27-35 | The corrected item, with the guid escaped, reads back the same way, and its guid unescapes to the show's guid whatever the guid holds. |
| `Shows.RssIsWellFormed` | netflix_streaming_feed.py:27-35 | In the corrected item of a show with its search link, the title, guid, date and link are escaped text (no raw `<` or `>`, every `&` an entity), and the description holds no `]]>` while the title holds none. |
| `Shows.DescriptionIsCdataSafe` | netflix_streaming_feed.py:34 | The description holds no `]]>` as long as the title holds none. |
| `Shows.GuidAsWrittenIsNotXmlText` | netflix_streaming_feed.py:33 | As written, the title `Tom & Jerry` puts a bare `&` followed by a space into `<guid>`, which is malformed XML; the corrected item's guid is escaped text. |
| `UrlQuote.Utf8RoundTrip` | netflix_streaming_feed.py:118 | Decoding the UTF-8 encoding of the title gives back the title. |
| `UrlQuote.UnquoteQuote` | netflix_streaming_feed.py:118 | Percent-decoding the quoted title gives back the title. |
| `UrlQuote.QuoteAlphabet` | netflix_streaming_feed.py:118 | The quoted title holds only letters, digits, `_.-~/` and `%`; in particular no `&`, `<` or `>`. |
| `UrlQuote.QuoteSafeText` | netflix_streaming_feed.py:118 | A title made only of safe characters is left unchanged by quoting. |
| `Shows.SearchUrlRoundTrip` | netflix_streaming_feed.py:118 | The link is the search prefix followed by a query that unquotes to the title, and it holds no `&`, `<` or `>`. |
| `Digits.ParseNatToString` | netflix_streaming_feed.py:119 | `str(n)` reads back to n. |
| `Digits.NatToStringInjective` | netflix_streaming_feed.py:119 | Different counters give different `str` texts. |
| `Feed.HeaderError` | netflix_streaming_feed.py:113-115 | Reading goes on past the header exactly when the first row is the two fields `Title`, `Date`. Otherwise the error is `MissingHeader` for an empty file, `HeaderFields` with the field count for a header that is not two fields, and `HeaderMismatch` for two other names. |
| `Feed.RowShow` | netflix_streaming_feed.py:117-119 | Data row k gives a show exactly when it has two fields and its date parses. The show has the row's title, the search link of the title, the guid title + `str(1000 + k)`, and the parsed date. |
| `Feed.RowError` | netflix_streaming_feed.py:117-119 | A data row raises exactly when it gives no show. |
| `Feed.ReadShows` | netflix_streaming_feed.py:111-120 | The reading loop succeeds exactly when every row is valid, and then yields one show per data row, in file order. Otherwise it raises the header's error or that of the first bad data row. |
| `Feed.GuidsDistinct` | netflix_streaming_feed.py:116-120 | The guids of up to 9000 data rows are pairwise different, whatever the titles. |
| `Feed.GuidsCollideAfter9000` | netflix_streaming_feed.py:116-120 | Once the counter has five digits, titles `A1` on row 0 and `A` on row 10000 get the same guid. |
| `Feed.CorrectedGuidsDistinct` | netflix_streaming_feed.py:116-120 | With a `#` between title and counter, the guids of any two different rows differ, however many rows there are and whatever the titles. |
| `NewestFirst.SortPermutes` | netflix_streaming_feed.py:121 | The sorted list is a permutation of the shows. |
| `NewestFirst.SortOrders` | netflix_streaming_feed.py:121 | No show in the sorted list is older than a show after it. |
| `NewestFirst.SortIsStable` | netflix_streaming_feed.py:121 | Shows of the same day keep their input order. |
| `NewestFirst.SortTwo` | netflix_streaming_feed.py:121 | Two shows change places only when the first is strictly older. |
| `NewestFirst.Newest` | netflix_streaming_feed.py:122 | `shows[:20]` has length min(len, 20). |
| `NewestFirst.FeedKeepsNewest` | netflix_streaming_feed.py:121-122 | The kept shows are a prefix of the sorted list, newest first, and drawn from the input. None is older than any show left out. |
| `Feed.WriteItems` | netflix_streaming_feed.py:92-93 | The text the loop writes is the item `rss` writes for every show, in order, one after the other. |
| `Feed.WriteFeed` | netflix_streaming_feed.py:81-95 | The file is the XML declaration and channel head, then the item `rss` writes for each show, then the closing tags. The status is `OK`. |
| `Feed.FeedOfReadsBack` | netflix_streaming_feed.py:84-94 | A reader that skips the prologue and reads items up to the closing tags gets back the element texts of every item, in order, whenever no element text holds `<` and no description holds `]]>`. |
| `Feed.FeedReadsBack` | netflix_streaming_feed.py:81-95 | In the file `write_feed` writes, a reader that skips the prologue finds, item by item up to the closing tags, the element texts of each show's item in order, for shows whose link and guid hold no `<` and whose title holds no `]]>`. |
| `Feed.FeedCorrectedReadsBack` | netflix_streaming_feed.py:81-95 | The file with the corrected items reads back the same way, also for titles and guids holding `<`. |
| `Feed.RowShowsRenderable` | netflix_streaming_feed.py:117-119 | Shows read from rows carry the search link of their title, and their guids add no `<` to the title, so their items read back unless a title holds `<` or `]]>`. |
| `Feed.FeedOfRows` | netflix_streaming_feed.py:111-122 | For valid rows whose titles hold no `<` or `]]>`, the feed `main` writes holds the items of min(rows, 20) shows, newest first, drawn from the rows, and reads back item by item. |
| `Feed.Run` | netflix_streaming_feed.py:111-122 | `main` writes a feed exactly when the rows are valid. The feed is that of the twenty newest shows read from the rows. Otherwise `main` stops at the first error. |
| `Feed.TwoShowsExample` | netflix_streaming_feed.py:114-122 | Titles A watched 01/02/23 and B watched 01/05/23 get guids A + `1000` and B + `1001`; B comes first, and the file holds exactly two items, B's then A's. |
| `Feed.TwoShowsFeed` | netflix_streaming_feed.py:121-122 | Two renderable shows, the second watched later: the twenty kept are the two, the later first, and the file reads back to exactly their two items in that order. |

## Left out

- Downloading the CSV (`download`, `get_auth_url`, lines 38-78) is left out: it is network I/O. The model starts from the rows of the cached file.
- The configuration reader (`cfgreader`) is left out. The two values the feed text uses, `cfg.feed.href` and `cfg.feed.title`, are the `FeedConfig` parameter. Neither is escaped, as in the source.
- Opening, reading and writing files is left out. `cfg.feed.filename` is left out with it. The written file is the string `WriteFeed` returns.
- CSV parsing (quoting, embedded newlines, a byte-order mark) is left out. Rows arrive already split into fields.
- Clock and logging are left out (lines 100, 123). The channel `pubDate`, formatted from `time.gmtime()` at line 83, is the `now` parameter.
- Command-line handling (lines 126-139) is left out.
- `Feed.ReadShows` and `Feed.Run` assume Python runs with assertions enabled. Under `python -O` the header check at line 115 is stripped and any two-field header is accepted.
- Exceptions are not caught in `main`, so an `Err` ends the run. `main` returns nothing and logs the status, which `WriteFeed` returns.
- `list.sort` is Timsort, in place. The model is a stable insertion sort over sequences. Only its result is modelled, and Timsort's result is the same: a stable sort by `__lt__`. The in-place update of the list is not modelled.
- strptime's `\d` also matches non-ASCII decimal digits. The model accepts only `0`-`9`.
- strptime and strftime are modelled in the C locale: English weekday and month names.
- struct_time's `tm_zone` and `tm_gmtoff` attributes are left out. They are not part of its tuple order.
- `quote` raises on a lone surrogate. Dafny's `char` is a Unicode scalar value, so no such title exists in the model.
- Shows.RssCarriesShow: requires that the title holds no `]]>` and the link and guid no `<`. A title holding `]]>` ends the description's CDATA section early, and a `<` in the guid ends the guid element early. The source guards against neither, and the model proves nothing about such items.
- Feed.FeedReadsBack: same restriction, through `Renderable`: no `<` in the link or guid, no `]]>` in the title.
- Feed.FeedOfRows: same restriction on the titles of the rows: no `<` and no `]]>`.
- Feed.GuidsDistinct: holds only up to 9000 data rows. With more rows the counter has five digits, and `Feed.GuidsCollideAfter9000` shows a collision.
- XmlEscape.EscapeIsText: states that `escape` leaves no raw `<` or `>` and no stray `&`; it does not state that the result is XML character data. `escape` passes control characters such as U+0001 through, and the Char production of XML 1.0 forbids them. The model does not track which characters XML allows.
- A title holding `]]>` (line 34) is kept as a restriction above rather than a finding with a corrected item. The fix is not evident from the code: it could split the CDATA section, or escape the description instead of using CDATA, and each changes the format readers see.

## Findings

| source | as written | input that shows it | evidently intended | confidence | as-written member | corrected member |
|---|---|---|---|---|---|---|
| netflix_streaming_feed.py:33 | The guid goes into `<guid>` unescaped, while the title it starts with is escaped at line 30. | The title `Tom & Jerry` on the first data row gives guid `Tom & Jerry1000`. Its `&` is followed by a space, which is not an entity reference, so the feed is not well-formed XML. | The guid is escaped like the title. | high; not executed | `Shows.GuidAsWrittenIsNotXmlText` | `Shows.RssIsWellFormed` |
| netflix_streaming_feed.py:116-119 | The guid is the title followed directly by the counter, which starts at 1000. | With more than 9000 data rows the counter reaches five digits: the title `A1` on row 0 and the title `A` on row 10000 both get the guid `A11000`. | Every row's guid is distinct. | medium; not executed | `Feed.GuidsCollideAfter9000` | `Feed.CorrectedGuidsDistinct` |

The feed itself keeps the program's output: `Feed.WriteFeed` and `Feed.Run` write the item and the guid as the source does. The corrected item (`Shows.Rss`, with `Feed.FeedTextCorrected`) and the corrected guid (`Feed.CorrectedGuid`) stand beside them, each with its intended property proved.
