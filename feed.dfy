/** main and write_feed: the rows of the viewing-activity CSV become shows,
    the shows are sorted newest first, and the twenty newest are written as
    an RSS 2.0 feed. */
module Feed {
  import opened Wrappers
  import opened Digits
  import opened UrlQuote
  import opened TimeFormat
  import opened Shows
  import opened NewestFirst

  // ------------------------------------------------------- reading the CSV

  /** Why reading the rows stops: the exception main raises. */
  datatype ParseError =
    | MissingHeader                      // next(reader) on an empty file
    | HeaderFields(count: nat)           // the header does not unpack into two names
    | HeaderMismatch                     // the header is not Title, Date
    | RowFields(row: nat, count: nat)    // data row `row` does not unpack into two fields
    | BadDate(row: nat)                  // strptime refuses the date of data row `row`

  /** The counter the first data row's guid carries. */
  const FirstGuid: nat := 1000

  /** What is wrong with the header row, if anything. */
  function HeaderError(rows: seq<seq<string>>): (r: Option<ParseError>)
    ensures r == None <==> |rows| > 0 && rows[0] == ["Title", "Date"]
    ensures |rows| == 0 ==> r == Some(MissingHeader)
    ensures |rows| > 0 && |rows[0]| != 2 ==> r == Some(HeaderFields(|rows[0]|))
    ensures |rows| > 0 && |rows[0]| == 2 && rows[0] != ["Title", "Date"] ==> r == Some(HeaderMismatch)
  {
    if |rows| == 0 then Some(MissingHeader)
    else if |rows[0]| != 2 then Some(HeaderFields(|rows[0]|))
    else if !(rows[0][0] == "Title" && rows[0][1] == "Date") then Some(HeaderMismatch)
    else None
  }

  /** The show data row k (counting from 0 after the header) becomes: its
      title, the search link for it, the title followed by the counter as
      guid, and its date; None where the row is not two fields or the date
      does not parse. */
  function RowShow(row: seq<string>, k: nat): (r: Option<Show>)
    ensures r.Some? <==> |row| == 2 && Strptime(row[1]).Some?
    ensures r.Some? ==> && r.value.title == row[0]
                        && r.value.url == SearchUrl(row[0])
                        && r.value.guid == row[0] + NatToString(FirstGuid + k)
                        && Some(r.value.date) == Strptime(row[1])
  {
    if |row| != 2 then None
    else NewShow(row[0], SearchUrl(row[0]), row[0] + NatToString(FirstGuid + k), row[1])
  }

  /** What is wrong with data row k, if anything. */
  function RowError(row: seq<string>, k: nat): (r: Option<ParseError>)
    ensures r == None <==> RowShow(row, k).Some?
  {
    if |row| != 2 then Some(RowFields(k, |row|))
    else if RowShow(row, k).None? then Some(BadDate(k))
    else None
  }

  /** Every data row makes a show. */
  predicate DataValid(data: seq<seq<string>>) {
    forall k :: 0 <= k < |data| ==> RowError(data[k], k) == None
  }

  /** The file main reads without raising. */
  predicate RowsValid(rows: seq<seq<string>>) {
    HeaderError(rows) == None && DataValid(rows[1..])
  }

  /** shows holds one show per data row, in file order. */
  predicate ConvertedFrom(data: seq<seq<string>>, shows: seq<Show>) {
    |shows| == |data| && forall k :: 0 <= k < |data| ==> RowShow(data[k], k) == Some(shows[k])
  }

  /** e is what main raises first: the header's fault, or else the fault
      of the first data row that has one. */
  predicate FirstError(rows: seq<seq<string>>, e: ParseError) {
    if HeaderError(rows).Some? then e == HeaderError(rows).value
    else
      var data := rows[1..];
      exists k :: 0 <= k < |data| && RowError(data[k], k) == Some(e)
                  && forall j :: 0 <= j < k ==> RowError(data[j], j) == None
  }

  /** The reading loop of main: unpacks the header and checks it, then
      makes one show per data row with the guid counter counting up from
      1000, stopping at the first row that raises. */
  method ReadShows(rows: seq<seq<string>>) returns (r: Result<seq<Show>, ParseError>)
    ensures r.Ok? <==> RowsValid(rows)
    ensures r.Ok? ==> ConvertedFrom(rows[1..], r.value)
    ensures r.Err? ==> FirstError(rows, r.error)
  {
    if |rows| == 0 {
      return Err(MissingHeader);
    }
    if |rows[0]| != 2 {
      return Err(HeaderFields(|rows[0]|));
    }
    if !(rows[0][0] == "Title" && rows[0][1] == "Date") {
      return Err(HeaderMismatch);
    }
    ghost var data := rows[1..];
    var shows: seq<Show> := [];
    var guid := FirstGuid;
    var i := 1;
    while i < |rows|
      invariant 1 <= i <= |rows|
      invariant guid == FirstGuid + (i - 1)
      invariant |shows| == i - 1
      invariant forall k :: 0 <= k < i - 1 ==> RowShow(data[k], k) == Some(shows[k])
    {
      var row := rows[i];
      assert row == data[i - 1];
      if |row| != 2 {
        assert RowError(data[i - 1], i - 1) == Some(RowFields(i - 1, |row|));
        return Err(RowFields(i - 1, |row|));
      }
      var title := row[0];
      var url := SearchPrefix + Quote(title);
      var show := NewShow(title, url, title + NatToString(guid), row[1]);
      if show.None? {
        assert RowError(data[i - 1], i - 1) == Some(BadDate(i - 1));
        return Err(BadDate(i - 1));
      }
      shows := shows + [show.value];
      guid := guid + 1;
      i := i + 1;
    }
    return Ok(shows);
  }

  /** Each guid ends in its row's four-digit counter, so the guids of up to
      9000 data rows are all different, whatever the titles. */
  lemma {:induction false} GuidsDistinct(data: seq<seq<string>>, shows: seq<Show>)
    requires ConvertedFrom(data, shows) && |shows| <= 9000
    ensures forall i, j :: 0 <= i < j < |shows| ==> shows[i].guid != shows[j].guid
  {
    forall i, j | 0 <= i < j < |shows| ensures shows[i].guid != shows[j].guid {
      assert RowShow(data[i], i) == Some(shows[i]);
      assert RowShow(data[j], j) == Some(shows[j]);
      CounterSuffix(data[i][0], FirstGuid + i);
      CounterSuffix(data[j][0], FirstGuid + j);
      NatToStringInjective(FirstGuid + i, FirstGuid + j);
    }
  }

  /** A four-digit counter is the last four characters of the guid. */
  lemma {:induction false} CounterSuffix(title: string, n: nat)
    requires 1000 <= n < 10000
    ensures var g := title + NatToString(n); |g| >= 4 && g[|g| - 4..] == NatToString(n)
  {
    FourDigits(n);
    var g := title + NatToString(n);
    assert g[|g| - 4..] == g[|title|..];
  }

  /** Past 9000 data rows the counter gets a fifth digit, and the guid of
      title "A" on row 10000 is the guid of title "A1" on row 0. */
  lemma {:induction false} GuidsCollideAfter9000(date: string)
    requires Strptime(date).Some?
    ensures RowShow(["A1", date], 0).value.guid == RowShow(["A", date], 10000).value.guid
  {
    assert RowShow(["A1", date], 0).value.guid == "A1" + NatToString(1000);
    assert RowShow(["A", date], 10000).value.guid == "A" + NatToString(11000);
    CollidingCounters();
  }

  lemma {:induction false} CollidingCounters()
    ensures "A1" + NatToString(1000) == "A" + NatToString(11000)
  {
    assert NatToString(1000) == "1000" by {
      assert NatToString(1) == "1";
      assert NatToString(10) == "10";
      assert NatToString(100) == "100";
    }
    assert NatToString(11000) == "11000" by {
      assert NatToString(11) == "11";
      assert NatToString(110) == "110";
      assert NatToString(1100) == "1100";
    }
  }

  /** The guid with a '#' between the title and the counter. The counter
      holds no '#', so the last '#' marks where it starts. */
  function CorrectedGuid(title: string, n: nat): string {
    title + "#" + NatToString(n)
  }

  /** Corrected guids of different rows differ however many rows there
      are, whatever the titles. */
  lemma {:induction false} CorrectedGuidsDistinct(t1: string, t2: string, j: nat, k: nat)
    requires j != k
    ensures CorrectedGuid(t1, FirstGuid + j) != CorrectedGuid(t2, FirstGuid + k)
  {
    var d1, d2 := NatToString(FirstGuid + j), NatToString(FirstGuid + k);
    var g1, g2 := CorrectedGuid(t1, FirstGuid + j), CorrectedGuid(t2, FirstGuid + k);
    NatToStringInjective(FirstGuid + j, FirstGuid + k);
    if |g1| == |g2| {
      if |d1| == |d2| {
        assert g1[|g1| - |d1|..] == d1;
        assert g2[|g2| - |d2|..] == d2;
      } else if |d1| < |d2| {
        CounterMarkAt(t1, t2, FirstGuid + j, FirstGuid + k);
      } else {
        CounterMarkAt(t2, t1, FirstGuid + k, FirstGuid + j);
      }
    }
  }

  /** Where the shorter counter's '#' stands, the longer counter has a digit. */
  lemma {:induction false} CounterMarkAt(t1: string, t2: string, m: nat, n: nat)
    requires |CorrectedGuid(t1, m)| == |CorrectedGuid(t2, n)|
    requires |NatToString(m)| < |NatToString(n)|
    ensures CorrectedGuid(t1, m) != CorrectedGuid(t2, n)
  {
    var g1, g2 := CorrectedGuid(t1, m), CorrectedGuid(t2, n);
    var p := |g1| - |NatToString(m)| - 1;
    assert g1[p] == '#';
    assert g2[p] == NatToString(n)[p - |t2| - 1];
    assert IsDigit(g2[p]);
  }

  // ---------------------------------------------------- writing the feed

  /** The [feed] section of the configuration the feed text uses. */
  datatype FeedConfig = FeedConfig(href: string, title: string)

  /** The XML declaration and the opening rss tag. */
  const XmlDeclaration: string :=
    "<?xml version=\"1.0\" encoding=\"utf-8\"?>\n<rss xmlns:atom=\"http://www.w3.org/2005/Atom\" version=\"2.0\">\n"

  /** The channel's own elements; now is the time of writing, already formatted. */
  function ChannelHead(cfg: FeedConfig, now: string): string {
    "<channel>\n<atom:link href=\"" + (cfg.href
      + ("\" rel=\"self\" type=\"application/rss+xml\" /><title>" + (cfg.title
      + ("</title><link>https://www.netflix.com/</link><pubDate>" + (now
      + ("</pubDate><description>" + (cfg.title
      + "</description><language>en-us</language>\n")))))))
  }

  /** Everything before the first item. */
  function Prologue(cfg: FeedConfig, now: string): string {
    XmlDeclaration + ChannelHead(cfg, now)
  }

  /** The end of the channel and of the document. */
  const Closing: string := "</channel></rss>\n"

  /** The texts of ss, one after the other. */
  function Concat(ss: seq<string>): string {
    if ss == [] then [] else ss[0] + Concat(ss[1..])
  }

  lemma {:induction false} ConcatSnoc(ss: seq<string>, s: string)
    ensures Concat(ss + [s]) == Concat(ss) + s
  {
    if ss == [] {
      assert [s][1..] == [];
    } else {
      assert (ss + [s])[1..] == ss[1..] + [s];
      ConcatSnoc(ss[1..], s);
    }
  }

  /** The element texts of the item Show.rss writes for each show, in order. */
  function FieldsOf(shows: seq<Show>): (r: seq<ItemFields>)
    ensures |r| == |shows|
    ensures forall i :: 0 <= i < |shows| ==> r[i] == RssFieldsAsWritten(shows[i])
  {
    if shows == [] then [] else [RssFieldsAsWritten(shows[0])] + FieldsOf(shows[1..])
  }

  /** The element texts of the corrected item of each show, in order. */
  function CorrectedFieldsOf(shows: seq<Show>): (r: seq<ItemFields>)
    ensures |r| == |shows|
    ensures forall i :: 0 <= i < |shows| ==> r[i] == RssFields(shows[i])
  {
    if shows == [] then [] else [RssFields(shows[0])] + CorrectedFieldsOf(shows[1..])
  }

  /** The item text of each element-text record, in order. */
  function ItemTexts(fs: seq<ItemFields>): (r: seq<string>)
    ensures |r| == |fs|
  {
    if fs == [] then [] else [ItemXml(fs[0])] + ItemTexts(fs[1..])
  }

  lemma {:induction false} ItemTextsAt(fs: seq<ItemFields>, i: nat)
    requires i < |fs|
    ensures ItemTexts(fs)[i] == ItemXml(fs[i])
  {
    if i > 0 {
      ItemTextsAt(fs[1..], i - 1);
    }
  }

  /** The items, one after the other. */
  function ItemsOf(fs: seq<ItemFields>): string {
    Concat(ItemTexts(fs))
  }

  lemma {:induction false} ItemsCons(fs: seq<ItemFields>)
    requires fs != []
    ensures ItemsOf(fs) == ItemXml(fs[0]) + ItemsOf(fs[1..])
  {
    assert ItemTexts(fs) == [ItemXml(fs[0])] + ItemTexts(fs[1..]);
  }

  /** A feed whose items carry the element texts fs. */
  function FeedOf(cfg: FeedConfig, now: string, fs: seq<ItemFields>): string {
    Prologue(cfg, now) + (ItemsOf(fs) + Closing)
  }

  /** The whole file write_feed produces: one item per show, as Show.rss
      writes it. */
  function FeedText(cfg: FeedConfig, now: string, shows: seq<Show>): string {
    FeedOf(cfg, now, FieldsOf(shows))
  }

  /** The file with the corrected item of each show, the guid escaped. */
  function FeedTextCorrected(cfg: FeedConfig, now: string, shows: seq<Show>): string {
    FeedOf(cfg, now, CorrectedFieldsOf(shows))
  }

  /** Text i follows the texts before it. */
  lemma {:induction false} ConcatStep(texts: seq<string>, i: nat)
    requires i < |texts|
    ensures Concat(texts[..i]) + texts[i] == Concat(texts[..i + 1])
  {
    ConcatSnoc(texts[..i], texts[i]);
    assert texts[..i + 1] == texts[..i] + [texts[i]];
  }

  /** The loop of write_feed: the text it writes after the prologue, the
      item of each show in order. */
  method WriteItems(shows: seq<Show>) returns (items: string)
    ensures items == ItemsOf(FieldsOf(shows))
  {
    items := "";
    assert ItemTexts(FieldsOf(shows))[..0] == [];
    var i := 0;
    while i < |shows|
      invariant 0 <= i <= |shows|
      invariant items == Concat(ItemTexts(FieldsOf(shows))[..i])
    {
      WriteStep(shows, i);
      items := items + RssAsWritten(shows[i]);
      i := i + 1;
    }
    assert ItemTexts(FieldsOf(shows))[..i] == ItemTexts(FieldsOf(shows));
  }

  /** One turn of the loop: the item of show i follows the items before it. */
  lemma {:induction false} WriteStep(shows: seq<Show>, i: nat)
    requires i < |shows|
    ensures Concat(ItemTexts(FieldsOf(shows))[..i]) + RssAsWritten(shows[i])
         == Concat(ItemTexts(FieldsOf(shows))[..i + 1])
  {
    ItemTextsAt(FieldsOf(shows), i);
    ConcatStep(ItemTexts(FieldsOf(shows)), i);
  }

  /** write_feed: writes the prologue, one item per show and the closing
      tags, and reports "OK". The file is the text returned. */
  method WriteFeed(shows: seq<Show>, cfg: FeedConfig, now: string) returns (status: string, written: string)
    ensures status == "OK"
    ensures written == FeedText(cfg, now, shows)
  {
    status := "OK";
    written := Prologue(cfg, now);
    var items := WriteItems(shows);
    written := written + (items + Closing);
  }

  // ----------------------------------------------------- reading it back

  /** Reads items one after the other up to the closing tags. */
  function ReadItems(t: string): Option<seq<ItemFields>>
    decreases |t|
  {
    if t == Closing then Some([])
    else
      var item :- ParseItem(t);
      var more :- ReadItems(item.1);
      Some([item.0] + more)
  }

  /** The element texts of the items of a feed that starts with prologue. */
  function ReadFeed(t: string, prologue: string): Option<seq<ItemFields>> {
    var body :- After(t, prologue);
    ReadItems(body)
  }

  lemma {:induction false} ClosingIsNoItem()
    ensures ParseItem(Closing) == None
  {
    assert Closing[..13] != "<item><title>" by {
      assert Closing[1] != 'i';
    }
  }

  lemma {:induction false} ReadItemsCons(t: string, f: ItemFields, rest: string)
    requires ParseItem(t) == Some((f, rest))
    ensures ReadItems(rest).Some? ==> ReadItems(t) == Some([f] + ReadItems(rest).value)
  {
    ClosingIsNoItem();
  }

  /** Items whose element texts are readable read back, one after the
      other, up to the closing tags. */
  lemma {:induction false} ReadItemsOf(fs: seq<ItemFields>)
    requires forall i :: 0 <= i < |fs| ==> Readable(fs[i])
    ensures ReadItems(ItemsOf(fs) + Closing) == Some(fs)
  {
    if fs != [] {
      var rest := ItemsOf(fs[1..]) + Closing;
      assert ItemsOf(fs) + Closing == ItemXml(fs[0]) + rest by {
        ItemsCons(fs);
        Assoc(ItemXml(fs[0]), ItemsOf(fs[1..]), Closing);
      }
      ReadItemsOf(fs[1..]);
      ReadItemStep(fs[0], rest, fs[1..]);
      assert fs == [fs[0]] + fs[1..];
    }
  }

  /** One readable item in front of items that read back. */
  lemma {:induction false} ReadItemStep(f: ItemFields, rest: string, more: seq<ItemFields>)
    requires Readable(f) && ReadItems(rest) == Some(more)
    ensures ReadItems(ItemXml(f) + rest) == Some([f] + more)
  {
    ParseItemOf(f, rest);
    ReadItemsCons(ItemXml(f) + rest, f, rest);
  }

  /** A reader that skips the prologue and reads the items up to the
      closing tags finds the element texts of each item, in order. */
  lemma {:induction false} FeedOfReadsBack(cfg: FeedConfig, now: string, fs: seq<ItemFields>)
    requires forall i :: 0 <= i < |fs| ==> Readable(fs[i])
    ensures ReadFeed(FeedOf(cfg, now, fs), Prologue(cfg, now)) == Some(fs)
  {
    AfterPrefix(Prologue(cfg, now), ItemsOf(fs) + Closing);
    ReadItemsOf(fs);
  }

  /** The file write_feed writes reads back to the element texts of the
      item of each show, in order; with RssCarriesShow each gives back the
      show's title, date, link and guid. */
  lemma {:induction false} FeedReadsBack(cfg: FeedConfig, now: string, shows: seq<Show>)
    requires forall s :: s in shows ==> Renderable(s)
    ensures ReadFeed(FeedText(cfg, now, shows), Prologue(cfg, now)) == Some(FieldsOf(shows))
  {
    forall i | 0 <= i < |shows| ensures Readable(FieldsOf(shows)[i]) {
      RenderableIsReadable(shows[i]);
    }
    FeedOfReadsBack(cfg, now, FieldsOf(shows));
  }

  /** The corrected file reads back in the same way, for titles and guids
      that hold '<' as well. */
  lemma {:induction false} FeedCorrectedReadsBack(cfg: FeedConfig, now: string, shows: seq<Show>)
    requires forall s :: s in shows ==> RenderableCorrected(s)
    ensures ReadFeed(FeedTextCorrected(cfg, now, shows), Prologue(cfg, now)) == Some(CorrectedFieldsOf(shows))
  {
    forall i | 0 <= i < |shows| ensures Readable(CorrectedFieldsOf(shows)[i]) {
      RenderableCorrectedIsReadable(shows[i]);
    }
    FeedOfReadsBack(cfg, now, CorrectedFieldsOf(shows));
  }

  /** The counter adds no '<' to the guid. */
  lemma {:induction false} GuidHasNoMarkup(title: string, n: nat)
    requires '<' !in title
    ensures '<' !in title + NatToString(n)
  {
    var g := title + NatToString(n);
    forall i | 0 <= i < |g| ensures g[i] != '<' {
      if i >= |title| {
        assert g[i] == NatToString(n)[i - |title|];
      } else {
        assert g[i] == title[i];
      }
    }
  }

  /** Shows made from rows have the search link of their title, so only a
      title holding '<' or "]]>" keeps an item from reading back. */
  lemma {:induction false} RowShowsRenderable(data: seq<seq<string>>, shows: seq<Show>)
    requires ConvertedFrom(data, shows)
    requires forall k :: 0 <= k < |data| ==> '<' !in data[k][0] && CdataSafe(data[k][0])
    ensures forall s :: s in shows ==> Renderable(s) && s.url == SearchUrl(s.title)
  {
    forall s | s in shows ensures Renderable(s) && s.url == SearchUrl(s.title) {
      var k :| 0 <= k < |shows| && shows[k] == s;
      assert RowShow(data[k], k) == Some(s);
      SearchUrlRoundTrip(s.title);
      GuidHasNoMarkup(s.title, FirstGuid + k);
    }
  }

  /** The feed main writes for rows whose titles hold no '<' and no "]]>":
      a reader finds the items of the twenty newest shows (fewer when there
      are fewer rows), newest first, each one a show from the rows. */
  lemma {:induction false} FeedOfRows(rows: seq<seq<string>>, shows: seq<Show>, cfg: FeedConfig, now: string)
    requires RowsValid(rows) && ConvertedFrom(rows[1..], shows)
    requires forall k :: 1 <= k < |rows| ==> '<' !in rows[k][0] && CdataSafe(rows[k][0])
    ensures var kept := Newest(SortNewestFirst(shows), FeedSize);
      && ReadFeed(FeedText(cfg, now, kept), Prologue(cfg, now)) == Some(FieldsOf(kept))
      && |kept| == (if |shows| < FeedSize then |shows| else FeedSize)
      && IsNewestFirst(kept)
      && multiset(kept) <= multiset(shows)
  {
    var data := rows[1..];
    assert forall k :: 0 <= k < |data| ==> '<' !in data[k][0] && CdataSafe(data[k][0]) by {
      forall k | 0 <= k < |data| ensures '<' !in data[k][0] && CdataSafe(data[k][0]) {
        assert data[k] == rows[k + 1];
      }
    }
    RowShowsRenderable(data, shows);
    var kept := Newest(SortNewestFirst(shows), FeedSize);
    FeedKeepsNewest(shows);
    SortKeepsLength(shows);
    KeptRenderable(shows, kept);
    FeedReadsBack(cfg, now, kept);
  }

  lemma {:induction false} KeptRenderable(shows: seq<Show>, kept: seq<Show>)
    requires multiset(kept) <= multiset(shows)
    requires forall s :: s in shows ==> Renderable(s)
    ensures forall s :: s in kept ==> Renderable(s)
  {
    forall s | s in kept ensures Renderable(s) {
      assert s in multiset(kept);
    }
  }

  // ------------------------------------------------------------------ main

  /** main from the opened cache on: reads the rows, sorts the shows newest
      first and writes the twenty newest; or the error that stops it. */
  method Run(rows: seq<seq<string>>, cfg: FeedConfig, now: string) returns (r: Result<string, ParseError>)
    ensures r.Ok? <==> RowsValid(rows)
    ensures r.Ok? ==> exists shows :: ConvertedFrom(rows[1..], shows)
                        && r.value == FeedText(cfg, now, Newest(SortNewestFirst(shows), FeedSize))
    ensures r.Err? ==> FirstError(rows, r.error)
  {
    var read := ReadShows(rows);
    if read.Err? {
      return Err(read.error);
    }
    var shows := read.value;
    var sorted := SortNewestFirst(shows);
    var status, written := WriteFeed(Newest(sorted, FeedSize), cfg, now);
    assert ConvertedFrom(rows[1..], shows);
    return Ok(written);
  }

  lemma {:induction false} ExampleGuids(ta: string, tb: string)
    ensures ta + NatToString(FirstGuid) == ta + "1000"
    ensures tb + NatToString(FirstGuid + 1) == tb + "1001"
  {
    assert NatToString(1) == "1";
    assert NatToString(10) == "10";
    assert NatToString(100) == "100";
  }

  /** Two rows with any titles free of '<' and "]]>", the later date read
      second: each show keeps the guid of its row, the later one comes
      first, and the file holds exactly their two items, B's then A's. */
  lemma {:induction false} TwoShowsExample(cfg: FeedConfig, now: string, ta: string, tb: string)
    requires '<' !in ta && CdataSafe(ta) && '<' !in tb && CdataSafe(tb)
    ensures var a := RowShow([ta, "01/02/23"], 0);
            var b := RowShow([tb, "01/05/23"], 1);
            && a.Some? && b.Some?
            && a.value.guid == ta + "1000" && b.value.guid == tb + "1001"
            && SortNewestFirst([a.value, b.value]) == [b.value, a.value]
            && ReadFeed(FeedText(cfg, now, [b.value, a.value]), Prologue(cfg, now))
               == Some([RssFieldsAsWritten(b.value), RssFieldsAsWritten(a.value)])
  {
    RowOfJanuary2(ta);
    RowOfJanuary5(tb);
    var a := Show(ta, SearchUrl(ta), ta + "1000", TimeStruct(2023, 1, 2, 0, 0, 0, 0, 2, -1));
    var b := Show(tb, SearchUrl(tb), tb + "1001", TimeStruct(2023, 1, 5, 0, 0, 0, 3, 5, -1));
    ExampleRenderable(a, 0);
    ExampleRenderable(b, 1);
    TwoShowsFeed(cfg, now, a, b);
  }

  lemma {:induction false} RowOfJanuary2(t: string)
    ensures RowShow([t, "01/02/23"], 0)
            == Some(Show(t, SearchUrl(t), t + "1000", TimeStruct(2023, 1, 2, 0, 0, 0, 0, 2, -1)))
  {
    StrptimeExample();
    ExampleGuids(t, t);
  }

  lemma {:induction false} RowOfJanuary5(t: string)
    ensures RowShow([t, "01/05/23"], 1)
            == Some(Show(t, SearchUrl(t), t + "1001", TimeStruct(2023, 1, 5, 0, 0, 0, 3, 5, -1)))
  {
    StrptimeExampleLater();
    ExampleGuids(t, t);
  }

  lemma {:induction false} ExampleRenderable(s: Show, k: nat)
    requires '<' !in s.title && CdataSafe(s.title)
    requires s.url == SearchUrl(s.title) && s.guid == s.title + NatToString(FirstGuid + k)
    ensures Renderable(s)
  {
    SearchUrlRoundTrip(s.title);
    GuidHasNoMarkup(s.title, FirstGuid + k);
  }

  /** Two renderable shows, the second watched later: the feed holds
      exactly two items, the second show's first. */
  lemma {:induction false} TwoShowsFeed(cfg: FeedConfig, now: string, a: Show, b: Show)
    requires Renderable(a) && Renderable(b) && Less(a, b)
    ensures var kept := Newest(SortNewestFirst([a, b]), FeedSize);
            && kept == [b, a]
            && ReadFeed(FeedText(cfg, now, kept), Prologue(cfg, now))
               == Some([RssFieldsAsWritten(b), RssFieldsAsWritten(a)])
  {
    SortTwo(a, b);
    assert Newest([b, a], FeedSize) == [b, a];
    TwoItemsReadBack(cfg, now, b, a);
  }

  lemma {:induction false} TwoItemsReadBack(cfg: FeedConfig, now: string, x: Show, y: Show)
    requires Renderable(x) && Renderable(y)
    ensures ReadFeed(FeedText(cfg, now, [x, y]), Prologue(cfg, now))
            == Some([RssFieldsAsWritten(x), RssFieldsAsWritten(y)])
  {
    var fs := [RssFieldsAsWritten(x), RssFieldsAsWritten(y)];
    FieldsOfPair(x, y);
    RenderableIsReadable(x);
    RenderableIsReadable(y);
    FeedOfReadsBack(cfg, now, fs);
  }

  lemma {:induction false} FieldsOfPair(x: Show, y: Show)
    ensures FieldsOf([x, y]) == [RssFieldsAsWritten(x), RssFieldsAsWritten(y)]
  {
    var f := FieldsOf([x, y]);
    assert |f| == 2 && f[0] == RssFieldsAsWritten(x) && f[1] == RssFieldsAsWritten(y);
  }
}
