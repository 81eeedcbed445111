/** The Show record: one watched title with its search link, guid and date,
    its order (by date only) and its rendering as one RSS 2.0 item. */
module Shows {
  import opened Wrappers
  import opened XmlEscape
  import opened TimeFormat
  import opened UrlQuote
  import Calendar

  datatype Show = Show(title: string, url: string, guid: string, date: ParsedDate)

  /** Show(title, url, guid, date): the date text is read with
      strptime("%m/%d/%y"); None where that raises ValueError. */
  function NewShow(title: string, url: string, guid: string, dateText: string): (r: Option<Show>)
    ensures r.Some? <==> Strptime(dateText).Some?
    ensures r.Some? ==> r.value.title == title && r.value.url == url && r.value.guid == guid
    ensures r.Some? ==> Some(r.value.date) == Strptime(dateText)
  {
    match Strptime(dateText)
    case None => None
    case Some(d) => Some(Show(title, url, guid, d))
  }

  /** The search page every link points into: the single literal of the
      program's search link. It is written as three pieces only because the
      solver then checks each short piece for '<', '&' and '>' on its own,
      which keeps SearchPrefixIsPlain cheap. */
  const SearchPrefix: string := "https://" + "www.netflix.com" + "/search?q="

  /** The link of a show: the search page queried with the quoted title. */
  function SearchUrl(title: string): string {
    SearchPrefix + Quote(title)
  }

  lemma {:induction false} SearchPrefixIsPlain()
    ensures '<' !in SearchPrefix && '&' !in SearchPrefix && '>' !in SearchPrefix
  {
  }

  /** The link holds no character that is special in XML text, and
      unquoting its query gives back the title. */
  lemma {:induction false} SearchUrlRoundTrip(title: string)
    ensures '<' !in SearchUrl(title) && '&' !in SearchUrl(title) && '>' !in SearchUrl(title)
    ensures SearchUrl(title)[..|SearchPrefix|] == SearchPrefix
    ensures Unquote(SearchUrl(title)[|SearchPrefix|..]) == Some(title)
  {
    SearchPrefixIsPlain();
    QuoteAlphabet(title);
    UnquoteQuote(title);
    assert SearchUrl(title)[|SearchPrefix|..] == Quote(title);
  }

  /** Show.__lt__: compares the dates and nothing else. */
  predicate Less(a: Show, b: Show) {
    TimeLess(a.date, b.date)
  }

  /** A show is before another exactly when it was watched on an earlier
      day; neither is before the other exactly when they share a day. */
  lemma {:induction false} LessIsChronological(a: Show, b: Show)
    ensures Less(a, b) <==> Calendar.Ordinal(a.date.year, a.date.mon, a.date.mday)
                            < Calendar.Ordinal(b.date.year, b.date.mon, b.date.mday)
    ensures !Less(a, b) && !Less(b, a) <==> a.date == b.date
  {
    TimeLessIsChronological(a.date, b.date);
  }

  /** '<' on shows is a strict weak order: irreflexive, transitive, and
      "neither before the other" means "same date". */
  lemma {:induction false} LessIsStrictWeakOrder(a: Show, b: Show, c: Show)
    ensures !Less(a, a)
    ensures Less(a, b) && Less(b, c) ==> Less(a, c)
    ensures !Less(a, b) && !Less(b, c) ==> !Less(a, c)
  {
    LessIsChronological(a, b);
    LessIsChronological(b, c);
    LessIsChronological(a, c);
  }

  /** Show.__str__. */
  function Describe(s: Show): string {
    "title:" + s.title + ", date:" + IsoDate(s.date)
  }

  lemma {:induction false} DescribeNamesTitleAndDate(s: Show)
    ensures Describe(s)[6..6 + |s.title|] == s.title
    ensures ReadIsoDate(Describe(s)[|Describe(s)| - 10..]) == Some((s.date.year, s.date.mon, s.date.mday))
  {
    IsoDateRoundTrip(s.date);
    Digits.FourDigits(s.date.year);
    assert Describe(s)[|Describe(s)| - 10..] == IsoDate(s.date);
  }

  // ------------------------------------------------------------- RSS item

  /** The text of each element of an item, as it stands in the markup. */
  datatype ItemFields = ItemFields(title: string, pubDate: string, link: string, guid: string, description: string)

  /** The fixed template of one item, its element texts filled in, followed
      by whatever text comes after the item. */
  function ItemXmlThen(f: ItemFields, rest: string): string {
    "<item><title>" + (f.title
      + ("</title><pubDate>" + (f.pubDate
      + ("</pubDate><link>" + (f.link
      + ("</link><guid isPermaLink=\"false\">" + (f.guid
      + ("</guid><description><![CDATA[" + (f.description
      + ("]]></description></item>\n" + rest))))))))))
  }

  /** One item with the element texts f. */
  function ItemXml(f: ItemFields): string {
    ItemXmlThen(f, [])
  }

  /** The element texts Show.rss writes: the escaped title, the date, the
      link, the guid, and the raw title followed by " on " and the date. */
  function RssFieldsAsWritten(s: Show): ItemFields {
    var date := ItemDate(s.date);
    ItemFields(Escape(s.title), date, s.url, s.guid, s.title + " on " + date)
  }

  /** Show.rss as written: the title is escaped, the guid is not. */
  function RssAsWritten(s: Show): string {
    ItemXml(RssFieldsAsWritten(s))
  }

  /** The element texts of the corrected item: the guid is escaped too. */
  function RssFields(s: Show): ItemFields {
    RssFieldsAsWritten(s).(guid := Escape(s.guid))
  }

  /** Show.rss with the guid escaped like the title, so that the guid is
      element text whatever the title holds. The description is left as
      written, so a title holding "]]>" still ends its CDATA section early. */
  function Rss(s: Show): string {
    ItemXml(RssFields(s))
  }

  // ----------------------------------------------------- reading an item

  /** The rest of t after the literal lit, if t starts with it. */
  function After(t: string, lit: string): (r: Option<string>)
    ensures r.Some? ==> t == lit + r.value
  {
    if |lit| <= |t| && t[..|lit|] == lit then Some(t[|lit|..]) else None
  }

  /** Element content: the text up to the next '<', which must open the
      literal close; gives the text and what follows close. */
  function ReadText(t: string, close: string): (r: Option<(string, string)>)
    ensures r.Some? ==> |r.value.1| <= |t|
  {
    var i := IndexOf(t, '<');
    var rest :- After(t[i..], close);
    Some((t[..i], rest))
  }

  /** "]]>", which ends a CDATA section, starts at index i of t. */
  predicate CdataEndAt(t: string, i: int) {
    0 <= i && i + 3 <= |t| && t[i] == ']' && t[i + 1] == ']' && t[i + 2] == '>'
  }

  /** The index of the first "]]>" in t, or |t| when there is none. */
  function CdataEnd(t: string): (i: nat)
    ensures i <= |t|
  {
    if |t| < 3 then |t| else if CdataEndAt(t, 0) then 0 else 1 + CdataEnd(t[1..])
  }

  /** Text that holds no "]]>" and so can stand inside one CDATA section. */
  predicate CdataSafe(t: string) {
    forall i :: 0 <= i < |t| ==> !CdataEndAt(t, i)
  }

  /** The text of a CDATA section up to its first "]]>", which must begin
      the closing tags of the item; gives the text and what follows. */
  function ReadCdata(t: string): (r: Option<(string, string)>)
    ensures r.Some? ==> |r.value.1| < |t|
  {
    var k := CdataEnd(t);
    var rest :- After(t[k..], "]]></description></item>\n");
    Some((t[..k], rest))
  }

  /** Reads the item at the start of t: each element's text up to its
      closing tag, the description up to the end of its CDATA section;
      gives the texts and what follows the item. */
  function ParseItem(t: string): (r: Option<(ItemFields, string)>)
    ensures r.Some? ==> |r.value.1| < |t|
  {
    var r0 :- After(t, "<item><title>");
    var title :- ReadText(r0, "</title><pubDate>");
    var pubDate :- ReadText(title.1, "</pubDate><link>");
    var link :- ReadText(pubDate.1, "</link><guid isPermaLink=\"false\">");
    var guid :- ReadText(link.1, "</guid><description><![CDATA[");
    var description :- ReadCdata(guid.1);
    Some((ItemFields(title.0, pubDate.0, link.0, guid.0, description.0), description.1))
  }

  /** Element texts the template can carry and give back: none holds the
      '<' that ends it, and the description holds no "]]>". */
  predicate Readable(f: ItemFields) {
    '<' !in f.title && '<' !in f.pubDate && '<' !in f.link && '<' !in f.guid && CdataSafe(f.description)
  }

  lemma {:induction false} AfterPrefix(lit: string, rest: string)
    ensures After(lit + rest, lit) == Some(rest)
  {
    assert (lit + rest)[..|lit|] == lit;
  }

  lemma {:induction false} ReadTextOf(text: string, close: string, rest: string)
    requires '<' !in text && |close| > 0 && close[0] == '<'
    ensures ReadText(text + (close + rest), close) == Some((text, rest))
  {
    var t := text + (close + rest);
    assert t[|text|] == '<';
    assert forall j :: 0 <= j < |text| ==> t[j] == text[j];
    assert IndexOf(t, '<') == |text|;
    assert t[|text|..] == close + rest && t[..|text|] == text;
    AfterPrefix(close, rest);
  }

  lemma {:induction false} CdataEndOf(d: string, rest: string)
    requires CdataSafe(d) && CdataEndAt(rest, 0)
    ensures CdataEnd(d + rest) == |d|
    decreases |d|
  {
    var t := d + rest;
    if d == [] {
      assert t == rest;
    } else {
      assert t[1..] == d[1..] + rest;
      assert !CdataEndAt(t, 0) by {
        if |d| >= 3 {
          assert !CdataEndAt(d, 0);
        } else {
          assert t[2] == ']';
        }
      }
      assert CdataSafe(d[1..]) by {
        forall i | 0 <= i < |d[1..]| ensures !CdataEndAt(d[1..], i) {
          assert !CdataEndAt(d, i + 1);
        }
      }
      CdataEndOf(d[1..], rest);
    }
  }

  lemma {:induction false} ReadCdataOf(d: string, rest: string)
    requires CdataSafe(d)
    ensures ReadCdata(d + ("]]></description></item>\n" + rest)) == Some((d, rest))
  {
    var tail := "]]></description></item>\n" + rest;
    assert CdataEndAt(tail, 0);
    CdataEndOf(d, tail);
    assert (d + tail)[..|d|] == d && (d + tail)[|d|..] == tail;
    AfterPrefix("]]></description></item>\n", rest);
  }

  /** Reading the template back gives each element's text and the text
      after the item. */
  lemma {:induction false} ParseItemXml(f: ItemFields, rest: string)
    requires Readable(f)
    ensures ParseItem(ItemXmlThen(f, rest)) == Some((f, rest))
  {
    var r8 := f.description + ("]]></description></item>\n" + rest);
    var r6 := f.guid + ("</guid><description><![CDATA[" + r8);
    var r4 := f.link + ("</link><guid isPermaLink=\"false\">" + r6);
    var r2 := f.pubDate + ("</pubDate><link>" + r4);
    var r0 := f.title + ("</title><pubDate>" + r2);
    assert ItemXmlThen(f, rest) == "<item><title>" + r0;
    AfterPrefix("<item><title>", r0);
    ReadTextOf(f.title, "</title><pubDate>", r2);
    ReadTextOf(f.pubDate, "</pubDate><link>", r4);
    ReadTextOf(f.link, "</link><guid isPermaLink=\"false\">", r6);
    ReadTextOf(f.guid, "</guid><description><![CDATA[", r8);
    ReadCdataOf(f.description, rest);
  }

  lemma {:induction false} Assoc(a: string, b: string, c: string)
    ensures (a + b) + c == a + (b + c)
  {
  }

  /** An item followed by more text is the template filled with that text. */
  lemma {:induction false} ItemXmlAppend(f: ItemFields, rest: string)
    ensures ItemXml(f) + rest == ItemXmlThen(f, rest)
  {
    var t10 := "]]></description></item>\n";
    assert t10 + [] == t10;
    Assoc(f.description, t10, rest);
    Assoc("</guid><description><![CDATA[", f.description + t10, rest);
    Assoc(f.guid, "</guid><description><![CDATA[" + (f.description + t10), rest);
    var g := f.guid + ("</guid><description><![CDATA[" + (f.description + t10));
    Assoc("</link><guid isPermaLink=\"false\">", g, rest);
    Assoc(f.link, "</link><guid isPermaLink=\"false\">" + g, rest);
    var l := f.link + ("</link><guid isPermaLink=\"false\">" + g);
    Assoc("</pubDate><link>", l, rest);
    Assoc(f.pubDate, "</pubDate><link>" + l, rest);
    var p := f.pubDate + ("</pubDate><link>" + l);
    Assoc("</title><pubDate>", p, rest);
    Assoc(f.title, "</title><pubDate>" + p, rest);
    Assoc("<item><title>", f.title + ("</title><pubDate>" + p), rest);
  }

  /** The item texts of a show, read back after the template. */
  lemma {:induction false} ParseItemOf(f: ItemFields, rest: string)
    requires Readable(f)
    ensures ParseItem(ItemXml(f) + rest) == Some((f, rest))
  {
    ItemXmlAppend(f, rest);
    ParseItemXml(f, rest);
  }

  /** A title free of "]]>" stays free of it once " on " and the date follow. */
  lemma {:induction false} DescriptionIsCdataSafe(title: string, date: ParsedDate)
    requires CdataSafe(title)
    ensures CdataSafe(title + " on " + ItemDate(date))
  {
    var tail := " on " + ItemDate(date);
    var d := title + tail;
    assert title + " on " + ItemDate(date) == d;
    ItemDateIsPlain(date);
    forall i | 0 <= i < |d| ensures !CdataEndAt(d, i) {
      if i + 3 <= |title| {
        assert !CdataEndAt(title, i);
      } else if i + 3 <= |d| {
        assert d[i + 2] == tail[i + 2 - |title|];
        assert tail[i + 2 - |title|] in tail;
      }
    }
  }

  /** A show whose item, as Show.rss writes it, a reader can take apart:
      its link and guid hold no '<' (the guid of a row holds one only when
      its title does) and its title no "]]>". */
  predicate Renderable(s: Show) {
    '<' !in s.url && '<' !in s.guid && CdataSafe(s.title)
  }

  /** The element texts of a renderable show's item read back. */
  lemma {:induction false} RenderableIsReadable(s: Show)
    requires Renderable(s)
    ensures Readable(RssFieldsAsWritten(s))
  {
    EscapeIsText(s.title);
    ItemDateIsPlain(s.date);
    DescriptionIsCdataSafe(s.title, s.date);
  }

  /** What a feed reader finds in the item Show.rss writes: the item reads
      back to its element texts; the title unescapes to the show's own, the
      date reads back to the show's date, the link and the guid are the
      show's as they stand, and the description is the raw title followed
      by " on " and the date. */
  lemma {:induction false} RssCarriesShow(s: Show, rest: string)
    requires Renderable(s)
    ensures ParseItem(RssAsWritten(s) + rest) == Some((RssFieldsAsWritten(s), rest))
    ensures var f := RssFieldsAsWritten(s);
      && Unescape(f.title) == Some(s.title)
      && ReadItemDate(f.pubDate) == Some((s.date.year, s.date.mon, s.date.mday))
      && f.link == s.url
      && f.guid == s.guid
      && f.description == s.title + " on " + f.pubDate
  {
    ItemDateRoundTrip(s.date);
    UnescapeEscape(s.title);
    RenderableIsReadable(s);
    ParseItemOf(RssFieldsAsWritten(s), rest);
  }

  /** A show whose corrected item a reader can take apart: the escaped
      guid never holds '<', so only the link and the title matter. */
  predicate RenderableCorrected(s: Show) {
    '<' !in s.url && CdataSafe(s.title)
  }

  lemma {:induction false} RenderableCorrectedIsReadable(s: Show)
    requires RenderableCorrected(s)
    ensures Readable(RssFields(s))
  {
    EscapeIsText(s.title);
    EscapeIsText(s.guid);
    ItemDateIsPlain(s.date);
    DescriptionIsCdataSafe(s.title, s.date);
  }

  /** The corrected item reads back too, and its guid unescapes to the
      show's guid whatever the guid holds. */
  lemma {:induction false} CorrectedRssCarriesShow(s: Show, rest: string)
    requires RenderableCorrected(s)
    ensures ParseItem(Rss(s) + rest) == Some((RssFields(s), rest))
    ensures var f := RssFields(s);
      && Unescape(f.title) == Some(s.title)
      && ReadItemDate(f.pubDate) == Some((s.date.year, s.date.mon, s.date.mday))
      && f.link == s.url
      && Unescape(f.guid) == Some(s.guid)
      && f.description == s.title + " on " + f.pubDate
  {
    ItemDateRoundTrip(s.date);
    UnescapeEscape(s.title);
    UnescapeEscape(s.guid);
    RenderableCorrectedIsReadable(s);
    ParseItemOf(RssFields(s), rest);
  }

  /** Every element of the corrected item of a show with its search link
      is element text: the title and guid hold no raw '<' or '>' and no '&'
      outside the three entities, the date and the link no markup at all,
      and the description no "]]>" while the title holds none. */
  lemma {:induction false} RssIsWellFormed(s: Show)
    requires s.url == SearchUrl(s.title) && CdataSafe(s.title)
    ensures EscapedText(RssFields(s).title) && EscapedText(RssFields(s).guid)
    ensures EscapedText(RssFields(s).pubDate) && EscapedText(RssFields(s).link)
    ensures CdataSafe(RssFields(s).description)
  {
    DescriptionIsCdataSafe(s.title, s.date);
    EscapeIsText(s.title);
    EscapeIsText(s.guid);
    ItemDateIsPlain(s.date);
    PlainTextIsEscapedText(ItemDate(s.date));
    SearchUrlRoundTrip(s.title);
    PlainTextIsEscapedText(s.url);
  }

  /** An '&' followed by a space starts no entity, so text holding one is
      not escaped text. */
  lemma {:induction false} BareAmpersand(t: string, i: nat)
    requires i + 1 < |t| && t[i] == '&' && t[i + 1] == ' '
    ensures Unescape(t) == None
    decreases i
  {
    if i > 0 {
      if t[0] != '&' {
        BareAmpersand(t[1..], i - 1);
      } else if |t| >= 5 && t[..5] == "&amp;" {
        assert t[1..5] == "amp;";
        BareAmpersand(t[5..], i - 5);
      } else if |t| >= 4 && (t[..4] == "&lt;" || t[..4] == "&gt;") {
        assert t[3] == ';';
        BareAmpersand(t[4..], i - 4);
      }
    }
  }

  const TomAndJerry: string := "Tom & Jerry"

  lemma {:induction false} TomAndJerryText()
    ensures CdataSafe(TomAndJerry)
    ensures '<' !in TomAndJerry + "1000"
    ensures (TomAndJerry + "1000")[4] == '&' && (TomAndJerry + "1000")[5] == ' '
  {
    var g := TomAndJerry + "1000";
    assert forall i :: 0 <= i < |g| ==> g[i] != '<';
    assert forall i :: 0 <= i < |TomAndJerry| ==> TomAndJerry[i] != ']';
  }

  /** As written, the guid goes into the item unescaped: for the title
      "Tom & Jerry" and counter 1000 the guid element holds "Tom & Jerry1000",
      whose '&' starts no entity reference, which section 2.4 of XML 1.0
      does not allow. The corrected guid is escaped text. */
  lemma {:induction false} GuidAsWrittenIsNotXmlText(date: ParsedDate)
    ensures var s := Show(TomAndJerry, SearchUrl(TomAndJerry), TomAndJerry + "1000", date);
      && ParseItem(RssAsWritten(s) + []) == Some((RssFieldsAsWritten(s), []))
      && RssFieldsAsWritten(s).guid == TomAndJerry + "1000"
      && !EscapedText(RssFieldsAsWritten(s).guid)
      && EscapedText(RssFields(s).guid)
  {
    var s := Show(TomAndJerry, SearchUrl(TomAndJerry), TomAndJerry + "1000", date);
    assert ParseItem(RssAsWritten(s) + []) == Some((RssFieldsAsWritten(s), [])) by {
      SearchUrlRoundTrip(TomAndJerry);
      TomAndJerryText();
      ItemDateIsPlain(date);
      EscapeIsText(s.title);
      DescriptionIsCdataSafe(s.title, date);
      ParseItemOf(RssFieldsAsWritten(s), []);
    }
    assert !EscapedText(s.guid) by {
      TomAndJerryText();
      BareAmpersand(s.guid, 4);
    }
    assert EscapedText(RssFields(s).guid) by {
      SearchUrlRoundTrip(TomAndJerry);
      TomAndJerryText();
      RssIsWellFormed(s);
    }
  }
}
