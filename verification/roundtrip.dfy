/** What the reader recovers from the blocks the renderer writes. For a
    clipping whose values cannot be mistaken for markup (no line break, no
    emoji, no plain-text label, no bullet inside page or location), the
    reader finds the location, the page and the main text again and builds
    the key of the clipping from them. As written the reader keeps the case
    of the text while the normaliser lower-cases it, so the keys agree only
    for lower-case text; the corrected reader agrees on every clipping. */
module RoundTrip {
  import opened Text
  import opened TextFacts
  import opened Markers
  import opened MarkerFacts
  import opened Normaliser
  import opened Renderer
  import opened Reader

  /** A date the reader cannot mistake for markup. */
  predicate ReadableDate(v: string) {
    && '\n' !in v && EMOJI_LEAD !in v
    && !Contains(v, PAGE_KEYWORD) && !Contains(v, LOCATION_KEYWORD)
  }

  /** A page or location value the reader gets back whole: it also holds no
      bullet and no surrounding whitespace. */
  predicate ReadableValue(v: string) {
    ReadableDate(v) && BULLET_LEAD !in v && Strip(v) == v
  }

  /** A clipping text the reader keeps as main text: one stripped line with
      nothing the metadata filter would drop. */
  predicate ReadableText(t: string) {
    && t != "" && Strip(t) == t
    && '\n' !in t && EMOJI_LEAD !in t && '_' !in t
    && !Contains(t, PAGE_KEYWORD) && !Contains(t, LOCATION_KEYWORD) && !Contains(t, DATE_ADDED_KEYWORD)
  }

  predicate Readable(c: Clipping, enableDate: bool) {
    && ReadableText(c.text)
    && ReadableValue(c.page) && ReadableValue(c.location)
    && (enableDate ==> ReadableDate(c.date))
  }

  /** The metadata line with locations enabled, segment by segment. */
  function Meta(c: Clipping, enableDate: bool): string {
    PageSegment(c) + LocationSegment(c) + DateSegment(c, enableDate)
  }

  /** What follows the body in the rendered text. */
  function Tail(c: Clipping, enableDate: bool): string {
    if Meta(c, enableDate) != "" then "\n\n" + Meta(c, enableDate) else ""
  }

  lemma TextLayout(c: Clipping, enableDate: bool)
    ensures ClippingText(c, true, enableDate) == Body(c) + Tail(c, enableDate)
    ensures Meta(c, enableDate) == "" <==> (c.page == "" && c.location == "" && !(enableDate && c.date != ""))
  {
    MetadataLayout(c, enableDate);
  }

  // ---- searching a concatenation ----

  /** A marker that cannot start inside `x` and does not occur in `rest` is
      found exactly once in `x + marker + rest`, with `rest` after it. */
  lemma SplitOnce(x: string, marker: string, rest: string)
    requires |marker| > 0
    requires Clear(x, marker) && !Contains(rest, marker)
    ensures Contains(x + marker + rest, marker)
    ensures Split(x + marker + rest, marker) == [x, rest]
  {
    SplitAfterClear(x, marker, rest);
    SplitAbsent(rest, marker);
  }

  lemma NoneAfter(a: string, b: string, sub: string)
    requires |sub| > 0 && Clear(a, sub) && !Contains(b, sub)
    ensures !Contains(a + b, sub)
  {
    ClearSkip(a, b, sub);
  }

  lemma NoneBefore(a: string, b: string, sub: string)
    requires |sub| > 0 && !Contains(a, sub) && !Contains(b, sub)
    requires b == [] || b[0] !in sub
    ensures !Contains(a + b, sub)
  {
    if b == [] {
      assert a + b == a;
    } else {
      StopSkip(a, b, sub);
    }
  }

  lemma AroundBullet(x: string, v: string, b: string, more: string)
    ensures x + v + ((x + b + x) + more) == (x + v + x) + b + (x + more)
  {
  }

  /** The value between a marker and the next bullet. */
  lemma BulletValue(v: string, more: string)
    requires v != "" && ReadableValue(v)
    ensures Strip(Split(" " + v, BULLET)[0]) == v
    ensures Strip(Split(" " + v + (METADATA_SEPARATOR + more), BULLET)[0]) == v
  {
    Leads();
    ClearByLead(" " + v, BULLET);
    ClearAbsent(" " + v, BULLET);
    SplitAbsent(" " + v, BULLET);
    assert " " + v == " " + v + "";
    StripAround(" ", v, "");
    ClearByLead(" " + v + " ", BULLET);
    assert METADATA_SEPARATOR == " " + BULLET + " ";
    AroundBullet(" ", v, BULLET, more);
    SplitAfterClear(" " + v + " ", BULLET, " " + more);
    StripAround(" ", v, " ");
  }

  // ---- the segments, piece by piece ----

  lemma PageSegmentClear(c: Clipping, sub: string)
    requires |sub| > 0 && sub[0] !in c.page && Clear(PAGE_MARKER + " ", sub)
    ensures Clear(PageSegment(c), sub)
  {
    ClearByLead(c.page, sub);
    ClearAppend(PAGE_MARKER + " ", c.page, sub);
  }

  lemma LocationSegmentClear(c: Clipping, sub: string)
    requires |sub| > 0 && sub[0] !in c.location
    requires Clear(METADATA_SEPARATOR, sub) && Clear(LOCATION_MARKER + " ", sub)
    ensures Clear(LocationSegment(c), sub)
  {
    if c.location != "" {
      ClearByLead(c.location, sub);
      ClearAppend(LOCATION_MARKER + " ", c.location, sub);
      if c.page != "" {
        ClearAppend(METADATA_SEPARATOR, LocationPart(c.location), sub);
      } else {
        assert LocationSegment(c) == LocationPart(c.location);
      }
    }
  }

  lemma DateSegmentClear(c: Clipping, enableDate: bool, sub: string)
    requires |sub| > 0 && (enableDate ==> sub[0] !in c.date)
    requires Clear(METADATA_SEPARATOR, sub) && Clear(DATE_EMOJI + " ", sub)
    ensures Clear(DateSegment(c, enableDate), sub)
  {
    if enableDate && c.date != "" {
      ClearByLead(c.date, sub);
      ClearAppend(DATE_EMOJI + " ", c.date, sub);
      if c.page != "" || c.location != "" {
        ClearAppend(METADATA_SEPARATOR, DatePart(c.date), sub);
      } else {
        assert DateSegment(c, enableDate) == DatePart(c.date);
      }
    }
  }

  lemma BodyClear(c: Clipping, sub: string)
    requires |sub| > 0 && sub[0] !in c.text && (c.isNote ==> Clear(NOTE_PREFIX, sub))
    ensures Clear(Body(c), sub)
  {
    ClearByLead(c.text, sub);
    if c.isNote {
      ClearAppend(NOTE_PREFIX, c.text, sub);
    }
  }

  // ---- location and page ----

  /** Everything the renderer writes before the location marker. */
  function BeforeLocation(c: Clipping): string {
    Body(c) + "\n\n" + PageSegment(c) + (if c.page != "" then METADATA_SEPARATOR else "")
  }

  /** Everything the renderer writes before the page marker. */
  function BeforePage(c: Clipping): string {
    Body(c) + "\n\n"
  }

  lemma Assoc(a: string, b: string, c: string)
    ensures a + b + c == a + (b + c)
  {
  }

  /** The text regrouped around the location marker. */
  lemma LocationRegroup(text: string, body: string, meta: string, nl: string, ps: string, pre: string, m: string, sp: string, v: string, d: string)
    requires text == body + (nl + meta) && meta == ps + (pre + (m + sp + v)) + d
    ensures text == body + nl + ps + pre + m + (sp + v + d)
  {
  }

  lemma LocationLayout(c: Clipping, enableDate: bool)
    requires c.location != ""
    ensures ClippingText(c, true, enableDate)
      == BeforeLocation(c) + LOCATION_MARKER + (" " + c.location + DateSegment(c, enableDate))
  {
    TextLayout(c, enableDate);
    var pre := if c.page != "" then METADATA_SEPARATOR else "";
    var meta := Meta(c, enableDate);
    assert LocationSegment(c) == pre + (LOCATION_MARKER + " " + c.location);
    LocationRegroup(ClippingText(c, true, enableDate), Body(c), meta, "\n\n", PageSegment(c), pre,
      LOCATION_MARKER, " ", c.location, DateSegment(c, enableDate));
  }

  /** The text with page first, regrouped around the page marker. */
  lemma PageRegroup(text: string, body: string, meta: string, nl: string, m: string, sp: string, p: string, l: string, d: string)
    requires text == body + (nl + meta) && meta == m + sp + p + l + d
    ensures text == body + nl + m + (sp + p + (l + d))
  {
  }

  lemma PageLayout(c: Clipping, enableDate: bool)
    requires c.page != ""
    ensures ClippingText(c, true, enableDate)
      == BeforePage(c) + PAGE_MARKER + (" " + c.page + (LocationSegment(c) + DateSegment(c, enableDate)))
  {
    TextLayout(c, enableDate);
    var meta := Meta(c, enableDate);
    assert meta == PAGE_MARKER + " " + c.page + LocationSegment(c) + DateSegment(c, enableDate);
    PageRegroup(ClippingText(c, true, enableDate), Body(c), meta, "\n\n", PAGE_MARKER, " ", c.page,
      LocationSegment(c), DateSegment(c, enableDate));
  }

  lemma BeforeLocationClear(c: Clipping)
    requires Readable(c, false)
    ensures Clear(BeforeLocation(c), LOCATION_MARKER)
  {
    var m := LOCATION_MARKER;
    Leads();
    LocationMarkerClears();
    BodyClear(c, m);
    PageSegmentClear(c, m);
    ClearAppend3(Body(c), "\n\n", PageSegment(c), m);
    if c.page != "" {
      ClearAppend(Body(c) + "\n\n" + PageSegment(c), METADATA_SEPARATOR, m);
    } else {
      assert BeforeLocation(c) == Body(c) + "\n\n" + PageSegment(c);
    }
  }

  lemma BeforePageClear(c: Clipping)
    requires Readable(c, false)
    ensures Clear(BeforePage(c), PAGE_MARKER)
  {
    Leads();
    PageMarkerClears();
    BodyClear(c, PAGE_MARKER);
    ClearAppend(Body(c), "\n\n", PAGE_MARKER);
  }

  /** After the location marker: the location, then possibly the date. */
  lemma AfterLocation(c: Clipping, enableDate: bool)
    requires Readable(c, enableDate) && c.location != ""
    ensures !Contains(" " + c.location + DateSegment(c, enableDate), LOCATION_MARKER)
    ensures Strip(Split(" " + c.location + DateSegment(c, enableDate), BULLET)[0]) == c.location
  {
    var m := LOCATION_MARKER;
    var ds := DateSegment(c, enableDate);
    Leads();
    LocationMarkerClears();
    DateSegmentClear(c, enableDate, m);
    ClearByLead(" " + c.location, m);
    ClearAppend(" " + c.location, ds, m);
    ClearAbsent(" " + c.location + ds, m);
    if ds == "" {
      assert " " + c.location + ds == " " + c.location;
      BulletValue(c.location, "");
    } else {
      BulletValue(c.location, DatePart(c.date));
    }
  }

  /** After the page marker: the page, then possibly location and date. */
  lemma AfterPage(c: Clipping, enableDate: bool)
    requires Readable(c, enableDate) && c.page != ""
    ensures !Contains(" " + c.page + (LocationSegment(c) + DateSegment(c, enableDate)), PAGE_MARKER)
    ensures Strip(Split(" " + c.page + (LocationSegment(c) + DateSegment(c, enableDate)), BULLET)[0]) == c.page
  {
    var m := PAGE_MARKER;
    var ls := LocationSegment(c);
    var ds := DateSegment(c, enableDate);
    Leads();
    PageMarkerClears();
    LocationSegmentClear(c, m);
    DateSegmentClear(c, enableDate, m);
    ClearByLead(" " + c.page, m);
    ClearAppend3(" " + c.page, ls, ds, m);
    Assoc(" " + c.page, ls, ds);
    ClearAbsent(" " + c.page + (ls + ds), m);
    if ls != "" {
      assert ls == METADATA_SEPARATOR + LocationPart(c.location);
      Assoc(METADATA_SEPARATOR, LocationPart(c.location), ds);
      BulletValue(c.page, LocationPart(c.location) + ds);
    } else if ds != "" {
      assert ls + ds == METADATA_SEPARATOR + DatePart(c.date);
      BulletValue(c.page, DatePart(c.date));
    } else {
      assert " " + c.page + (ls + ds) == " " + c.page;
      BulletValue(c.page, "");
    }
  }

  /** The location is read back from the rendered text. */
  lemma LocationRecovered(c: Clipping, enableDate: bool)
    requires Readable(c, enableDate)
    ensures LocationOf(ClippingText(c, true, enableDate), "") == c.location
  {
    if c.location != "" {
      LocationLayout(c, enableDate);
      BeforeLocationClear(c);
      AfterLocation(c, enableDate);
      Leads();
      SplitOnce(BeforeLocation(c), LOCATION_MARKER, " " + c.location + DateSegment(c, enableDate));
    } else {
      LocationHidden(c, enableDate);
      LocationKeywordAbsent(c, enableDate);
    }
  }

  /** The page is read back from the rendered text. */
  lemma PageRecovered(c: Clipping, enableDate: bool)
    requires Readable(c, enableDate)
    ensures PageOf(ClippingText(c, true, enableDate), "") == c.page
  {
    if c.page != "" {
      PageLayout(c, enableDate);
      BeforePageClear(c);
      AfterPage(c, enableDate);
      Leads();
      SplitOnce(BeforePage(c), PAGE_MARKER, " " + c.page + (LocationSegment(c) + DateSegment(c, enableDate)));
    } else {
      PageHidden(c, enableDate);
      PageKeywordAbsent(c, enableDate);
    }
  }

  /** A marker none of whose pieces can start it does not occur in the
      rendered text. */
  lemma RenderedClear(c: Clipping, enableDate: bool, sub: string)
    requires |sub| > 0 && sub[0] !in c.text && Clear("\n\n", sub)
    requires c.isNote ==> Clear(NOTE_PREFIX, sub)
    requires Clear(PageSegment(c), sub) && Clear(LocationSegment(c), sub) && Clear(DateSegment(c, enableDate), sub)
    ensures !Contains(ClippingText(c, true, enableDate), sub)
  {
    TextLayout(c, enableDate);
    BodyClear(c, sub);
    TailClear(c, enableDate, sub);
    ClearAppend(Body(c), Tail(c, enableDate), sub);
    ClearAbsent(Body(c) + Tail(c, enableDate), sub);
  }

  lemma TailClear(c: Clipping, enableDate: bool, sub: string)
    requires |sub| > 0 && Clear("\n\n", sub)
    requires Clear(PageSegment(c), sub) && Clear(LocationSegment(c), sub) && Clear(DateSegment(c, enableDate), sub)
    ensures Clear(Tail(c, enableDate), sub)
  {
    ClearAppend3(PageSegment(c), LocationSegment(c), DateSegment(c, enableDate), sub);
    if Meta(c, enableDate) != "" {
      ClearAppend("\n\n", Meta(c, enableDate), sub);
    }
  }

  lemma LocationHidden(c: Clipping, enableDate: bool)
    requires Readable(c, enableDate) && c.location == ""
    ensures !Contains(ClippingText(c, true, enableDate), LOCATION_MARKER)
  {
    var m := LOCATION_MARKER;
    Leads();
    LocationMarkerClears();
    PageSegmentClear(c, m);
    DateSegmentClear(c, enableDate, m);
    ClearByLead("", m);
    RenderedClear(c, enableDate, m);
  }

  lemma PageHidden(c: Clipping, enableDate: bool)
    requires Readable(c, enableDate) && c.page == ""
    ensures !Contains(ClippingText(c, true, enableDate), PAGE_MARKER)
  {
    var m := PAGE_MARKER;
    Leads();
    PageMarkerClears();
    LocationSegmentClear(c, m);
    DateSegmentClear(c, enableDate, m);
    ClearByLead("", m);
    RenderedClear(c, enableDate, m);
  }

  /** `x` holds no `sub`, and cannot complete one begun before it. */
  predicate Stops(x: string, sub: string)
    requires |sub| > 0
  {
    !Contains(x, sub) && (x == [] || x[0] !in sub)
  }

  /** A value is either not shown, or shown after a marker `sub` cannot start
      inside and free of `sub` itself. */
  predicate Hides(v: string, marker: string, sub: string)
    requires |sub| > 0
  {
    v == "" || (sub[0] !in marker && !Contains(v, sub))
  }

  lemma DateSegmentStops(c: Clipping, enableDate: bool, sub: string)
    requires Label(sub) && (enableDate ==> !Contains(c.date, sub))
    ensures Stops(DateSegment(c, enableDate), sub)
  {
    LabelClears(sub);
    var ds := DateSegment(c, enableDate);
    if ds != "" {
      NoneAfter(DATE_EMOJI + " ", c.date, sub);
      if c.page != "" || c.location != "" {
        NoneAfter(METADATA_SEPARATOR, DatePart(c.date), sub);
      } else {
        assert ds == DatePart(c.date);
      }
    } else {
      ClearByLead(ds, sub);
      ClearAbsent(ds, sub);
    }
  }

  /** A shown part: a separator, a marker and a value, then what follows. */
  lemma PartStops(pre: string, marker: string, v: string, rest: string, sub: string)
    requires Label(sub) && (pre == "" || pre == METADATA_SEPARATOR)
    requires |marker| > 0 && marker[0] == EMOJI_LEAD && sub[0] !in marker
    requires !Contains(v, sub) && Stops(rest, sub)
    ensures Stops(pre + (marker + " ") + (v + rest), sub)
  {
    LabelClears(sub);
    ClearByLead(marker + " ", sub);
    NoneBefore(v, rest, sub);
    NoneAfter(marker + " ", v + rest, sub);
    if pre != "" {
      NoneAfter(pre, marker + " " + (v + rest), sub);
      assert (pre + (marker + " ") + (v + rest))[0] == ' ';
    } else {
      assert pre + (marker + " ") + (v + rest) == marker + " " + (v + rest);
    }
    Assoc(pre, marker + " ", v + rest);
  }

  lemma LocationSegmentStops(c: Clipping, enableDate: bool, sub: string)
    requires Label(sub) && Hides(c.location, LOCATION_MARKER, sub)
    requires enableDate ==> !Contains(c.date, sub)
    ensures Stops(LocationSegment(c) + DateSegment(c, enableDate), sub)
  {
    var ds := DateSegment(c, enableDate);
    DateSegmentStops(c, enableDate, sub);
    if c.location != "" {
      var pre := if c.page != "" then METADATA_SEPARATOR else "";
      assert LocationSegment(c) + ds == pre + (LOCATION_MARKER + " ") + (c.location + ds);
      Leads();
      PartStops(pre, LOCATION_MARKER, c.location, ds, sub);
    } else {
      assert LocationSegment(c) + ds == ds;
    }
  }

  lemma MetaStops(c: Clipping, enableDate: bool, sub: string)
    requires Label(sub) && Hides(c.page, PAGE_MARKER, sub) && Hides(c.location, LOCATION_MARKER, sub)
    requires enableDate ==> !Contains(c.date, sub)
    ensures Stops(Meta(c, enableDate), sub)
  {
    var rest := LocationSegment(c) + DateSegment(c, enableDate);
    LocationSegmentStops(c, enableDate, sub);
    Assoc(PageSegment(c), LocationSegment(c), DateSegment(c, enableDate));
    if c.page != "" {
      Leads();
      assert Meta(c, enableDate) == "" + (PAGE_MARKER + " ") + (c.page + rest);
      PartStops("", PAGE_MARKER, c.page, rest, sub);
    } else {
      assert Meta(c, enableDate) == rest;
    }
  }

  lemma TailStops(c: Clipping, enableDate: bool, sub: string)
    requires Label(sub) && Hides(c.page, PAGE_MARKER, sub) && Hides(c.location, LOCATION_MARKER, sub)
    requires enableDate ==> !Contains(c.date, sub)
    ensures Stops(Tail(c, enableDate), sub)
  {
    if Meta(c, enableDate) != "" {
      MetaStops(c, enableDate, sub);
      LabelClears(sub);
      NoneAfter("\n\n", Meta(c, enableDate), sub);
    } else {
      assert Tail(c, enableDate) == "";
    }
  }

  lemma BodyThenStops(isNote: bool, text: string, tail: string, sub: string)
    requires Label(sub) && !Contains(text, sub) && Stops(tail, sub)
    ensures !Contains((if isNote then NOTE_PREFIX + text else text) + tail, sub)
  {
    NoneBefore(text, tail, sub);
    if isNote {
      LabelClears(sub);
      NoneAfter(NOTE_PREFIX, text + tail, sub);
      Assoc(NOTE_PREFIX, text, tail);
    }
  }

  /** A label none of whose shown values holds it does not occur in the
      rendered text. */
  lemma LabelAbsent(c: Clipping, enableDate: bool, sub: string)
    requires Label(sub) && !Contains(c.text, sub)
    requires Hides(c.page, PAGE_MARKER, sub) && Hides(c.location, LOCATION_MARKER, sub)
    requires enableDate ==> !Contains(c.date, sub)
    ensures !Contains(ClippingText(c, true, enableDate), sub)
  {
    TextLayout(c, enableDate);
    TailStops(c, enableDate, sub);
    BodyThenStops(c.isNote, c.text, Tail(c, enableDate), sub);
  }

  /** With no page, the plain-text page label does not occur either, so the
      reader cannot take a page from it. */
  lemma PageKeywordAbsent(c: Clipping, enableDate: bool)
    requires Readable(c, enableDate) && c.page == ""
    ensures !Contains(ClippingText(c, true, enableDate), PAGE_KEYWORD)
  {
    KeywordsAreLabels();
    LabelAbsent(c, enableDate, PAGE_KEYWORD);
  }

  /** With no location, the plain-text location label does not occur either. */
  lemma LocationKeywordAbsent(c: Clipping, enableDate: bool)
    requires Readable(c, enableDate) && c.location == ""
    ensures !Contains(ClippingText(c, true, enableDate), LOCATION_KEYWORD)
  {
    KeywordsAreLabels();
    LabelAbsent(c, enableDate, LOCATION_KEYWORD);
  }

  // ---- main text ----

  /** The pieces of the metadata cannot start `sub` when no value holds its
      first character and the marker literals cannot start it either. */
  lemma MetaClear(c: Clipping, enableDate: bool, sub: string)
    requires |sub| > 0 && sub[0] !in c.page && sub[0] !in c.location && (enableDate ==> sub[0] !in c.date)
    requires Clear(PAGE_MARKER + " ", sub) && Clear(LOCATION_MARKER + " ", sub) && Clear(DATE_EMOJI + " ", sub)
    requires Clear(METADATA_SEPARATOR, sub) && Clear("\n\n", sub)
    ensures Clear(PageSegment(c), sub) && Clear(LocationSegment(c), sub) && Clear(DateSegment(c, enableDate), sub)
    ensures Clear(Tail(c, enableDate), sub)
  {
    PageSegmentClear(c, sub);
    LocationSegmentClear(c, sub);
    DateSegmentClear(c, enableDate, sub);
    TailClear(c, enableDate, sub);
  }

  /** Neither note marker can start in the clipping text or after it. */
  lemma RestClear(c: Clipping, enableDate: bool, sub: string)
    requires Readable(c, enableDate)
    requires sub == NOTE_MARKER || sub == NOTE_PREFIX
    ensures Clear(c.text + Tail(c, enableDate), sub)
  {
    Leads();
    NoteMarkerClears(sub);
    MetaClear(c, enableDate, sub);
    ClearByLead(c.text, sub);
    ClearAppend(c.text, Tail(c, enableDate), sub);
  }

  /** Splitting a rendered note at the note prefix leaves what follows it. */
  lemma NoteSplit(rest: string)
    requires Clear(rest, NOTE_PREFIX)
    ensures Contains(NOTE_PREFIX + rest, NOTE_MARKER)
    ensures Last(Split(NOTE_PREFIX + rest, NOTE_PREFIX)) == rest
  {
    Leads();
    NoteStartsWithMarker(rest);
    ClearAbsent(rest, NOTE_PREFIX);
    ClearByLead("", NOTE_PREFIX);
    assert NOTE_PREFIX + rest == "" + NOTE_PREFIX + rest;
    SplitOnce("", NOTE_PREFIX, rest);
  }

  /** The text the reader keeps after the note marker is the clipping text
      followed by the metadata, for notes and highlights alike. */
  lemma AfterNote(c: Clipping, enableDate: bool)
    requires Readable(c, enableDate)
    ensures var t := ClippingText(c, true, enableDate);
      (if Contains(t, NOTE_MARKER) then Last(Split(t, NOTE_PREFIX)) else t) == c.text + Tail(c, enableDate)
  {
    var rest := c.text + Tail(c, enableDate);
    TextLayout(c, enableDate);
    if c.isNote {
      RestClear(c, enableDate, NOTE_PREFIX);
      Assoc(NOTE_PREFIX, c.text, Tail(c, enableDate));
      NoteSplit(rest);
    } else {
      RestClear(c, enableDate, NOTE_MARKER);
      Leads();
      ClearAbsent(rest, NOTE_MARKER);
    }
  }

  /** The clipping text is one line the metadata filter keeps. */
  lemma TextNotMetadata(t: string)
    requires ReadableText(t)
    ensures !IsMetadataLine(t)
  {
    Leads();
    ClearByLead(t, PAGE_EMOJI);
    ClearAbsent(t, PAGE_EMOJI);
    ClearByLead(t, LOCATION_EMOJI);
    ClearAbsent(t, LOCATION_EMOJI);
    ClearByLead(t, DATE_EMOJI);
    ClearAbsent(t, DATE_EMOJI);
    ClearByLead(t, "_");
    ClearAbsent(t, "_");
  }

  /** The blank line between text and metadata is kept as well. */
  lemma BlankNotMetadata()
    ensures !IsMetadataLine("")
  {
    Leads();
    ClearAbsent("", PAGE_EMOJI);
    ClearAbsent("", LOCATION_EMOJI);
    ClearAbsent("", DATE_EMOJI);
    ClearAbsent("", PAGE_KEYWORD);
    ClearAbsent("", LOCATION_KEYWORD);
    ClearAbsent("", DATE_ADDED_KEYWORD);
    ClearAbsent("", "_");
  }

  /** A non-empty metadata line starts with the truncated location emoji, so
      the filter drops it. */
  lemma MetaIsMetadata(c: Clipping, enableDate: bool)
    requires Meta(c, enableDate) != ""
    ensures IsMetadataLine(Meta(c, enableDate))
  {
    var ls := LocationSegment(c);
    var ds := DateSegment(c, enableDate);
    Assoc(PageSegment(c), ls, ds);
    if c.page != "" {
      Assoc(PAGE_MARKER + " ", c.page, ls + ds);
      PartsStartWithLocationEmoji(c.page + (ls + ds));
    } else if c.location != "" {
      assert ls == LocationPart(c.location);
      Assoc(LOCATION_MARKER + " ", c.location, ds);
      PartsStartWithLocationEmoji(c.location + ds);
    } else {
      assert Meta(c, enableDate) == DatePart(c.date);
      PartsStartWithLocationEmoji(c.date);
    }
  }

  /** The metadata holds no line break. */
  lemma MetaOneLine(c: Clipping, enableDate: bool)
    requires Readable(c, enableDate)
    ensures Clear(Meta(c, enableDate), "\n")
  {
    LineBreakClears();
    PageSegmentClear(c, "\n");
    LocationSegmentClear(c, "\n");
    DateSegmentClear(c, enableDate, "\n");
    ClearAppend3(PageSegment(c), LocationSegment(c), DateSegment(c, enableDate), "\n");
  }

  lemma Regroup4(a: string, x: string, y: string, b: string)
    ensures a + (x + y + b) == a + x + (y + b)
  {
  }

  lemma EmptyFirst(x: string, b: string)
    ensures "" + x + b == x + b
  {
    assert "" + x == x;
  }

  /** A separator, then a piece without it: an empty piece, then it. */
  lemma SplitBlankThen(sep: string, b: string)
    requires |sep| > 0 && Clear(b, sep)
    ensures Split(sep + b, sep) == ["", b]
  {
    ClearAbsent(b, sep);
    ClearByLead("", sep);
    SplitAfterClear("", sep, b);
    EmptyFirst(sep, b);
    SplitAbsent(b, sep);
  }

  /** Two pieces with an empty one between them split apart. */
  lemma SplitThree(a: string, b: string, sep: string)
    requires |sep| > 0 && Clear(a, sep) && Clear(b, sep)
    ensures Split(a + (sep + sep + b), sep) == [a, "", b]
  {
    Regroup4(a, sep, sep, b);
    SplitAfterClear(a, sep, sep + b);
    SplitBlankThen(sep, b);
    assert [a] + ["", b] == [a, "", b];
  }

  /** A text line, a blank line and a metadata line split apart. */
  lemma ThreeLines(text: string, meta: string)
    requires Clear(text, "\n") && Clear(meta, "\n")
    ensures Split(text + ("\n\n" + meta), "\n") == [text, "", meta]
  {
    assert "\n\n" == "\n" + "\n";
    SplitThree(text, meta, "\n");
  }

  /** Of those three, the filter keeps the text and the blank line. */
  lemma KeepThree(text: string, meta: string)
    requires !IsMetadataLine(text) && IsMetadataLine(meta)
    ensures KeepLines([text, "", meta]) == [text, ""]
  {
    BlankNotMetadata();
    var lines := [text, "", meta];
    assert lines[1..] == ["", meta] && lines[1..][1..] == [meta];
    assert KeepLines([meta]) == [] + KeepLines([]);
    assert KeepLines(["", meta]) == [""] + KeepLines([meta]);
  }

  /** Joined and stripped, they give back the text. */
  lemma JoinTextBlank(text: string)
    requires ReadableText(text)
    ensures Strip(Join([text, ""], "\n")) == text
  {
    assert Join([text, ""], "\n") == text + "\n" + "";
    StripAround("", text, "\n");
    assert "" + text + "\n" == text + "\n" + "";
  }

  /** The main text of a single readable line. */
  lemma MainOfLine(text: string)
    requires ReadableText(text)
    ensures Strip(Join(KeepLines(Split(text, "\n")), "\n")) == text
  {
    TextNotMetadata(text);
    ClearByLead(text, "\n");
    ClearAbsent(text, "\n");
    SplitAbsent(text, "\n");
    assert KeepLines([text]) == [text] + KeepLines([]);
  }

  /** The main text of a single readable line, possibly followed by a blank
      line and a metadata line. */
  lemma MainOfLines(text: string, meta: string)
    requires ReadableText(text)
    requires meta == "" || (Clear(meta, "\n") && IsMetadataLine(meta))
    ensures Strip(Join(KeepLines(Split(text + (if meta == "" then "" else "\n\n" + meta), "\n")), "\n")) == text
  {
    if meta == "" {
      assert text + "" == text;
      MainOfLine(text);
    } else {
      TextNotMetadata(text);
      ClearByLead(text, "\n");
      ThreeLines(text, meta);
      KeepThree(text, meta);
      JoinTextBlank(text);
    }
  }

  /** The main text is read back from the rendered text. */
  lemma MainRecovered(c: Clipping, enableDate: bool)
    requires Readable(c, enableDate)
    ensures MainText(ClippingText(c, true, enableDate)) == c.text
  {
    var meta := Meta(c, enableDate);
    AfterNote(c, enableDate);
    if meta != "" {
      MetaOneLine(c, enableDate);
      MetaIsMetadata(c, enableDate);
    }
    MainOfLines(c.text, meta);
  }
}
