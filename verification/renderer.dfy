/** Rendering of prepared clippings into Notion blocks: a quote for a
    highlight, a callout with a light-bulb icon for a note, each followed by a
    divider. The visible text carries a metadata line with page, location and
    date. */
module Renderer {
  import opened Text
  import opened Markers
  import opened Normaliser
  import opened Seqs

  /** One rich-text element of a block: the content sent and the plain text
      Notion reports back for it. Annotations are fixed and not modelled. */
  datatype RichText = RichText(content: string, plainText: string)

  /** The block kinds the sync engine writes or reads back. */
  datatype Block =
    | Quote(richText: seq<RichText>)
    | Callout(richText: seq<RichText>, icon: string)
    | Divider
    | Paragraph(richText: seq<RichText>)
    | OtherBlock(kind: string)

  /** The plain texts of a rich-text array, concatenated. */
  function PlainText(rs: seq<RichText>): string
    decreases |rs|
  {
    if |rs| == 0 then "" else rs[0].plainText + PlainText(rs[1..])
  }

  /** The visible text of a block; blocks without rich text have none. */
  function BlockText(b: Block): string {
    match b
    case Quote(rs) => PlainText(rs)
    case Callout(rs, _) => PlainText(rs)
    case Paragraph(rs) => PlainText(rs)
    case _ => ""
  }

  /** A rich-text array carrying `text`: empty for the empty string, otherwise
      one element whose content and plain text are the whole string. */
  function RichTextArray(text: string): (rs: seq<RichText>)
    ensures rs == [] <==> text == ""
    ensures |rs| <= 1
    ensures forall k :: 0 <= k < |rs| ==> rs[k].content == text
    ensures PlainText(rs) == text
  {
    if text == "" then [] else [RichText(text, text)]
  }

  function PagePart(page: string): string {
    PAGE_MARKER + " " + page
  }

  function LocationPart(location: string): string {
    LOCATION_MARKER + " " + location
  }

  function DatePart(date: string): string {
    DATE_EMOJI + " " + date
  }

  /** The metadata parts in display order. Page and location are shown only
      when locations are enabled and the value is non-empty; the date only when
      dates are enabled and it is non-empty. */
  function MetadataParts(c: Clipping, enableLocation: bool, enableDate: bool): (parts: seq<string>)
    ensures |parts| <= 3
  {
    (if enableLocation && c.page != "" then [PagePart(c.page)] else [])
    + (if enableLocation && c.location != "" then [LocationPart(c.location)] else [])
    + (if enableDate && c.date != "" then [DatePart(c.date)] else [])
  }

  /** The metadata line: the parts joined by a bullet. */
  function MetadataLine(c: Clipping, enableLocation: bool, enableDate: bool): string {
    Join(MetadataParts(c, enableLocation, enableDate), METADATA_SEPARATOR)
  }

  /** The text above the metadata: the note marker and a blank line for a
      note, the clipping text alone for a highlight. */
  function Body(c: Clipping): string {
    if c.isNote then NOTE_PREFIX + c.text else c.text
  }

  /** The full visible text of the content block. */
  function ClippingText(c: Clipping, enableLocation: bool, enableDate: bool): string {
    var meta := MetadataLine(c, enableLocation, enableDate);
    if meta != "" then Body(c) + "\n\n" + meta else Body(c)
  }

  /** The content block of a clipping: a callout with the light-bulb icon for
      a note, a quote for a highlight, carrying the clipping's full text. */
  function ContentBlock(c: Clipping, enableLocation: bool, enableDate: bool): (b: Block)
    ensures c.isNote <==> b.Callout?
    ensures !c.isNote <==> b.Quote?
    ensures b.Callout? ==> b.icon == NOTE_EMOJI
    ensures BlockText(b) == ClippingText(c, enableLocation, enableDate)
  {
    var rs := RichTextArray(ClippingText(c, enableLocation, enableDate));
    if c.isNote then Callout(rs, NOTE_EMOJI) else Quote(rs)
  }

  /** The blocks for one clipping: its content block, then a divider. */
  function RenderClipping(c: Clipping, enableLocation: bool, enableDate: bool): (blocks: seq<Block>)
    ensures |blocks| == 2
    ensures blocks[0] == ContentBlock(c, enableLocation, enableDate) && blocks[1] == Divider
  {
    [ContentBlock(c, enableLocation, enableDate), Divider]
  }

  /** The content block of each clipping, as a function of the clipping. */
  function ContentOf(enableLocation: bool, enableDate: bool): Clipping -> Block {
    c => ContentBlock(c, enableLocation, enableDate)
  }

  /** The blocks for a list of clippings, two per clipping, in clipping order. */
  function RenderAll(cs: seq<Clipping>, enableLocation: bool, enableDate: bool): (blocks: seq<Block>)
    ensures |blocks| == 2 * |cs|
  {
    PairUp(cs, ContentOf(enableLocation, enableDate), Divider)
  }

  /** Block `2k` is the content block of clipping `k`, block `2k + 1` the
      divider after it. */
  lemma RenderAllAt(cs: seq<Clipping>, enableLocation: bool, enableDate: bool, k: nat)
    requires k < |cs|
    ensures RenderAll(cs, enableLocation, enableDate)[2 * k] == ContentBlock(cs[k], enableLocation, enableDate)
    ensures RenderAll(cs, enableLocation, enableDate)[2 * k + 1] == Divider
  {
    PairUpAt(cs, ContentOf(enableLocation, enableDate), Divider, k);
  }

  /** The segments the metadata line is made of, each with the separator that
      precedes it: page first, then location, then date. */
  function PageSegment(c: Clipping): string {
    if c.page != "" then PagePart(c.page) else ""
  }

  function LocationSegment(c: Clipping): string {
    if c.location == "" then ""
    else (if c.page != "" then METADATA_SEPARATOR else "") + LocationPart(c.location)
  }

  function DateSegment(c: Clipping, enableDate: bool): string {
    if !(enableDate && c.date != "") then ""
    else (if c.page != "" || c.location != "" then METADATA_SEPARATOR else "") + DatePart(c.date)
  }

  /** Up to three pieces, each present or not, in order. */
  function Shown(showP: bool, showL: bool, showD: bool, p: string, l: string, d: string): seq<string> {
    (if showP then [p] else []) + (if showL then [l] else []) + (if showD then [d] else [])
  }

  lemma JoinTwo(x: string, y: string, sep: string)
    ensures Join([x, y], sep) == x + (sep + y)
  {
    assert [x, y][1..] == [y];
  }

  lemma JoinThree(x: string, y: string, z: string, sep: string)
    ensures Join([x, y, z], sep) == x + (sep + y) + (sep + z)
  {
    assert [x, y, z][1..] == [y, z];
    JoinTwo(y, z, sep);
  }

  /** Joining the shown pieces puts the separator before every shown piece
      but the first. */
  lemma JoinShown(showP: bool, showL: bool, showD: bool, p: string, l: string, d: string, sep: string)
    ensures Join(Shown(showP, showL, showD, p, l, d), sep)
      == (if showP then p else "")
         + (if showL then (if showP then sep else "") + l else "")
         + (if showD then (if showP || showL then sep else "") + d else "")
  {
    var parts := Shown(showP, showL, showD, p, l, d);
    if showP && showL && showD {
      assert parts == [p, l, d];
      JoinThree(p, l, d, sep);
    } else if showP && showL {
      assert parts == [p, l];
      JoinTwo(p, l, sep);
    } else if showP && showD {
      assert parts == [p, d];
      JoinTwo(p, d, sep);
    } else if showL && showD {
      assert parts == [l, d];
      JoinTwo(l, d, sep);
    } else if showP {
      assert parts == [p];
    } else if showL {
      assert parts == [l];
    } else if showD {
      assert parts == [d];
    } else {
      assert parts == [];
    }
  }

  /** With locations enabled, the metadata line is the page segment, then the
      location segment, then the date segment, bullets only between shown
      parts; it is empty exactly when nothing is shown. */
  lemma MetadataLayout(c: Clipping, enableDate: bool)
    ensures MetadataLine(c, true, enableDate) == PageSegment(c) + LocationSegment(c) + DateSegment(c, enableDate)
    ensures MetadataLine(c, true, enableDate) == "" <==>
      (c.page == "" && c.location == "" && !(enableDate && c.date != ""))
  {
    var showD := enableDate && c.date != "";
    assert MetadataParts(c, true, enableDate)
      == Shown(c.page != "", c.location != "", showD, PagePart(c.page), LocationPart(c.location), DatePart(c.date));
    JoinShown(c.page != "", c.location != "", showD, PagePart(c.page), LocationPart(c.location), DatePart(c.date),
      METADATA_SEPARATOR);
  }

  /** With locations disabled only the date can be shown. */
  lemma MetadataWithoutLocation(c: Clipping, enableDate: bool)
    ensures MetadataLine(c, false, enableDate) == (if enableDate && c.date != "" then DatePart(c.date) else "")
  {
    var parts := MetadataParts(c, false, enableDate);
    if enableDate && c.date != "" {
      assert parts == [DatePart(c.date)];
    } else {
      assert parts == [];
    }
  }
}
