/** Reading the identity keys of the clippings already on a Notion page back
    out of its blocks. The reader is a state machine folded over the blocks:
    it remembers the text, location and page of the clipping being read and
    collects keys into a set. A divider closes the pending clipping, and so
    does the end of the list. Blocks of all result pages are read as one
    list, since the state is never reset between pages. */
module Reader {
  import opened Text
  import opened Markers
  import opened Normaliser
  import opened Renderer
  import opened Seqs

  datatype ReaderState = ReaderState(text: string, location: string, page: string, ids: set<string>)

  /** Nothing read yet. */
  const Start: ReaderState := ReaderState("", "", "", {})

  /** The key the reader builds for a clipping: the first fifty characters of
      its main text, then location and page, separated by bars, stripped as a
      whole. As written the text keeps its case; `foldCase` selects the
      corrected reader that lower-cases it as the normaliser does. The key is
      never empty, so the emptiness guard before each insertion never fires. */
  function ReadKey(main: string, location: string, page: string, foldCase: bool): (key: string)
    ensures key != ""
  {
    var head := Take(main, ID_TEXT_LENGTH);
    var raw := (if foldCase then Lower(head) else head) + KEY_SEPARATOR + location + KEY_SEPARATOR + page;
    assert raw[|head|] == '|';
    StripNonEmptyAt(raw, |head|);
    Strip(raw)
  }

  /** A line the reader treats as metadata: it holds one of the emoji, one of
      the plain-text labels, or an underscore. */
  predicate IsMetadataLine(line: string) {
    || Contains(line, PAGE_EMOJI)
    || Contains(line, LOCATION_EMOJI)
    || Contains(line, DATE_EMOJI)
    || Contains(line, PAGE_KEYWORD)
    || Contains(line, LOCATION_KEYWORD)
    || Contains(line, DATE_ADDED_KEYWORD)
    || Contains(line, "_")
  }

  /** The lines that are not metadata, in their order. */
  function KeepLines(lines: seq<string>): (kept: seq<string>)
    ensures |kept| <= |lines|
    ensures forall k :: 0 <= k < |kept| ==> !IsMetadataLine(kept[k]) && kept[k] in lines
    ensures forall k :: 0 <= k < |lines| && !IsMetadataLine(lines[k]) ==> lines[k] in kept
    decreases |lines|
  {
    if |lines| == 0 then []
    else
      var rest := KeepLines(lines[1..]);
      assert forall k :: 1 <= k < |lines| ==> lines[k] == lines[1..][k - 1];
      (if IsMetadataLine(lines[0]) then [] else [lines[0]]) + rest
  }

  /** Filtering is done line by line, so it keeps the order and the
      repetitions of the lines it keeps. */
  lemma {:induction false} KeepLinesAppend(a: seq<string>, b: seq<string>)
    ensures KeepLines(a + b) == KeepLines(a) + KeepLines(b)
    decreases |a|
  {
    if |a| == 0 {
      assert a + b == b;
    } else {
      var h := if IsMetadataLine(a[0]) then [] else [a[0]];
      assert (a + b)[0] == a[0];
      assert (a + b)[1..] == a[1..] + b;
      KeepLinesAppend(a[1..], b);
      Regroup3(h, KeepLines(a[1..]), KeepLines(b));
    }
  }

  /** A single line is kept exactly when it is not metadata. */
  lemma KeepLinesOne(line: string)
    ensures KeepLines([line]) == if IsMetadataLine(line) then [] else [line]
  {
    assert [line][1..] == [];
  }

  /** The main text of a block: what follows the last note marker if the
      block is a note, without its metadata lines, stripped. */
  function MainText(t: string): (main: string)
    ensures main == [] || (!IsSpace(main[0]) && !IsSpace(main[|main| - 1]))
  {
    var afterNote := if Contains(t, NOTE_MARKER) then Last(Split(t, NOTE_PREFIX)) else t;
    Strip(Join(KeepLines(Split(afterNote, "\n")), "\n"))
  }

  /** The value written after `marker`, up to the next bullet, stripped. */
  function MarkedValue(t: string, marker: string): string
    requires |marker| > 0 && Contains(t, marker)
  {
    Strip(Split(Split(t, marker)[1], BULLET)[0])
  }

  /** The value written after a plain-text label, up to the next comma,
      stripped. */
  function LabelledValue(t: string, tag: string): string
    requires |tag| > 0 && Contains(t, tag)
  {
    Strip(Split(Split(t, tag)[1], ",")[0])
  }

  /** The location a block states, or `current` when it states none. */
  function LocationOf(t: string, current: string): (loc: string)
    ensures !Contains(t, LOCATION_MARKER) && !Contains(t, LOCATION_KEYWORD) ==> loc == current
  {
    if Contains(t, LOCATION_MARKER) then MarkedValue(t, LOCATION_MARKER)
    else if Contains(t, LOCATION_KEYWORD) then LabelledValue(t, LOCATION_KEYWORD)
    else current
  }

  /** The page a block states, or `current` when it states none. */
  function PageOf(t: string, current: string): (page: string)
    ensures !Contains(t, PAGE_MARKER) && !Contains(t, PAGE_KEYWORD) ==> page == current
  {
    if Contains(t, PAGE_MARKER) then MarkedValue(t, PAGE_MARKER)
    else if Contains(t, PAGE_KEYWORD) then LabelledValue(t, PAGE_KEYWORD)
    else current
  }

  function AddKey(ids: set<string>, key: string): set<string> {
    if key != "" then ids + {key} else ids
  }

  /** Closing the pending clipping: its key is built from the first line of
      its text with the note prefix removed, and the pending text, location
      and page are cleared. With no pending text nothing happens, not even
      the clearing. */
  function Flush(s: ReaderState, foldCase: bool): (r: ReaderState)
    ensures r.text == ""
    ensures s.ids <= r.ids && |r.ids - s.ids| <= 1
    ensures s.text == "" ==> r == s
    ensures s.text != "" ==> r.location == "" && r.page == ""
    ensures "" in r.ids ==> "" in s.ids
  {
    if s.text == "" then s
    else
      var main := Strip(Replace(Split(s.text, "\n")[0], NOTE_PREFIX, ""));
      var r := ReaderState("", "", "", AddKey(s.ids, ReadKey(main, s.location, s.page, foldCase)));
      assert r.ids - s.ids <= {ReadKey(main, s.location, s.page, foldCase)};
      r
  }

  /** One block. A divider closes the pending clipping; a block with text
      updates location and page from its metadata and, if it has main text,
      becomes the pending clipping and adds its own key; any other block is
      skipped. */
  function Step(s: ReaderState, b: Block, foldCase: bool): (r: ReaderState)
    ensures s.ids <= r.ids && |r.ids - s.ids| <= 1
    ensures !b.Divider? && BlockText(b) == "" ==> r == s
    ensures "" in r.ids ==> "" in s.ids
  {
    if b.Divider? then Flush(s, foldCase)
    else
      var t := BlockText(b);
      if t == "" then s
      else
        var loc := LocationOf(t, s.location);
        var page := PageOf(t, s.page);
        var main := MainText(t);
        if main == "" then s.(location := loc, page := page)
        else
          var key := ReadKey(main, loc, page, foldCase);
          assert AddKey(s.ids, key) - s.ids <= {key};
          ReaderState(main, loc, page, AddKey(s.ids, key))
  }

  /** The reader folded over a list of blocks. */
  function ReadBlocks(s: ReaderState, blocks: seq<Block>, foldCase: bool): (r: ReaderState)
    ensures s.ids <= r.ids
    ensures "" in r.ids ==> "" in s.ids
    decreases |blocks|
  {
    if |blocks| == 0 then s else ReadBlocks(Step(s, blocks[0], foldCase), blocks[1..], foldCase)
  }

  /** Reading two lists one after the other is reading their concatenation:
      the reader may be fed page by page. */
  lemma {:induction false} ReadAppend(s: ReaderState, a: seq<Block>, b: seq<Block>, foldCase: bool)
    ensures ReadBlocks(s, a + b, foldCase) == ReadBlocks(ReadBlocks(s, a, foldCase), b, foldCase)
    decreases |a|
  {
    if |a| == 0 {
      assert a + b == b;
    } else {
      assert (a + b)[0] == a[0];
      assert (a + b)[1..] == a[1..] + b;
      ReadAppend(Step(s, a[0], foldCase), a[1..], b, foldCase);
    }
  }

  /** The keys read from a page, as written: the case of the text is kept.
      No key is empty, and there is at most one per block plus one for the
      clipping still pending at the end. */
  function ExistingIds(blocks: seq<Block>): (ids: set<string>)
    ensures "" !in ids
    ensures |ids| <= |blocks| + 1
  {
    var s := ReadBlocks(Start, blocks, false);
    ReadBlocksCount(Start, blocks, false);
    var r := Flush(s, false);
    assert r.ids == s.ids + (r.ids - s.ids);
    r.ids
  }

  /** The keys read from a page by the corrected reader, which lower-cases the
      text as the normaliser does. */
  function ExistingIdsCaseFolded(blocks: seq<Block>): (ids: set<string>)
    ensures "" !in ids
    ensures |ids| <= |blocks| + 1
  {
    var s := ReadBlocks(Start, blocks, true);
    ReadBlocksCount(Start, blocks, true);
    var r := Flush(s, true);
    assert r.ids == s.ids + (r.ids - s.ids);
    r.ids
  }

  /** Each block adds at most one key, the final flush at most one more. */
  lemma {:induction false} ReadBlocksCount(s: ReaderState, blocks: seq<Block>, foldCase: bool)
    ensures |ReadBlocks(s, blocks, foldCase).ids| <= |s.ids| + |blocks|
    decreases |blocks|
  {
    if |blocks| > 0 {
      var t := Step(s, blocks[0], foldCase);
      assert t.ids == s.ids + (t.ids - s.ids);
      ReadBlocksCount(t, blocks[1..], foldCase);
    }
  }

  /** The clippings whose key is not among the existing ones, in their order. */
  function FindNew(cs: seq<Clipping>, existing: set<string>): (added: seq<Clipping>)
    ensures |added| <= |cs|
    ensures forall k :: 0 <= k < |added| ==> added[k].id !in existing && added[k] in cs
    ensures forall k :: 0 <= k < |cs| && cs[k].id !in existing ==> cs[k] in added
    decreases |cs|
  {
    if |cs| == 0 then []
    else
      var rest := FindNew(cs[1..], existing);
      assert forall k :: 1 <= k < |cs| ==> cs[k] == cs[1..][k - 1];
      (if cs[0].id in existing then [] else [cs[0]]) + rest
  }

  /** Filtering is done element by element, so it keeps the order. */
  lemma {:induction false} FindNewAppend(a: seq<Clipping>, b: seq<Clipping>, existing: set<string>)
    ensures FindNew(a + b, existing) == FindNew(a, existing) + FindNew(b, existing)
    decreases |a|
  {
    if |a| == 0 {
      assert a + b == b;
    } else {
      var h := if a[0].id in existing then [] else [a[0]];
      assert (a + b)[0] == a[0];
      assert (a + b)[1..] == a[1..] + b;
      assert FindNew(a + b, existing) == h + FindNew(a[1..] + b, existing);
      FindNewAppend(a[1..], b, existing);
      assert FindNew(a, existing) == h + FindNew(a[1..], existing);
      Regroup3(h, FindNew(a[1..], existing), FindNew(b, existing));
    }
  }
}
