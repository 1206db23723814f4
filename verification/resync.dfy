/** Rendering a book and reading its page back: which keys the reader finds,
    and whether a second sync of the same clippings adds anything. */
module Resync {
  import opened Text
  import opened TextFacts
  import opened Markers
  import opened MarkerFacts
  import opened Normaliser
  import opened Renderer
  import opened Reader
  import opened RoundTrip

  /** The reader between clippings: nothing pending. */
  function Idle(ids: set<string>): ReaderState {
    ReaderState("", "", "", ids)
  }

  /** The key the reader builds for a rendered clipping, given that it reads
      the text, location and page back unchanged. */
  function ReaderKey(c: Clipping, foldCase: bool): string {
    ReadKey(c.text, c.location, c.page, foldCase)
  }

  /** The keys the reader builds for a list of rendered clippings. */
  function ReaderKeys(cs: seq<Clipping>, foldCase: bool): set<string> {
    set k | 0 <= k < |cs| :: ReaderKey(cs[k], foldCase)
  }

  /** The keys the normaliser gave a list of clippings. */
  function Ids(cs: seq<Clipping>): set<string> {
    set k | 0 <= k < |cs| :: cs[k].id
  }

  /** Reading the content block of a readable clipping makes it the pending
      clipping, with its own text, location and page, and adds its key. */
  lemma ReadContent(c: Clipping, enableDate: bool, ids: set<string>, foldCase: bool)
    requires Readable(c, enableDate)
    ensures Step(Idle(ids), ContentBlock(c, true, enableDate), foldCase)
      == ReaderState(c.text, c.location, c.page, ids + {ReaderKey(c, foldCase)})
  {
    var t := ClippingText(c, true, enableDate);
    TextLayout(c, enableDate);
    assert |t| >= |c.text| > 0;
    LocationRecovered(c, enableDate);
    PageRecovered(c, enableDate);
    MainRecovered(c, enableDate);
  }

  /** Closing a pending readable clipping adds the key built from its text. */
  lemma FlushRecovered(text: string, location: string, page: string, ids: set<string>, foldCase: bool)
    requires ReadableText(text)
    ensures Flush(ReaderState(text, location, page, ids), foldCase)
      == Idle(ids + {ReadKey(text, location, page, foldCase)})
  {
    Leads();
    ClearByLead(text, "\n");
    ClearAbsent(text, "\n");
    SplitAbsent(text, "\n");
    ClearByLead(text, NOTE_PREFIX);
    ClearAbsent(text, NOTE_PREFIX);
    ReplaceAbsent(text, NOTE_PREFIX, "");
  }

  /** The two blocks of one readable clipping take the idle reader to the
      idle reader holding one more key: the key the content block adds and
      the key the divider adds are the same. */
  lemma ReadOne(c: Clipping, enableDate: bool, ids: set<string>, foldCase: bool)
    requires Readable(c, enableDate)
    ensures ReadBlocks(Idle(ids), RenderClipping(c, true, enableDate), foldCase)
      == Idle(ids + {ReaderKey(c, foldCase)})
  {
    var blocks := RenderClipping(c, true, enableDate);
    var key := ReaderKey(c, foldCase);
    ReadContent(c, enableDate, ids, foldCase);
    var s1 := ReaderState(c.text, c.location, c.page, ids + {key});
    FlushRecovered(c.text, c.location, c.page, ids + {key}, foldCase);
    assert ids + {key} + {key} == ids + {key};
    assert blocks[1..] == [Divider];
    assert ReadBlocks(s1, [Divider], foldCase) == ReadBlocks(Step(s1, Divider, foldCase), [], foldCase);
  }

  lemma ReaderKeysCons(cs: seq<Clipping>, foldCase: bool)
    requires |cs| > 0
    ensures ReaderKeys(cs, foldCase) == {ReaderKey(cs[0], foldCase)} + ReaderKeys(cs[1..], foldCase)
  {
    forall x | x in ReaderKeys(cs, foldCase)
      ensures x in {ReaderKey(cs[0], foldCase)} + ReaderKeys(cs[1..], foldCase)
    {
      var k :| 0 <= k < |cs| && x == ReaderKey(cs[k], foldCase);
      if k > 0 {
        assert cs[1..][k - 1] == cs[k];
      }
    }
    forall x | x in ReaderKeys(cs[1..], foldCase)
      ensures x in ReaderKeys(cs, foldCase)
    {
      var k :| 0 <= k < |cs| - 1 && x == ReaderKey(cs[1..][k], foldCase);
      assert cs[1..][k] == cs[k + 1];
    }
  }

  lemma UnionAssoc(a: set<string>, b: set<string>, c: set<string>)
    ensures a + b + c == a + (b + c)
  {
  }

  lemma RenderAllCons(cs: seq<Clipping>, enableDate: bool)
    requires |cs| > 0
    ensures RenderAll(cs, true, enableDate)
      == RenderClipping(cs[0], true, enableDate) + RenderAll(cs[1..], true, enableDate)
  {
  }

  /** Reading all blocks rendered for readable clippings collects exactly the
      reader's keys of those clippings and leaves the reader idle. */
  lemma {:induction false} ReadAll(cs: seq<Clipping>, enableDate: bool, ids: set<string>, foldCase: bool)
    requires forall k :: 0 <= k < |cs| ==> Readable(cs[k], enableDate)
    ensures ReadBlocks(Idle(ids), RenderAll(cs, true, enableDate), foldCase)
      == Idle(ids + ReaderKeys(cs, foldCase))
    decreases |cs|
  {
    if |cs| == 0 {
      assert ReaderKeys(cs, foldCase) == {};
      assert ids + {} == ids;
    } else {
      var key := ReaderKey(cs[0], foldCase);
      var head := RenderClipping(cs[0], true, enableDate);
      var tail := RenderAll(cs[1..], true, enableDate);
      RenderAllCons(cs, enableDate);
      ReadAppend(Idle(ids), head, tail, foldCase);
      ReadOne(cs[0], enableDate, ids, foldCase);
      assert forall k :: 0 <= k < |cs[1..]| ==> Readable(cs[1..][k], enableDate) by {
        forall k | 0 <= k < |cs[1..]| ensures Readable(cs[1..][k], enableDate) {
          assert cs[1..][k] == cs[k + 1];
        }
      }
      ReadAll(cs[1..], enableDate, ids + {key}, foldCase);
      ReaderKeysCons(cs, foldCase);
      UnionAssoc(ids, {key}, ReaderKeys(cs[1..], foldCase));
    }
  }

  /** The keys found on a freshly rendered page are the reader's keys of its
      clippings, with the final flush adding nothing. */
  lemma RenderedKeys(cs: seq<Clipping>, enableDate: bool, foldCase: bool)
    requires forall k :: 0 <= k < |cs| ==> Readable(cs[k], enableDate)
    ensures Flush(ReadBlocks(Start, RenderAll(cs, true, enableDate), foldCase), foldCase).ids
      == ReaderKeys(cs, foldCase)
  {
    ReadAll(cs, enableDate, {}, foldCase);
    assert Start == Idle({});
    assert {} + ReaderKeys(cs, foldCase) == ReaderKeys(cs, foldCase);
  }

  /** The corrected reader builds exactly the normaliser's key. */
  lemma CaseFoldedKeyIsIdentity(c: Clipping)
    requires WellKeyed(c) && ReadableText(c.text)
    ensures ReaderKey(c, true) == c.id
  {
  }

  /** The reader as written builds the normaliser's key when the text has no
      capital letter to fold. */
  lemma KeyIsIdentityWhenLowerCase(c: Clipping)
    requires WellKeyed(c) && ReadableText(c.text) && Lower(c.text) == c.text
    ensures ReaderKey(c, false) == c.id
  {
    LowerTake(c.text, ID_TEXT_LENGTH);
  }

  lemma KeysAreIds(cs: seq<Clipping>, foldCase: bool)
    requires forall k :: 0 <= k < |cs| ==> WellKeyed(cs[k]) && ReadableText(cs[k].text)
    requires !foldCase ==> forall k :: 0 <= k < |cs| ==> Lower(cs[k].text) == cs[k].text
    ensures ReaderKeys(cs, foldCase) == Ids(cs)
  {
    forall k | 0 <= k < |cs| ensures ReaderKey(cs[k], foldCase) == cs[k].id {
      if foldCase {
        CaseFoldedKeyIsIdentity(cs[k]);
      } else {
        KeyIsIdentityWhenLowerCase(cs[k]);
      }
    }
  }

  /** The corrected reader finds on a rendered page exactly the keys the
      normaliser gave its clippings. */
  lemma RoundTripCaseFolded(cs: seq<Clipping>, enableDate: bool)
    requires forall k :: 0 <= k < |cs| ==> WellKeyed(cs[k]) && Readable(cs[k], enableDate)
    ensures ExistingIdsCaseFolded(RenderAll(cs, true, enableDate)) == Ids(cs)
  {
    RenderedKeys(cs, enableDate, true);
    KeysAreIds(cs, true);
  }

  /** The reader as written does the same when no clipping text holds a
      capital letter. */
  lemma RoundTripLowerCase(cs: seq<Clipping>, enableDate: bool)
    requires forall k :: 0 <= k < |cs| ==> WellKeyed(cs[k]) && Readable(cs[k], enableDate)
    requires forall k :: 0 <= k < |cs| ==> Lower(cs[k].text) == cs[k].text
    ensures ExistingIds(RenderAll(cs, true, enableDate)) == Ids(cs)
  {
    RenderedKeys(cs, enableDate, false);
    KeysAreIds(cs, false);
  }

  /** Syncing the same clippings a second time adds nothing: every clipping
      already has its key on the page. */
  lemma ResyncAddsNothing(cs: seq<Clipping>, enableDate: bool)
    requires forall k :: 0 <= k < |cs| ==> WellKeyed(cs[k]) && Readable(cs[k], enableDate)
    ensures FindNew(cs, ExistingIdsCaseFolded(RenderAll(cs, true, enableDate))) == []
  {
    RoundTripCaseFolded(cs, enableDate);
    NothingNewOfIds(cs);
  }

  /** Against their own keys, no clipping is new. */
  lemma NothingNewOfIds(cs: seq<Clipping>)
    ensures FindNew(cs, Ids(cs)) == []
  {
    assert forall k :: 0 <= k < |cs| ==> cs[k].id in Ids(cs);
    NothingNew(cs, Ids(cs));
  }

  /** When every key is already present, nothing is new. */
  lemma {:induction false} NothingNew(cs: seq<Clipping>, existing: set<string>)
    requires forall k :: 0 <= k < |cs| ==> cs[k].id in existing
    ensures FindNew(cs, existing) == []
    decreases |cs|
  {
    if |cs| > 0 {
      assert forall k :: 0 <= k < |cs[1..]| ==> cs[1..][k] == cs[k + 1];
      NothingNew(cs[1..], existing);
    }
  }

  /** Stripping keeps a first character that is not whitespace. */
  lemma StripFirst(s: string)
    requires s != [] && !IsSpace(s[0])
    ensures Strip(s) != [] && Strip(s)[0] == s[0]
  {
    TrimLeftSpaces("", s);
    assert "" + s == s;
  }

  /** A key starts with the first character of its text part when that is
      not whitespace. */
  lemma KeyStart(head: string, location: string, page: string)
    requires head != [] && !IsSpace(head[0])
    ensures Strip(head + KEY_SEPARATOR + location + KEY_SEPARATOR + page) != []
    ensures Strip(head + KEY_SEPARATOR + location + KEY_SEPARATOR + page)[0] == head[0]
  {
    StripFirst(head + KEY_SEPARATOR + location + KEY_SEPARATOR + page);
  }

  /** The key read back starts with the text's first character. */
  lemma ReaderKeyFirst(c: Clipping)
    requires c.text != "" && !IsSpace(c.text[0])
    ensures ReaderKey(c, false) != [] && ReaderKey(c, false)[0] == c.text[0]
  {
    var head := Take(c.text, ID_TEXT_LENGTH);
    assert head[0] == c.text[0];
    KeyStart(head, c.location, c.page);
  }

  /** The normaliser's key starts with the lower-case form of it. */
  lemma IdFirst(c: Clipping)
    requires WellKeyed(c) && c.text != "" && Strip(c.text) == c.text && !IsSpace(c.text[0])
    ensures c.id != [] && c.id[0] == LowerChar(c.text[0])
  {
    var head := Lower(Take(c.text, ID_TEXT_LENGTH));
    assert head[0] == LowerChar(c.text[0]);
    KeyStart(head, c.location, c.page);
  }

  /** The key read back starts with the capital, the normaliser's key with
      its lower-case form. */
  lemma KeyKeepsCapital(c: Clipping)
    requires WellKeyed(c) && c.text != "" && Strip(c.text) == c.text && 'A' <= c.text[0] <= 'Z'
    ensures ReaderKey(c, false) != c.id
  {
    ReaderKeyFirst(c);
    IdFirst(c);
  }

  lemma FindNewOne(c: Clipping, existing: set<string>)
    ensures FindNew([c], existing) == if c.id in existing then [] else [c]
  {
    assert [c][1..] == [];
  }

  /** The page of a single readable clipping yields its reader key alone. */
  lemma SingleRendered(c: Clipping, enableDate: bool)
    requires Readable(c, enableDate)
    ensures ExistingIds(RenderAll([c], true, enableDate)) == {ReaderKey(c, false)}
  {
    assert forall k :: 0 <= k < |[c]| ==> Readable([c][k], enableDate) by {
      assert [c][0] == c;
    }
    RenderedKeys([c], enableDate, false);
    ReaderKeysOne(c, false);
  }

  lemma ReaderKeysOne(c: Clipping, foldCase: bool)
    ensures ReaderKeys([c], foldCase) == {ReaderKey(c, foldCase)}
  {
    assert [c][0] == c;
  }

  /** The reader as written misses every clipping whose text starts with a
      capital letter on the very page it was just written to: the key it
      reads back keeps the capital the normaliser folded, so the clipping
      counts as new again. "Great quote" at location 120-121, page 12 is
      one such clipping. */
  lemma ReaderMissesCapitalisedText(c: Clipping, enableDate: bool)
    requires WellKeyed(c) && Readable(c, enableDate) && 'A' <= c.text[0] <= 'Z'
    ensures ExistingIds(RenderAll([c], true, enableDate)) == {ReaderKey(c, false)}
    ensures ReaderKey(c, false) != c.id
    ensures FindNew([c], ExistingIds(RenderAll([c], true, enableDate))) == [c]
  {
    SingleRendered(c, enableDate);
    KeyKeepsCapital(c);
    FindNewOne(c, {ReaderKey(c, false)});
  }
}
