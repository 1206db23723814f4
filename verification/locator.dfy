/** Finding the Notion page of a book: among the pages a title search
    returns, the first whose parent is the sync database and whose title
    equals the book title up to case and surrounding whitespace. Ids are
    compared with hyphens removed and lower-cased. The search results arrive
    in pages; the first page and the later ones are checked by two different
    loops, and only the first accepts a page whose parent is one of the
    database's data sources. */
module Locator {
  import opened Wrappers
  import opened Text
  import opened TextFacts
  import opened Seqs

  /** The parent of a retrieved page. */
  datatype Parent =
    | DatabaseParent(databaseId: string)
    | DataSourceParent(dataSourceId: string)
    | PageParent(pageId: string)
    | OtherParent

  /** The Title property: a title-typed property carries rich-text parts,
      any other is shown as a string. */
  datatype TitleProperty = TitleParts(plainTexts: seq<string>) | OtherTitle(shown: string)

  datatype PageRecord = PageRecord(id: string, parent: Parent, title: TitleProperty)

  /** One search result once retrieved: `None` when the result has no id or
      retrieving it failed, both of which skip it. */
  type SearchResult = Option<PageRecord>

  // ---- ids ----

  /** The id without its hyphens. */
  function DropHyphens(s: string): (r: string)
    ensures |r| <= |s|
    ensures '-' !in r
    decreases |s|
  {
    if |s| == 0 then ""
    else (if s[0] == '-' then "" else [s[0]]) + DropHyphens(s[1..])
  }

  /** Ids as compared: hyphens removed, lower-cased. */
  function NormalizeId(id: string): string {
    Lower(DropHyphens(id))
  }

  lemma {:induction false} DropHyphensAppend(a: string, b: string)
    ensures DropHyphens(a + b) == DropHyphens(a) + DropHyphens(b)
    decreases |a|
  {
    if |a| == 0 {
      assert a + b == b;
    } else {
      var h := if a[0] == '-' then "" else [a[0]];
      assert (a + b)[0] == a[0];
      assert (a + b)[1..] == a[1..] + b;
      assert DropHyphens(a + b) == h + DropHyphens(a[1..] + b);
      DropHyphensAppend(a[1..], b);
      assert DropHyphens(a) == h + DropHyphens(a[1..]);
      Regroup3(h, DropHyphens(a[1..]), DropHyphens(b));
    }
  }

  lemma {:induction false} DropHyphensKeeps(s: string)
    requires '-' !in s
    ensures DropHyphens(s) == s
    decreases |s|
  {
    if |s| > 0 {
      assert s == [s[0]] + s[1..];
      DropHyphensKeeps(s[1..]);
    }
  }

  /** A 32-character id written 8-4-4-4-12. */
  function Hyphenate(id: string): (r: string)
    requires |id| == 32
    ensures |r| == 36
    ensures r[8] == '-' && r[13] == '-' && r[18] == '-' && r[23] == '-'
  {
    id[..8] + "-" + id[8..12] + "-" + id[12..16] + "-" + id[16..20] + "-" + id[20..]
  }

  lemma DashFirst(y: string)
    ensures DropHyphens("-" + y) == DropHyphens(y)
  {
    var s := "-" + y;
    assert s[0] == '-' && s[1..] == y;
  }

  /** Removing one dash between two hyphen-free pieces. */
  lemma DropDash(x: string, y: string)
    requires '-' !in x
    ensures DropHyphens(x + ("-" + y)) == x + DropHyphens(y)
  {
    DropHyphensAppend(x, "-" + y);
    DropHyphensKeeps(x);
    DashFirst(y);
  }

  /** Removing the hyphens from the 8-4-4-4-12 form gives back the id. */
  lemma HyphenateRoundTrip(id: string)
    requires |id| == 32 && '-' !in id
    ensures DropHyphens(Hyphenate(id)) == id
    ensures NormalizeId(Hyphenate(id)) == NormalizeId(id)
  {
    var a, b, c, d, e := id[..8], id[8..12], id[12..16], id[16..20], id[20..];
    var r4 := d + ("-" + e);
    var r3 := c + ("-" + r4);
    var r2 := b + ("-" + r3);
    assert Hyphenate(id) == a + ("-" + r2);
    DropHyphensKeeps(e);
    DropDash(d, e);
    DropDash(c, r4);
    DropDash(b, r3);
    DropDash(a, r2);
    assert a + (b + (c + (d + e))) == id;
    DropHyphensKeeps(id);
  }

  /** The database id as sent to Notion: a bare 32-character id is
      hyphenated, any other is replaced by its canonical form when the UUID
      parser (outside this model) yields one, and kept otherwise. */
  function FormatDatabaseId(id: string, canonical: Option<string>): (r: string)
    ensures |id| == 32 && '-' !in id ==> r == Hyphenate(id)
    ensures !(|id| == 32 && '-' !in id) ==> r == canonical.GetOr(id)
  {
    if |id| == 32 && '-' !in id then Hyphenate(id) else canonical.GetOr(id)
  }

  /** Formatting a bare id does not change what it is compared as. */
  lemma FormatKeepsNormalId(id: string, canonical: Option<string>)
    requires |id| == 32 && '-' !in id
    ensures NormalizeId(FormatDatabaseId(id, canonical)) == NormalizeId(id)
  {
    HyphenateRoundTrip(id);
  }

  /** The ids of the database's data sources that are present and non-empty,
      in their order. */
  function PresentIds(sources: seq<Option<string>>): (r: seq<string>)
    ensures forall x :: x in r <==> (x != "" && Some(x) in sources)
    decreases |sources|
  {
    if |sources| == 0 then []
    else
      var rest := PresentIds(sources[1..]);
      assert forall o :: o in sources <==> o == sources[0] || o in sources[1..];
      (if sources[0].Some? && sources[0].value != "" then [sources[0].value] else []) + rest
  }

  /** The data-source ids compared against, normalised; none when the
      database could not be retrieved or lists no data sources. */
  function NormalizedDataSources(sources: Option<seq<Option<string>>>): (r: seq<string>)
    ensures sources.None? ==> r == []
    ensures sources.Some? ==> |r| == |PresentIds(sources.value)|
    ensures sources.Some? ==> forall k :: 0 <= k < |r| ==> r[k] == NormalizeId(PresentIds(sources.value)[k])
  {
    match sources
    case None => []
    case Some(ds) =>
      var ids := PresentIds(ds);
      seq(|ids|, k requires 0 <= k < |ids| => NormalizeId(ids[k]))
  }

  // ---- titles ----

  /** The title text of a page. */
  function PageTitle(t: TitleProperty): string {
    match t
    case TitleParts(parts) => Join(parts, "")
    case OtherTitle(s) => s
  }

  /** Titles are compared stripped and lower-cased. */
  predicate TitleMatches(pageTitle: string, title: string): (m: bool)
    ensures Strip(pageTitle) == Strip(title) ==> m
    ensures m ==> |Strip(pageTitle)| == |Strip(title)|
  {
    Lower(Strip(pageTitle)) == Lower(Strip(title))
  }

  lemma LowerCharFacts(c: char)
    ensures IsSpace(Text.LowerChar(c)) <==> IsSpace(c)
    ensures Text.LowerChar(Text.LowerChar(c)) == Text.LowerChar(c)
  {
  }

  lemma {:induction false} TrimLeftLower(s: string)
    ensures TrimLeft(Lower(s)) == Lower(TrimLeft(s))
    decreases |s|
  {
    if |s| > 0 {
      LowerCharFacts(s[0]);
      assert Lower(s)[0] == Text.LowerChar(s[0]);
      assert Lower(s)[1..] == Lower(s[1..]);
      TrimLeftLower(s[1..]);
    }
  }

  lemma {:induction false} TrimRightLower(s: string)
    ensures TrimRight(Lower(s)) == Lower(TrimRight(s))
    decreases |s|
  {
    if |s| > 0 {
      LowerCharFacts(s[|s| - 1]);
      assert Lower(s)[|s| - 1] == Text.LowerChar(s[|s| - 1]);
      assert Lower(s)[..|s| - 1] == Lower(s[..|s| - 1]);
      TrimRightLower(s[..|s| - 1]);
    }
  }

  /** Lower-casing a title first does not change whether it matches. */
  lemma TitleMatchIgnoresCase(pageTitle: string, title: string)
    ensures TitleMatches(Lower(pageTitle), title) <==> TitleMatches(pageTitle, title)
  {
    TrimLeftLower(pageTitle);
    TrimRightLower(TrimLeft(pageTitle));
    var s := Strip(pageTitle);
    assert Strip(Lower(pageTitle)) == Lower(s);
    assert Lower(Lower(s)) == Lower(s) by {
      forall i | 0 <= i < |s| ensures Lower(Lower(s))[i] == Lower(s)[i] {
        LowerCharFacts(s[i]);
      }
    }
  }

  // ---- which pages belong to the database ----

  /** The membership test of the first result page: a database parent must be the
      database, a data-source parent one of its data sources. A page parent
      or any other parent is skipped. */
  predicate OursOnFirstPage(p: PageRecord, db: string, dataSources: seq<string>): (ours: bool)
    ensures ours ==> p.parent.DatabaseParent? || p.parent.DataSourceParent?
    ensures p.parent.DatabaseParent? ==> (ours <==> OursOnLaterPage(p, db))
    ensures ours && p.parent.DataSourceParent? ==> NormalizeId(p.parent.dataSourceId) in dataSources
  {
    match p.parent
    case DatabaseParent(id) => id != "" && NormalizeId(id) == db
    case DataSourceParent(id) => id != "" && |dataSources| > 0 && NormalizeId(id) in dataSources
    case _ => false
  }

  /** The membership test of the later result pages: either kind of parent id must be
      the database id itself. */
  predicate OursOnLaterPage(p: PageRecord, db: string): (ours: bool)
    ensures ours ==> p.parent.DatabaseParent? || p.parent.DataSourceParent?
    ensures ours && p.parent.DatabaseParent? ==> NormalizeId(p.parent.databaseId) == db
    ensures ours && p.parent.DataSourceParent? ==> NormalizeId(p.parent.dataSourceId) == db
  {
    match p.parent
    case DatabaseParent(id) => id != "" && NormalizeId(id) == db
    case DataSourceParent(id) => id != "" && NormalizeId(id) == db
    case _ => false
  }

  predicate AcceptFirst(r: SearchResult, db: string, dataSources: seq<string>, title: string) {
    r.Some? && OursOnFirstPage(r.value, db, dataSources) && TitleMatches(PageTitle(r.value.title), title)
  }

  predicate AcceptLater(r: SearchResult, db: string, title: string) {
    r.Some? && OursOnLaterPage(r.value, db) && TitleMatches(PageTitle(r.value.title), title)
  }

  /** The two membership tests as tests on search results. */
  function FirstTest(db: string, dataSources: seq<string>, title: string): SearchResult -> bool {
    r => AcceptFirst(r, db, dataSources, title)
  }

  function LaterTest(db: string, title: string): SearchResult -> bool {
    r => AcceptLater(r, db, title)
  }

  // ---- searching ----

  /** Position of the first element `accept` holds for. */
  function FirstAccepted<T>(xs: seq<T>, accept: T -> bool): (r: Option<nat>)
    ensures r.Some? ==> r.value < |xs| && accept(xs[r.value])
    ensures r.Some? ==> forall j :: 0 <= j < r.value ==> !accept(xs[j])
    ensures r.None? ==> forall j :: 0 <= j < |xs| ==> !accept(xs[j])
    decreases |xs|
  {
    if |xs| == 0 then None
    else if accept(xs[0]) then Some(0)
    else
      var rest := FirstAccepted(xs[1..], accept);
      assert forall j :: 1 <= j < |xs| ==> xs[j] == xs[1..][j - 1];
      Shift(rest, 1)
  }

  /** Searching a concatenation searches the first part, then the second. */
  lemma {:induction false} FirstAcceptedAppend<T>(a: seq<T>, b: seq<T>, accept: T -> bool)
    ensures FirstAccepted(a + b, accept)
      == if FirstAccepted(a, accept).Some? then FirstAccepted(a, accept) else Shift(FirstAccepted(b, accept), |a|)
    decreases |a|
  {
    if |a| == 0 {
      assert a + b == b;
    } else {
      assert (a + b)[0] == a[0];
      assert (a + b)[1..] == a[1..] + b;
      FirstAcceptedAppend(a[1..], b, accept);
    }
  }

  /** Two tests that agree on every element find the same position. */
  lemma {:induction false} FirstAcceptedAgree<T>(xs: seq<T>, f: T -> bool, g: T -> bool)
    requires forall k :: 0 <= k < |xs| ==> f(xs[k]) == g(xs[k])
    ensures FirstAccepted(xs, f) == FirstAccepted(xs, g)
    decreases |xs|
  {
    if |xs| > 0 {
      assert forall k :: 0 <= k < |xs[1..]| ==> xs[1..][k] == xs[k + 1];
      FirstAcceptedAgree(xs[1..], f, g);
    }
  }

  /** What the later pages hold; nothing when there are none. */
  function LaterResults(pages: seq<seq<SearchResult>>): seq<SearchResult> {
    if |pages| == 0 then [] else Flatten(pages[1..])
  }

  /** The lookup as written: the first result page with the data-source aware
      test, then the later pages with the database-only test. No result
      pages (the search failed) finds nothing. */
  function LocateAsWritten(pages: seq<seq<SearchResult>>, db: string, dataSources: seq<string>, title: string): (r: Option<PageRecord>)
    ensures r.Some? ==> TitleMatches(PageTitle(r.value.title), title)
    ensures r.Some? ==>
      ((|pages| > 0 && Some(r.value) in pages[0] && OursOnFirstPage(r.value, db, dataSources))
       || (Some(r.value) in LaterResults(pages) && OursOnLaterPage(r.value, db)))
    ensures r.Some? ==> (|pages| > 0 &&
      ((exists i :: 0 <= i < |pages[0]| && pages[0][i] == r && AcceptFirst(pages[0][i], db, dataSources, title)
                    && forall j :: 0 <= j < i ==> !AcceptFirst(pages[0][j], db, dataSources, title))
       || ((forall k :: 0 <= k < |pages[0]| ==> !AcceptFirst(pages[0][k], db, dataSources, title))
           && exists i :: 0 <= i < |LaterResults(pages)| && LaterResults(pages)[i] == r
                          && AcceptLater(LaterResults(pages)[i], db, title)
                          && forall j :: 0 <= j < i ==> !AcceptLater(LaterResults(pages)[j], db, title))))
    ensures r.None? && |pages| > 0 ==>
      (forall k :: 0 <= k < |pages[0]| ==> !AcceptFirst(pages[0][k], db, dataSources, title))
      && (forall k :: 0 <= k < |LaterResults(pages)| ==> !AcceptLater(LaterResults(pages)[k], db, title))
  {
    if |pages| == 0 then None
    else
      match FirstAccepted(pages[0], FirstTest(db, dataSources, title))
      case Some(i) => pages[0][i]
      case None =>
        var later := LaterResults(pages);
        match FirstAccepted(later, LaterTest(db, title))
        case Some(j) => later[j]
        case None => None
  }

  /** The corrected lookup: the data-source aware test on every result
      page. */
  function LocateUniform(pages: seq<seq<SearchResult>>, db: string, dataSources: seq<string>, title: string): (r: Option<PageRecord>)
    ensures r.Some? ==> Some(r.value) in Flatten(pages) && AcceptFirst(Some(r.value), db, dataSources, title)
    ensures r.None? ==> forall k :: 0 <= k < |Flatten(pages)| ==> !AcceptFirst(Flatten(pages)[k], db, dataSources, title)
    ensures r.Some? ==>
      exists i :: (0 <= i < |Flatten(pages)| && Flatten(pages)[i] == r
                   && forall j :: 0 <= j < i ==> !AcceptFirst(Flatten(pages)[j], db, dataSources, title))
  {
    var all := Flatten(pages);
    match FirstAccepted(all, FirstTest(db, dataSources, title))
    case Some(i) => all[i]
    case None => None
  }

  /** Without data-source parents the two tests accept the same results. */
  lemma TestsAgree(later: seq<SearchResult>, db: string, dataSources: seq<string>, title: string)
    requires forall k :: 0 <= k < |later| ==> later[k].None? || !later[k].value.parent.DataSourceParent?
    ensures FirstAccepted(later, FirstTest(db, dataSources, title)) == FirstAccepted(later, LaterTest(db, title))
  {
    var af := FirstTest(db, dataSources, title);
    var al := LaterTest(db, title);
    assert forall k :: 0 <= k < |later| ==> af(later[k]) == al(later[k]);
    FirstAcceptedAgree(later, af, al);
  }

  /** When no later result has a data-source parent, the two loops of the
      lookup as written behave as one, and it agrees with the corrected
      lookup. */
  lemma LocatorsAgreeWithoutLaterDataSources(pages: seq<seq<SearchResult>>, db: string, dataSources: seq<string>, title: string)
    requires forall k :: 0 <= k < |LaterResults(pages)| ==>
      LaterResults(pages)[k].None? || !LaterResults(pages)[k].value.parent.DataSourceParent?
    ensures LocateAsWritten(pages, db, dataSources, title) == LocateUniform(pages, db, dataSources, title)
  {
    if |pages| > 0 {
      var first := pages[0];
      var later := LaterResults(pages);
      var af := FirstTest(db, dataSources, title);
      FlattenCons(pages);
      assert Flatten(pages) == first + later;
      FirstAcceptedAppend(first, later, af);
      TestsAgree(later, db, dataSources, title);
      if FirstAccepted(first, af).None? {
        var j := FirstAccepted(later, LaterTest(db, title));
        if j.Some? {
          IndexAfter(first, later, j.value);
        }
      }
    }
  }

  /** The lookup as written misses a matching page that the search returns
      on its second result page when the page's parent is one of the
      database's data sources: the later-page test compares the data-source
      id with the database id. The corrected lookup finds it. */
  lemma LaterPageMissesDataSource(p: PageRecord, db: string, dataSources: seq<string>, title: string)
    requires p.parent.DataSourceParent? && p.parent.dataSourceId != ""
    requires NormalizeId(p.parent.dataSourceId) in dataSources
    requires NormalizeId(p.parent.dataSourceId) != db
    requires TitleMatches(PageTitle(p.title), title)
    ensures LocateAsWritten([[], [Some(p)]], db, dataSources, title) == None
    ensures LocateUniform([[], [Some(p)]], db, dataSources, title) == Some(p)
  {
    var pages: seq<seq<SearchResult>> := [[], [Some(p)]];
    assert pages[1..] == [[Some(p)]];
    assert Flatten(pages[1..]) == [Some(p)] by {
      assert pages[1..][1..] == [];
    }
    assert Flatten(pages) == [Some(p)] by {
      FlattenCons(pages);
    }
    assert !AcceptLater(Some(p), db, title);
    assert AcceptFirst(Some(p), db, dataSources, title);
  }
}
