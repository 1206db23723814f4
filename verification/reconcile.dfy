/** Reconciling one book with its Notion page. The page found by the lookup
    is retrieved for its stored highlight count; a book without a page gets
    one, a page whose count equals the clipping count only has its sync time
    touched, and any other page is archived and recreated with all clippings.
    Blocks are uploaded in batches of a hundred. Each path reports a line of
    text. */
module Reconcile {
  import opened Wrappers
  import opened Text
  import opened TextFacts
  import opened Markers
  import opened Normaliser
  import opened Renderer
  import opened Locator
  import opened Seqs

  /** The page's Highlights property as retrieved. */
  datatype HighlightsProperty =
    | NumberProperty(number: Option<int>)
    | OtherProperty

  /** The highlight count a page stores: its number, or zero when the
      property is missing, not a number, or empty. */
  function StoredCount(p: HighlightsProperty): int {
    match p
    case NumberProperty(Some(n)) => n
    case _ => 0
  }

  /** A page of the book that can be updated: its id and stored count. */
  datatype ExistingPage = ExistingPage(pageId: string, stored: int)

  /** The book's page as the sync sees it: the lookup's page when it has an
      id and retrieving it (`retrieved`, `None` when that raised) succeeded. */
  function LookUp(located: Option<PageRecord>, retrieved: Option<HighlightsProperty>): (r: Option<ExistingPage>)
    ensures r.Some? <==> located.Some? && located.value.id != "" && retrieved.Some?
    ensures r.Some? ==> r.value.pageId == located.value.id
    ensures r.Some? && retrieved.value.NumberProperty? && retrieved.value.number.Some? ==>
      r.value.stored == retrieved.value.number.value
    ensures r.Some? && !(retrieved.value.NumberProperty? && retrieved.value.number.Some?) ==> r.value.stored == 0
  {
    if located.Some? && located.value.id != "" && retrieved.Some? then
      Some(ExistingPage(located.value.id, StoredCount(retrieved.value)))
    else None
  }

  /** What the sync does to the book's page. */
  datatype Action =
    | CreatePage
    | TouchLastSynced(pageId: string, stored: int)
    | RecreatePage(pageId: string, stored: int)

  /** The three-way decision on the book's page for `count` clippings. */
  function Decide(existing: Option<ExistingPage>, count: nat): (a: Action)
    ensures a.CreatePage? <==> existing.None?
    ensures a.TouchLastSynced? <==> existing.Some? && existing.value.stored == count
    ensures a.RecreatePage? <==> existing.Some? && existing.value.stored != count
    ensures !a.CreatePage? ==> a.pageId == existing.value.pageId
    ensures !a.CreatePage? ==> a.stored == existing.value.stored
  {
    match existing
    case None => CreatePage
    case Some(page) =>
      if page.stored == count then TouchLastSynced(page.pageId, page.stored)
      else RecreatePage(page.pageId, page.stored)
  }

  const NO_CHANGES: string := "No changes needed.\n"

  function AddedMessage(count: nat): string {
    "Added " + NatToString(count) + " highlights.\n"
  }

  function UpdatedMessage(count: nat): string {
    "Updated highlights. Total: " + NatToString(count) + ".\n"
  }

  function ErrorMessage(error: string): string {
    "Error updating book: " + error + "\n"
  }

  /** A count between two pieces of text. */
  function Counted(before: string, n: nat, after: string): string {
    before + (NatToString(n) + after)
  }

  /** The total that ends the report after recreating a page. */
  function TotalText(count: nat): string {
    " Total: " + NatToString(count) + ".\n"
  }

  /** The report after recreating a page, from the change in count. */
  function DiffMessage(diff: int, count: nat): string {
    var total := TotalText(count);
    if diff > 0 then Counted("Added ", diff, " new highlights." + total)
    else if diff < 0 then Counted("Removed ", -diff, " highlights." + total)
    else UpdatedMessage(count)
  }

  /** The line reported for an action; `failure` is the error text when
      recreating the page raised. */
  function Report(a: Action, count: nat, failure: Option<string>): (line: string)
    ensures a.CreatePage? ==> line == AddedMessage(count)
    ensures a.TouchLastSynced? ==> line == NO_CHANGES
    ensures a.RecreatePage? && failure.Some? ==> line == ErrorMessage(failure.value)
    ensures a.RecreatePage? && failure.None? ==> line == DiffMessage(count - a.stored, count)
    ensures |line| > 0 && line[|line| - 1] == '\n'
    ensures !(a.RecreatePage? && failure.Some?) ==> '\n' !in line[..|line| - 1]
  {
    match a
    case CreatePage =>
      AddedOneLine(count);
      AddedMessage(count)
    case TouchLastSynced(_, _) =>
      NoChangesOneLine();
      NO_CHANGES
    case RecreatePage(_, stored) =>
      if failure.Some? then
        ErrorEndsLine(failure.value);
        ErrorMessage(failure.value)
      else
        DiffOneLine(count - stored, count);
        DiffMessage(count - stored, count)
  }

  /** Text ending in its only line break. */
  predicate SingleLine(s: string) {
    |s| > 0 && s[|s| - 1] == '\n' && '\n' !in s[..|s| - 1]
  }

  /** Text without a line break put before a single line keeps it single. */
  lemma LinePrepend(x: string, s: string)
    requires '\n' !in x && SingleLine(s)
    ensures SingleLine(x + s)
  {
    assert (x + s)[..|x + s| - 1] == x + s[..|s| - 1];
  }

  /** Two pieces without a line break put before a single line. */
  lemma LineAfter(x: string, y: string, s: string)
    requires '\n' !in x && '\n' !in y && SingleLine(s)
    ensures SingleLine(x + y + s)
  {
    LinePrepend(y, s);
    LinePrepend(x, y + s);
    assert x + y + s == x + (y + s);
  }

  /** The error report ends in a line break, although the error text may
      hold more. */
  lemma ErrorEndsLine(error: string)
    ensures |ErrorMessage(error)| > 0 && ErrorMessage(error)[|ErrorMessage(error)| - 1] == '\n'
  {
  }

  /** The report of a created page is one line. */
  lemma AddedOneLine(count: nat)
    ensures SingleLine(AddedMessage(count))
  {
    LinePrepend(" highlights.", "\n");
    CountedLine("Added ", count, " highlights.\n");
  }

  /** The report of an untouched count is one line. */
  lemma NoChangesOneLine()
    ensures SingleLine(NO_CHANGES)
  {
    LinePrepend("No changes needed.", "\n");
  }

  /** Decimal digits hold no line break. */
  lemma DigitsNoBreak(n: nat)
    ensures '\n' !in NatToString(n)
  {
  }

  /** A count between text without a line break and a single line. */
  lemma CountedLine(before: string, n: nat, after: string)
    requires '\n' !in before && SingleLine(after)
    ensures SingleLine(Counted(before, n, after))
  {
    DigitsNoBreak(n);
    LinePrepend(NatToString(n), after);
    LinePrepend(before, NatToString(n) + after);
  }

  /** The total that ends every report after a recreate is one line. */
  lemma TotalLine(count: nat)
    ensures SingleLine(TotalText(count))
  {
    LinePrepend(".", "\n");
    CountedLine(" Total: ", count, ".\n");
    assert TotalText(count) == Counted(" Total: ", count, ".\n");
  }

  /** The report after a recreate is one line. */
  lemma DiffOneLine(diff: int, count: nat)
    ensures SingleLine(DiffMessage(diff, count))
  {
    if diff > 0 {
      DiffAddedLine(diff, count);
    } else if diff < 0 {
      DiffRemovedLine(diff, count);
    } else {
      UpdatedLine(count);
    }
  }

  /** A recreate that adds highlights reports one line. */
  lemma DiffAddedLine(diff: int, count: nat)
    requires diff > 0
    ensures SingleLine(DiffMessage(diff, count))
  {
    AddedLine(diff, count);
  }

  /** A recreate that removes highlights reports one line. */
  lemma DiffRemovedLine(diff: int, count: nat)
    requires diff < 0
    ensures SingleLine(DiffMessage(diff, count))
  {
    var n: nat := -diff;
    assert DiffMessage(diff, count) == Counted("Removed ", n, " highlights." + TotalText(count));
    RemovedLine(n, count);
  }

  /** The "updated" report is one line. */
  lemma UpdatedLine(count: nat)
    ensures SingleLine(UpdatedMessage(count))
  {
    LinePrepend(".", "\n");
    CountedLine("Updated highlights. Total: ", count, ".\n");
  }

  /** The report of added highlights is one line. */
  lemma AddedLine(n: nat, count: nat)
    ensures SingleLine(Counted("Added ", n, " new highlights." + TotalText(count)))
  {
    TotalLine(count);
    LinePrepend(" new highlights.", TotalText(count));
    CountedLine("Added ", n, " new highlights." + TotalText(count));
  }

  /** The report of removed highlights is one line. */
  lemma RemovedLine(n: nat, count: nat)
    ensures SingleLine(Counted("Removed ", n, " highlights." + TotalText(count)))
  {
    TotalLine(count);
    LinePrepend(" highlights.", TotalText(count));
    CountedLine("Removed ", n, " highlights." + TotalText(count));
  }

  /** The page after a successful action for `count` clippings; `newId` is
      the id Notion gives a created page. Touching changes only the sync
      time, so the page keeps its id and its stored count; creating and
      recreating give a new page that stores the count. */
  function After(a: Action, count: nat, newId: string): (page: ExistingPage)
    ensures a.TouchLastSynced? ==> page.pageId == a.pageId && page.stored == a.stored
    ensures !a.TouchLastSynced? ==> page.pageId == newId && page.stored == count
  {
    match a
    case CreatePage => ExistingPage(newId, count)
    case TouchLastSynced(id, stored) => ExistingPage(id, stored)
    case RecreatePage(_, _) => ExistingPage(newId, count)
  }

  // ---- properties of the decision ----

  /** Whatever the sync decides, the page it leaves stores the clipping
      count: creating and recreating write it, and touching happens only
      when the page already stores it. */
  lemma AfterStoresCount(existing: Option<ExistingPage>, count: nat, newId: string)
    ensures After(Decide(existing, count), count, newId).stored == count
  {
    var a := Decide(existing, count);
    if a.TouchLastSynced? {
      assert a.stored == existing.value.stored == count;
    }
  }

  /** A second sync of the same clippings after a successful one changes
      nothing: it only touches the sync time and reports so. */
  lemma SyncSettles(existing: Option<ExistingPage>, count: nat, newId: string, failure: Option<string>)
    ensures Decide(Some(After(Decide(existing, count), count, newId)), count).TouchLastSynced?
    ensures Report(Decide(Some(After(Decide(existing, count), count, newId)), count), count, failure) == NO_CHANGES
  {
    AfterStoresCount(existing, count, newId);
  }

  /** The digits of two counts followed by non-digits agree only when the
      counts do. */
  lemma DigitsThen(x: string, s: string, y: string, t: string)
    requires forall i :: 0 <= i < |x| ==> '0' <= x[i] <= '9'
    requires forall i :: 0 <= i < |y| ==> '0' <= y[i] <= '9'
    requires |s| > 0 && |t| > 0 && !('0' <= s[0] <= '9') && !('0' <= t[0] <= '9')
    requires x + s == y + t
    ensures x == y && s == t
  {
    assert x == (x + s)[..|x|];
    assert y == (y + t)[..|y|];
    assert s == (x + s)[|x|..];
    assert t == (y + t)[|y|..];
  }

  /** The count is read back from between the same two pieces of text when
      the text after it does not start with a digit. */
  lemma CountedInjective(before: string, m: nat, n: nat, after: string)
    requires |after| > 0 && !('0' <= after[0] <= '9')
    requires Counted(before, m, after) == Counted(before, n, after)
    ensures m == n
  {
    var a, b := NatToString(m) + after, NatToString(n) + after;
    assert a == Counted(before, m, after)[|before|..];
    assert b == Counted(before, n, after)[|before|..];
    DigitsThen(NatToString(m), after, NatToString(n), after);
    DecimalInjective(m, n);
  }

  lemma CountedStart(before: string, n: nat, after: string)
    requires |before| > 0
    ensures Counted(before, n, after)[0] == before[0]
  {
  }

  /** A report after recreating a page tells by how much the count changed:
      different changes give different lines. */
  lemma DiffMessageInjective(d1: int, d2: int, count: nat)
    requires DiffMessage(d1, count) == DiffMessage(d2, count)
    ensures d1 == d2
  {
    var total := TotalText(count);
    var added, removed := " new highlights." + total, " highlights." + total;
    if d1 > 0 && d2 > 0 {
      CountedInjective("Added ", d1, d2, added);
    } else if d1 < 0 && d2 < 0 {
      CountedInjective("Removed ", -d1, -d2, removed);
    } else if d1 > 0 {
      CountedStart("Added ", d1, added);
    } else if d1 < 0 {
      CountedStart("Removed ", -d1, removed);
    }
  }

  /** The "updated" report is never produced: a recreated page always had a
      different count, so its change is never zero. */
  lemma UpdatedNeverReported(existing: Option<ExistingPage>, count: nat, failure: Option<string>)
    ensures Report(Decide(existing, count), count, failure) != UpdatedMessage(count)
  {
    var a := Decide(existing, count);
    var m := Report(a, count, failure);
    var u := UpdatedMessage(count);
    assert u[0] == 'U';
    match a
    case CreatePage =>
      assert m[0] == 'A';
    case TouchLastSynced(_, _) =>
      assert m[0] == 'N';
    case RecreatePage(_, stored) =>
      if failure.Some? {
        assert m[0] == 'E';
      } else {
        var total := TotalText(count);
        if count - stored > 0 {
          CountedStart("Added ", count - stored, " new highlights." + total);
        } else {
          CountedStart("Removed ", stored - count, " highlights." + total);
        }
        assert m[0] == 'A' || m[0] == 'R';
      }
  }

  // ---- uploading blocks ----

  /** The number of upload batches for `n` blocks, as the sync computes it. */
  function TotalBatches(n: nat): nat {
    (n + BATCH_SIZE - 1) / BATCH_SIZE
  }

  function Min(a: int, b: int): int {
    if a <= b then a else b
  }

  /** The blocks cut into consecutive batches of at most a hundred: all but
      the last are full, and together they are the blocks in order. */
  method Batches<T>(items: seq<T>) returns (batches: seq<seq<T>>)
    ensures Flatten(batches) == items
    ensures |batches| == TotalBatches(|items|)
    ensures forall k :: 0 <= k < |batches| ==> 0 < |batches[k]| <= BATCH_SIZE
    ensures forall k :: 0 <= k < |batches| - 1 ==> |batches[k]| == BATCH_SIZE
    ensures forall k :: 0 <= k < |batches| ==>
      batches[k] == items[k * BATCH_SIZE .. Min((k + 1) * BATCH_SIZE, |items|)]
  {
    batches := [];
    var i := 0;
    while i < |items|
      invariant i == BATCH_SIZE * |batches|
      invariant i == 0 || i - BATCH_SIZE < |items|
      invariant Flatten(batches) == items[..Min(i, |items|)]
      invariant forall k :: 0 <= k < |batches| ==> 0 < |batches[k]| <= BATCH_SIZE
      invariant forall k :: 0 <= k < |batches| - 1 ==> |batches[k]| == BATCH_SIZE
      invariant forall k :: 0 <= k < |batches| ==>
        batches[k] == items[k * BATCH_SIZE .. Min((k + 1) * BATCH_SIZE, |items|)]
      decreases |items| - i
    {
      var end := Min(i + BATCH_SIZE, |items|);
      FlattenSnoc(batches, items[i..end]);
      assert items[..i] + items[i..end] == items[..end];
      batches := batches + [items[i..end]];
      i := i + BATCH_SIZE;
    }
    assert items[..Min(i, |items|)] == items;
  }

  /** The upload plan for a book: its clippings' blocks, two per clipping,
      in batches; 250 clippings make five batches. */
  method UploadPlan(cs: seq<Clipping>, enableLocation: bool, enableDate: bool) returns (batches: seq<seq<Block>>)
    ensures Flatten(batches) == RenderAll(cs, enableLocation, enableDate)
    ensures |batches| == (2 * |cs| + BATCH_SIZE - 1) / BATCH_SIZE
    ensures forall k :: 0 <= k < |batches| ==> 0 < |batches[k]| <= BATCH_SIZE
  {
    batches := Batches(RenderAll(cs, enableLocation, enableDate));
  }
}
