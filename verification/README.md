# kindle2notion sync core in Dafny

This project models the data logic of kindle2notion's export to Notion,
everything in `kindle2notion/exporting.py` that does not talk to Notion.
Each piece is a total function over values that are already in memory:

- **Normaliser** (`normaliser.dfy`) prepares one book's clippings. Each
  clipping gets an identity key: the first fifty characters of its stripped
  text in lower case, then location and page, separated by `|`. A clipping
  whose key was already seen in the book is dropped. The preparation loop is
  a method with a set of seen keys. It is proved equal to a reference
  definition, `Dedup`, which keeps the first occurrence of every key.
- **Renderer** (`renderer.dfy`) turns a clipping into two blocks. The first
  is a quote for a highlight or a callout for a note. Its text carries a
  metadata line of page, location and date parts joined by a bullet. The
  second is a divider.
- **Reader** (`reader.dfy`) reads the identity keys back from a page's
  blocks. It is a state machine of pending text, location, page and the set
  of keys, folded over the blocks. `FindNew` keeps the clippings whose key is
  not among the existing ones. In `exporting.py` neither
  `_retrieve_existing_clippings` nor `_find_new_clippings` has a caller: both
  are defined (lines 355 and 653) but the sync path never reads a page back.
- **RoundTrip** and **Resync** (`roundtrip.dfy`, `resync.dfy`) relate the
  renderer and the reader. For a clipping whose values cannot be mistaken for
  markup, the reader recovers its text, location and page and builds its key.
- **Locator** (`locator.dfy`) finds the book's page among search results. It
  normalises ids by removing hyphens and lower-casing. It checks that a
  page's parent is the database or one of its data sources, and it compares
  titles stripped and case-insensitively. A bare 32-character database id is
  hyphenated 8-4-4-4-12.
- **Reconcile** (`reconcile.dfy`) holds the three-way decision on the
  book's page: create, touch the sync time, or archive and recreate. It also
  holds the line each path reports and the upload of blocks in batches of a
  hundred.

Supporting modules:

- `wrappers.dfy`: `Option`.
- `text.dfy` and `textfacts.dfy`: Python-style strip, lower, split, join and
  substring search, with their lemmas.
- `markers.dfy` and `markerfacts.dfy`: the marker strings of the source and
  how they can overlap.
- `seqs.dfy`: flattening and pairing of sequences.

The marker strings are the source's own mojibake: the UTF-8 bytes of each
emoji, read as Windows-1252 text. They are spelled code point by code point.
The location emoji lost its last byte this way, so it is a prefix of the page
and date emoji. The reader therefore takes every rendered metadata line for
metadata.

The code renders two blocks per clipping, a content block and a divider, so 250
clippings are 500 blocks in five batches of 100 (`Reconcile.UploadPlan`).

## Model

| member | source | states |
|---|---|---|
| Normaliser.Identity | kindle2notion/exporting.py:119-122 | the identity key is never empty, since it always holds the two separators; `Normaliser.IdentityIgnoresSurroundingSpace` and `Resync.CaseFoldedKeyIsIdentity` relate it to its inputs and to the reader's key |
| Normaliser.ClippingOf | kindle2notion/exporting.py:131-138 | a kept clipping copies text, page, location, date and note flag unchanged and carries the identity key of its raw clipping |
| Normaliser.PrepareBook | kindle2notion/exporting.py:108-145 | the preparation loop returns exactly the reference keep-first list; dropped count plus kept count is the input length; the last date is the date of the last kept clipping, and it exists exactly when the book is non-empty |
| Normaliser.DedupKeepsFirst | kindle2notion/exporting.py:121-129 | a clipping is kept if and only if no earlier clipping of the book has the same identity key |
| Normaliser.DedupDistinct | kindle2notion/exporting.py:109-129 | the kept clippings have pairwise distinct identity keys |
| Normaliser.DedupInOrder | kindle2notion/exporting.py:112-139 | the kept list is an in-order subsequence of the input: kept positions strictly increase and each kept clipping copies the clipping at its position |
| Normaliser.DedupCovers | kindle2notion/exporting.py:121-129 | every identity key of the book is the key of some kept clipping, so dropping loses no key |
| Normaliser.DedupNonEmpty | kindle2notion/exporting.py:112-140 | a non-empty book keeps at least one clipping, so its last date is defined |
| Normaliser.DedupDistinctInput | kindle2notion/exporting.py:121-139 | a book with no repeated key is kept whole and in order |
| Normaliser.DedupIdempotent | kindle2notion/exporting.py:112-139 | preparing the prepared clippings again gives back the same list |
| Normaliser.IdentityIgnoresSurroundingSpace | kindle2notion/exporting.py:121-122 | whitespace before and after the clipping text, of any lengths, does not change its identity key |
| Renderer.RichTextArray | kindle2notion/exporting.py:559-578 | empty text gives no element; other text gives one element whose content and plain text are the whole text |
| Renderer.ContentBlock | kindle2notion/exporting.py:607-630 | a note becomes a callout with the light-bulb icon and a highlight becomes a quote; the block's plain text is the clipping's rendered text |
| Renderer.RenderClipping | kindle2notion/exporting.py:588-638 | one clipping gives exactly two blocks, its content block and then a divider |
| Renderer.RenderAll | kindle2notion/exporting.py:766-771 | n clippings give 2n blocks |
| Renderer.RenderAllAt | kindle2notion/exporting.py:766-771 | block 2k is the content block of clipping k and block 2k+1 is a divider, so clipping order is kept |
| Renderer.MetadataLayout | kindle2notion/exporting.py:596-605 | with locations on, the metadata line is page part, location part and date part in that order, bullets only between shown parts; it is empty exactly when page and location are empty and no date is shown |
| Renderer.MetadataWithoutLocation | kindle2notion/exporting.py:597-605 | with locations off, the metadata line is the date part when dates are on and the date is non-empty, and empty otherwise |
| Reader.ReadKey | kindle2notion/exporting.py:393-395 | the key the reader builds is never empty, so its emptiness guard never drops one |
| Reader.KeepLines | kindle2notion/exporting.py:450-455 | every kept line is a non-metadata input line, every non-metadata input line is kept, and no more lines come out than go in |
| Reader.KeepLinesAppend | kindle2notion/exporting.py:452-454 | the filter works line by line: filtering a concatenation concatenates the filtered parts, so the kept lines keep their order and repetitions |
| Reader.KeepLinesOne | kindle2notion/exporting.py:453-454 | a single line is kept exactly when it is not a metadata line (`Reader.IsMetadataLine`: it holds none of the three emoji, the three labels or an underscore) |
| Reader.MainText | kindle2notion/exporting.py:444-455 | the main text of a block has no surrounding whitespace; `RoundTrip.MainRecovered` shows it is the clipping text for a rendered clipping |
| Reader.LocationOf | kindle2notion/exporting.py:418-429 | a block with neither location marker nor label leaves the pending location as it was |
| Reader.PageOf | kindle2notion/exporting.py:431-442 | a block with neither page marker nor label leaves the pending page as it was |
| Reader.Flush | kindle2notion/exporting.py:389-399 | a divider adds at most one key and keeps every earlier one; with pending text it clears text, location and page, and without pending text it changes nothing |
| Reader.Step | kindle2notion/exporting.py:385-462 | a block adds at most one key and loses none; a non-divider block without text changes nothing |
| Reader.ReadAppend | kindle2notion/exporting.py:465-541 | reading two block lists one after the other is reading their concatenation, so the paged reading equals one pass over all blocks |
| Reader.ReadBlocksCount | kindle2notion/exporting.py:385-462 | reading n blocks adds at most n keys |
| Reader.ReadBlocks | kindle2notion/exporting.py:385-462 | reading blocks never loses a key, and never adds the empty key |
| Reader.ExistingIds | kindle2notion/exporting.py:381-548 | the keys read back from a page, with the final flush of a pending clipping: none is empty, and there are at most one per block plus one |
| Reader.FindNew | kindle2notion/exporting.py:653-663 | the result is exactly the clippings whose key is not among the existing keys |
| Reader.FindNewAppend | kindle2notion/exporting.py:659-663 | filtering a concatenation filters each part and concatenates, so order is kept |
| RoundTrip.LocationRecovered | kindle2notion/exporting.py:418-421 | from the rendered text of a readable clipping the reader gets its location back |
| RoundTrip.PageRecovered | kindle2notion/exporting.py:431-434 | from the rendered text of a readable clipping the reader gets its page back |
| RoundTrip.MainRecovered | kindle2notion/exporting.py:444-455 | from the rendered text of a readable clipping, note or highlight, the reader gets its text back |
| Resync.RenderedKeys | kindle2notion/exporting.py:385-399 | the keys read from a freshly rendered page are the reader keys of its clippings, and the final flush adds none |
| Resync.RoundTripCaseFolded | kindle2notion/exporting.py:121-122 | a reader that lower-cases the text as the normaliser does finds on a rendered page exactly the normaliser's keys |
| Resync.RoundTripLowerCase | kindle2notion/exporting.py:458-462 | the reader as written finds exactly the normaliser's keys when no clipping text holds a capital letter |
| Resync.ResyncAddsNothing | kindle2notion/exporting.py:653-663 | with the corrected reader, a second sync of the same clippings finds nothing new |
| Resync.ReaderMissesCapitalisedText | kindle2notion/exporting.py:458-462 | the reader as written reads back a key that differs from the normaliser's for text starting with a capital, so the clipping is found new on the page just written |
| Locator.DropHyphens | kindle2notion/exporting.py:198 | the result holds no hyphen and is no longer than the input |
| Locator.Hyphenate | kindle2notion/exporting.py:38-39 | a 32-character id becomes 36 characters with hyphens at positions 8, 13, 18 and 23 |
| Locator.HyphenateRoundTrip | kindle2notion/exporting.py:38-39 | removing the hyphens from a hyphenated bare id gives the id back, so both normalise alike |
| Locator.FormatDatabaseId | kindle2notion/exporting.py:37-48 | a bare 32-character id is hyphenated; any other id becomes its canonical form when there is one and is kept otherwise |
| Locator.FormatKeepsNormalId | kindle2notion/exporting.py:37-39 | formatting a bare id does not change its normalised form |
| Locator.PresentIds | kindle2notion/exporting.py:54-59 | a string is among the data-source ids exactly when it is non-empty and some data source carries it |
| Locator.NormalizedDataSources | kindle2notion/exporting.py:50-63 | no data sources when the database could not be retrieved; otherwise the present ids, each normalised, in order |
| Locator.TitleMatches | kindle2notion/exporting.py:262 | titles that are equal up to surrounding whitespace match, and matching titles have stripped forms of equal length; the page's title is `Locator.PageTitle`, the joined plain texts of a title property (lines 251-260 and 298-307) |
| Locator.OursOnFirstPage | kindle2notion/exporting.py:227-247 | only a database or data-source parent can be ours; on a database parent it agrees with the later-page test; a data-source parent is ours only when its normalised id is among the database's data-source ids; ids are compared through `Locator.NormalizeId`, hyphens removed and lower-cased (lines 63, 195-198, 240, 245) |
| Locator.OursOnLaterPage | kindle2notion/exporting.py:287-296 | only a database or data-source parent can be ours, and then its normalised id (`Locator.NormalizeId`, lines 294-295), of either kind, equals the normalised database id |
| Locator.TitleMatchIgnoresCase | kindle2notion/exporting.py:262 | the title test depends only on the lower-cased titles |
| Locator.FirstAccepted | kindle2notion/exporting.py:210-266 | the position found satisfies the test and no earlier position does; with none found, no position satisfies it |
| Locator.LocateAsWritten | kindle2notion/exporting.py:207-317 | a found page is the first result of the first result page that passes the data-source-aware membership test and the title test; only when there is none, it is the first later result that passes the database-only test and the title test; with nothing found, no result passes its page's tests |
| Locator.LocateUniform | kindle2notion/exporting.py:210-266 | the corrected lookup returns the first result over all result pages that passes the data-source-aware membership test and the title test |
| Locator.LocatorsAgreeWithoutLaterDataSources | kindle2notion/exporting.py:268-296 | when no later result has a data-source parent, the lookup as written and the corrected one return the same page |
| Locator.LaterPageMissesDataSource | kindle2notion/exporting.py:287-296 | a matching page under one of the database's data sources, returned on the second result page, is missed as written and found by the corrected lookup |
| Reconcile.LookUp | kindle2notion/exporting.py:710-739 | there is an existing page exactly when the lookup found a page with an id and retrieving it succeeded; its stored count (`Reconcile.StoredCount`, lines 730-735) is the Highlights number, or zero when that is missing, empty or not a number |
| Reconcile.Decide | kindle2notion/exporting.py:741-831 | create exactly when there is no page, only touch the sync time exactly when the stored count equals the clipping count, recreate exactly otherwise, on the page found and carrying the count it stores |
| Reconcile.After | kindle2notion/exporting.py:741-911 | touching keeps the page's id and stored count, since only the sync time is updated; creating and recreating leave a new page that stores the clipping count |
| Reconcile.AfterStoresCount | kindle2notion/exporting.py:741-911 | whatever the sync decides, the page it leaves stores the clipping count: derived from `Reconcile.Decide` touching only when the stored count already equals it |
| Reconcile.Report | kindle2notion/exporting.py:801-925 | the line reported: "Added N highlights." on create, "No changes needed." on touch, the error line when recreating raised, and the count-change line otherwise; every report ends in a line break, and every report except the error line, whose exception text may hold line breaks, is a single line |
| Reconcile.SyncSettles | kindle2notion/exporting.py:805-829 | when the second sync's lookup finds the page the first successful sync left, syncing the same clippings again only touches the sync time and reports no changes; it rests on `Reconcile.AfterStoresCount` |
| Reconcile.DiffMessageInjective | kindle2notion/exporting.py:919-925 | different changes in count give different report lines |
| Reconcile.UpdatedNeverReported | kindle2notion/exporting.py:919-925 | the "Updated highlights" line is never reported, since a recreated page always had a different count |
| Reconcile.Batches | kindle2notion/exporting.py:773-778 | the batches are consecutive slices of the blocks, their concatenation is the blocks, there are ceil(n/100) of them, each holds 1 to 100 blocks, and all but the last hold exactly 100 |
| Reconcile.UploadPlan | kindle2notion/exporting.py:892-906 | the batches uploaded for a book concatenate to its rendered blocks, there are ceil(2n/100) of them for n clippings, and none exceeds 100 blocks |

## Left out

- Notion client calls: connecting, retrieving the database, searching, retrieving, creating and updating pages, listing and appending blocks. These are network I/O. The model takes their results as parameters: search result pages, retrieved page records, the retrieved Highlights property, the blocks of a page, and a failure text for the recreate path.
- UUID parsing and id extraction from strings: foreign library calls. `Locator.FormatDatabaseId` takes their outcome as the `canonical` parameter. The page-id formatting at lines 808-820 and 835-847 only feeds Notion calls and is not modelled.
- Dates: parsing with `strptime` and the current time are library calls. Dates stay opaque strings. A date that does not parse would raise before the lookup, and this is not modelled.
- Book covers: the Google Books lookup and setting or restoring a cover are HTTP calls and client side effects.
- Printing, tracebacks and the progress output.
- The per-book loop of `export_to_notion` (lines 65-99) only chains the modelled pieces: prepare, count, look up, decide, upload.
- The `separate_blocks` flag is passed along but never read.
- Exceptions are modelled at these catches: a failed page retrieve in the lookup and before the decision, a database retrieve that fails before any data source is read, and a failed recreate. A failed search ends the lookup with nothing found. A create that raises, or a block append that raises outside the recreate path, is not modelled.
- The reader's outer `except` (lines 550-554) is not modelled: when listing blocks raises part-way, the source returns the keys collected so far without the final flush. `Reader.ExistingIds` always reads the whole block list and flushes.
- A data-source loop that raises part-way (lines 52-61) keeps the ids appended before the exception. `Locator.NormalizedDataSources` models only the two ends: every data source read, or none.
- `Reconcile.SyncSettles`: assumes the second sync's lookup finds the page the first sync wrote. It is not derived from `Reconcile.LookUp` or a locator, and `Locator.LaterPageMissesDataSource` shows the lookup as written can miss that page.
- `Normaliser.LastDate`: for a book with no clippings the loop never assigns `last_date`, so `_prepare_aggregated_text_for_one_book` raises `UnboundLocalError` at its own `return` (exporting.py line 145). The model returns `None` instead.
- Text functions: `Lower` folds ASCII letters only. `Strip` removes a fixed set of characters: the ASCII whitespace and separator controls, U+0085 and U+00A0. Python's Unicode `lower()` and `strip()` are not modelled.
- The Highlights number may be a float in Notion. The model stores an integer count.
- `_create_formatted_clipping_block` only delegates to the raw version, so it is modelled by `Renderer.RenderClipping`.
- `Resync.RoundTripCaseFolded` and the other round-trip lemmas assume locations are enabled. With locations off, the reader builds keys with empty location and page, and these differ from the normaliser's keys whenever the clipping has a location.
- Block annotations and the callout icon's dictionary shape are fixed constants and are not modelled.
- Commented-out code at the end of the file.

## Findings

| source | as written | input that shows it | evidently intended | confidence | as-written member | corrected member |
|---|---|---|---|---|---|---|
| kindle2notion/exporting.py:393 | the reader builds a key (here and at line 460) from the first fifty characters of the text in their original case, while the normaliser lower-cases them (line 121) | a highlight "Great quote" at location 120-121, page 12: the normaliser's key is `great quote\|120-121\|12`, the reader's is `Great quote\|120-121\|12` | the reader lower-cases the text like the normaliser, so a clipping read back from its own page is not new; no caller reads pages back today, so this shows only once the reader is used | not executed | Resync.ReaderMissesCapitalisedText | Resync.RoundTripCaseFolded |
| kindle2notion/exporting.py:287-296 | on later search-result pages a data-source parent id is compared with the database id | a page titled like the book whose parent is one of the database's data sources, returned on the second result page: it is skipped and the book is created again | later pages use the same membership test as the first, with data-source ids compared against the database's data-source list | not executed | Locator.LaterPageMissesDataSource | Locator.LocateUniform |
