/** Preparation of one book's clippings for display: every clipping gets an
    identity key built from its text, location and page, and a clipping whose
    key was already seen earlier in the book is dropped (first one wins). */
module Normaliser {
  import opened Wrappers
  import opened Text
  import opened Markers

  /** A clipping as the parser hands it over: text, page, location, date added
      and whether it is a note. Dates stay opaque strings. */
  datatype RawClipping = RawClipping(text: string, page: string, location: string, date: string, isNote: bool)

  /** A clipping ready to render, carrying its identity key. */
  datatype Clipping = Clipping(text: string, page: string, location: string, date: string, isNote: bool, id: string)

  /** Outcome of preparing one book. `lastDate` is the date of the last kept
      clipping; with no clipping at all the source has no value to return. */
  datatype Prepared = Prepared(clippings: seq<Clipping>, lastDate: Option<string>, duplicatesRemoved: nat)

  /** The identity key: the first fifty characters of the stripped text in lower
      case, then location and page, separated by bars, stripped as a whole. */
  function Identity(text: string, location: string, page: string): (key: string)
    ensures key != ""
  {
    var head := Lower(Take(Strip(text), ID_TEXT_LENGTH));
    var raw := head + KEY_SEPARATOR + location + KEY_SEPARATOR + page;
    assert raw[|head|] == '|';
    StripNonEmptyAt(raw, |head|);
    Strip(raw)
  }

  function IdOf(r: RawClipping): string {
    Identity(r.text, r.location, r.page)
  }

  /** The kept form of a raw clipping: all fields copied, plus the key. */
  function ClippingOf(r: RawClipping): (c: Clipping)
    ensures c.text == r.text && c.page == r.page && c.location == r.location
    ensures c.date == r.date && c.isNote == r.isNote
    ensures c.id == IdOf(r)
  {
    Clipping(r.text, r.page, r.location, r.date, r.isNote, IdOf(r))
  }

  /** The fields a kept clipping was built from. */
  function RawOf(c: Clipping): RawClipping {
    RawClipping(c.text, c.page, c.location, c.date, c.isNote)
  }

  /** A kept clipping whose key is the identity of its own fields. */
  predicate WellKeyed(c: Clipping) {
    c.id == IdOf(RawOf(c))
  }

  /** The identity keys of a book, position by position. */
  function Keys(raw: seq<RawClipping>): (ks: seq<string>)
    ensures |ks| == |raw|
  {
    seq(|raw|, i requires 0 <= i < |raw| => IdOf(raw[i]))
  }

  lemma KeyAt(raw: seq<RawClipping>, i: nat)
    requires i < |raw|
    ensures Keys(raw)[i] == IdOf(raw[i])
  {
  }

  /** No earlier position holds the same key as position `i`. */
  predicate FirstAt<K(==)>(ks: seq<K>, i: nat)
    requires i < |ks|
  {
    forall j :: 0 <= j < i ==> ks[j] != ks[i]
  }

  /** The positions below `n` that are kept, in increasing order: those that
      are a first occurrence of their key (see `KeptUpToExactly`). */
  function KeptUpTo<K(==)>(ks: seq<K>, n: nat): (idx: seq<nat>)
    requires n <= |ks|
    ensures forall k :: 0 <= k < |idx| ==> idx[k] < n
  {
    if n == 0 then [] else KeptUpTo(ks, n - 1) + (if FirstAt(ks, n - 1) then [n - 1] else [])
  }

  /** The kept positions are below `n`, strictly increasing, and are exactly
      the first occurrences. */
  lemma {:induction false} KeptUpToExactly<K>(ks: seq<K>, n: nat)
    requires n <= |ks|
    ensures forall k :: 0 <= k < |KeptUpTo(ks, n)| ==> KeptUpTo(ks, n)[k] < n
    ensures forall k, l :: 0 <= k < l < |KeptUpTo(ks, n)| ==> KeptUpTo(ks, n)[k] < KeptUpTo(ks, n)[l]
    ensures forall i :: 0 <= i < n ==> (i in KeptUpTo(ks, n) <==> FirstAt(ks, i))
    decreases n
  {
    if n > 0 {
      KeptUpToExactly(ks, n - 1);
    }
  }

  /** The clippings at the given positions, each copied with its key. */
  function Select(raw: seq<RawClipping>, idx: seq<nat>): (out: seq<Clipping>)
    requires forall k :: 0 <= k < |idx| ==> idx[k] < |raw|
    ensures |out| == |idx|
    ensures forall k :: 0 <= k < |idx| ==> out[k] == ClippingOf(raw[idx[k]])
  {
    seq(|idx|, k requires 0 <= k < |idx| => ClippingOf(raw[idx[k]]))
  }

  /** The positions of a book's clippings that are kept. */
  function KeptPositions(raw: seq<RawClipping>): seq<nat> {
    KeptUpTo(Keys(raw), |raw|)
  }

  /** Reference definition of the kept list: the first occurrence of every
      key, in book order, copied with its key. */
  function Dedup(raw: seq<RawClipping>): seq<Clipping> {
    Select(raw, KeptPositions(raw))
  }

  /** The keys among the first `n` positions. */
  function KeysBelow<K>(ks: seq<K>, n: nat): set<K>
    requires n <= |ks|
  {
    set j | 0 <= j < n :: ks[j]
  }

  /** Date of the last clipping of a list, if there is one. */
  function LastDate(cs: seq<Clipping>): (d: Option<string>)
    ensures d.Some? <==> |cs| > 0
  {
    if |cs| == 0 then None else Some(Last(cs).date)
  }

  /** What the preparation loop knows after the first `i` clippings: the kept
      list, the keys seen, the drop count and the last kept date. */
  predicate Progress(raw: seq<RawClipping>, i: nat, formatted: seq<Clipping>, seen: set<string>,
                     duplicates: nat, last: Option<string>)
  {
    && i <= |raw|
    && formatted == Select(raw, KeptUpTo(Keys(raw), i))
    && seen == KeysBelow(Keys(raw), i)
    && duplicates + |formatted| == i
    && last == LastDate(formatted)
  }

  /** The preparation loop of one book: walks the clippings once, keeping a set
      of the keys seen so far, and counts the clippings it drops. */
  method PrepareBook(raw: seq<RawClipping>) returns (p: Prepared)
    ensures p.clippings == Dedup(raw)
    ensures p.duplicatesRemoved + |p.clippings| == |raw|
    ensures p.lastDate == LastDate(p.clippings)
    ensures p.lastDate.Some? <==> |raw| > 0
  {
    var formatted: seq<Clipping> := [];
    var seen: set<string> := {};
    var duplicates := 0;
    var last: Option<string> := None;
    for i := 0 to |raw|
      invariant Progress(raw, i, formatted, seen, duplicates, last)
    {
      var r := raw[i];
      var id := IdOf(r);
      PrepareStep(raw, i, formatted, seen, duplicates, last);
      if id in seen {
        duplicates := duplicates + 1;
      } else {
        seen := seen + {id};
        formatted := formatted + [ClippingOf(r)];
        last := Some(r.date);
      }
    }
    if |raw| > 0 {
      DedupNonEmpty(raw);
    }
    p := Prepared(formatted, last, duplicates);
  }

  /** One turn of the preparation loop: a clipping whose key was seen is
      counted as dropped, any other is kept and its key remembered. */
  lemma PrepareStep(raw: seq<RawClipping>, i: nat, formatted: seq<Clipping>, seen: set<string>,
                    duplicates: nat, last: Option<string>)
    requires i < |raw|
    requires Progress(raw, i, formatted, seen, duplicates, last)
    ensures IdOf(raw[i]) in seen ==> Progress(raw, i + 1, formatted, seen, duplicates + 1, last)
    ensures IdOf(raw[i]) !in seen ==>
      Progress(raw, i + 1, formatted + [ClippingOf(raw[i])], seen + {IdOf(raw[i])}, duplicates, Some(raw[i].date))
  {
    var ks := Keys(raw);
    KeyAt(raw, i);
    KeysStep(raw, ks, i, seen);
  }

  /** The key-level part of one turn: the key of position `i` is new exactly
      when `i` is a first occurrence, and the kept list grows accordingly. */
  lemma KeysStep<K>(raw: seq<RawClipping>, ks: seq<K>, i: nat, seen: set<K>)
    requires |ks| == |raw| && i < |raw|
    requires seen == KeysBelow(ks, i)
    ensures KeysBelow(ks, i + 1) == seen + {ks[i]}
    ensures ks[i] in seen ==> Select(raw, KeptUpTo(ks, i + 1)) == Select(raw, KeptUpTo(ks, i))
    ensures ks[i] !in seen ==>
      Select(raw, KeptUpTo(ks, i + 1)) == Select(raw, KeptUpTo(ks, i)) + [ClippingOf(raw[i])]
  {
    KeysBelowNext(ks, i);
    FirstAtUnseen(ks, i);
    var idx := KeptUpTo(ks, i);
    if FirstAt(ks, i) {
      assert KeptUpTo(ks, i + 1) == idx + [i];
      SelectAppend(raw, idx, [i]);
    } else {
      assert KeptUpTo(ks, i + 1) == idx;
    }
  }

  lemma KeysBelowNext<K>(ks: seq<K>, i: nat)
    requires i < |ks|
    ensures KeysBelow(ks, i + 1) == KeysBelow(ks, i) + {ks[i]}
  {
  }

  /** A first occurrence is a key not seen before. */
  lemma FirstAtUnseen<K>(ks: seq<K>, i: nat)
    requires i < |ks|
    ensures FirstAt(ks, i) <==> ks[i] !in KeysBelow(ks, i)
  {
    if ks[i] in KeysBelow(ks, i) {
      var j :| 0 <= j < i && ks[j] == ks[i];
    }
  }

  lemma SelectAppend(raw: seq<RawClipping>, a: seq<nat>, b: seq<nat>)
    requires forall k :: 0 <= k < |a| ==> a[k] < |raw|
    requires forall k :: 0 <= k < |b| ==> b[k] < |raw|
    ensures Select(raw, a + b) == Select(raw, a) + Select(raw, b)
  {
  }

  /** The kept clippings have pairwise distinct keys. */
  lemma DedupDistinct(raw: seq<RawClipping>)
    ensures forall k, l :: 0 <= k < l < |Dedup(raw)| ==> Dedup(raw)[k].id != Dedup(raw)[l].id
  {
    var ks := Keys(raw);
    KeptUpToExactly(ks, |raw|);
    var idx := KeptPositions(raw);
    forall k, l | 0 <= k < l < |idx| ensures Dedup(raw)[k].id != Dedup(raw)[l].id {
      assert idx[l] in idx;
      assert FirstAt(ks, idx[l]);
      KeyAt(raw, idx[k]);
      KeyAt(raw, idx[l]);
      assert ks[idx[k]] != ks[idx[l]];
    }
  }

  /** The kept list is the input with the dropped positions left out: kept
      positions increase, and each kept clipping copies the one there. */
  lemma DedupInOrder(raw: seq<RawClipping>)
    ensures |Dedup(raw)| == |KeptPositions(raw)|
    ensures forall k, l :: 0 <= k < l < |KeptPositions(raw)| ==> KeptPositions(raw)[k] < KeptPositions(raw)[l]
    ensures forall k :: 0 <= k < |KeptPositions(raw)| ==>
      KeptPositions(raw)[k] < |raw| && Dedup(raw)[k] == ClippingOf(raw[KeptPositions(raw)[k]])
  {
    KeptUpToExactly(Keys(raw), |raw|);
  }

  /** A clipping is kept exactly when no earlier clipping has its key. */
  lemma DedupKeepsFirst(raw: seq<RawClipping>, i: nat)
    requires i < |raw|
    ensures i in KeptPositions(raw) <==> (forall j :: 0 <= j < i ==> IdOf(raw[j]) != IdOf(raw[i]))
  {
    var ks := Keys(raw);
    KeptUpToExactly(ks, |raw|);
    KeyAt(raw, i);
    forall j | 0 <= j < i ensures ks[j] == IdOf(raw[j]) {
      KeyAt(raw, j);
    }
  }

  /** Every key of the book is the key of some kept clipping. */
  lemma {:induction false} DedupCovers(raw: seq<RawClipping>, i: nat)
    requires i < |raw|
    ensures exists k :: 0 <= k < |Dedup(raw)| && Dedup(raw)[k].id == IdOf(raw[i])
    decreases i
  {
    var ks := Keys(raw);
    KeptUpToExactly(ks, |raw|);
    var idx := KeptPositions(raw);
    KeyAt(raw, i);
    if FirstAt(ks, i) {
      assert i in idx;
      var k :| 0 <= k < |idx| && idx[k] == i;
      assert Dedup(raw)[k].id == IdOf(raw[i]);
    } else {
      var j :| 0 <= j < i && ks[j] == ks[i];
      KeyAt(raw, j);
      DedupCovers(raw, j);
    }
  }

  /** The first clipping is always kept, so a non-empty book has a last date. */
  lemma DedupNonEmpty(raw: seq<RawClipping>)
    requires |raw| > 0
    ensures |Dedup(raw)| > 0
  {
    var ks := Keys(raw);
    KeptUpToExactly(ks, |raw|);
    assert FirstAt(ks, 0);
    assert 0 in KeptPositions(raw);
  }

  /** A list without repeated keys is kept whole. */
  lemma DedupDistinctInput(raw: seq<RawClipping>)
    requires forall i, j :: 0 <= i < j < |raw| ==> IdOf(raw[i]) != IdOf(raw[j])
    ensures |Dedup(raw)| == |raw|
    ensures forall i :: 0 <= i < |raw| ==> Dedup(raw)[i] == ClippingOf(raw[i])
  {
    var ks := Keys(raw);
    forall i, j | 0 <= i < j < |ks| ensures ks[i] != ks[j] {
      KeyAt(raw, i);
      KeyAt(raw, j);
    }
    AllKept(ks);
  }

  /** Without repeated keys every position is kept, in order. */
  lemma AllKept<K>(ks: seq<K>)
    requires forall i, j :: 0 <= i < j < |ks| ==> ks[i] != ks[j]
    ensures |KeptUpTo(ks, |ks|)| == |ks|
    ensures forall k :: 0 <= k < |ks| ==> KeptUpTo(ks, |ks|)[k] == k
  {
    KeptUpToExactly(ks, |ks|);
    var idx := KeptUpTo(ks, |ks|);
    forall i | 0 <= i < |ks| ensures i in idx {
      assert FirstAt(ks, i);
    }
    forall k | 0 <= k < |ks| ensures k < |idx| && idx[k] == k {
      AllPositions(idx, |ks|, k);
    }
    IncreasingBound(idx, |ks|);
  }

  /** Entry `k` of a strictly increasing list of naturals is at least `k`. */
  lemma {:induction false} IncreasingFloor(idx: seq<nat>, k: nat)
    requires k < |idx|
    requires forall a, b :: 0 <= a < b < |idx| ==> idx[a] < idx[b]
    ensures idx[k] >= k
    decreases k
  {
    if k > 0 {
      IncreasingFloor(idx, k - 1);
    }
  }

  /** A strictly increasing list of naturals below `n` has at most `n` entries. */
  lemma IncreasingBound(idx: seq<nat>, n: nat)
    requires forall k :: 0 <= k < |idx| ==> idx[k] < n
    requires forall k, l :: 0 <= k < l < |idx| ==> idx[k] < idx[l]
    ensures |idx| <= n
  {
    if |idx| > 0 {
      IncreasingFloor(idx, |idx| - 1);
    }
  }

  /** In a strictly increasing list that holds every position below `n`, entry
      `k` is `k` for every `k < n`. */
  lemma {:induction false} AllPositions(idx: seq<nat>, n: nat, k: nat)
    requires k < n
    requires forall a, b :: 0 <= a < b < |idx| ==> idx[a] < idx[b]
    requires forall i :: 0 <= i < n ==> i in idx
    ensures k < |idx| && idx[k] == k
    decreases k
  {
    assert k in idx;
    var j :| 0 <= j < |idx| && idx[j] == k;
    if k == 0 {
      assert idx[0] <= idx[j];
    } else {
      AllPositions(idx, n, k - 1);
      assert idx[j] > idx[k - 1];
      assert j >= k;
      assert idx[k] <= idx[j];
    }
  }

  /** The clippings fed back in as parser output, keys dropped. */
  function Unkeyed(cs: seq<Clipping>): (raw: seq<RawClipping>)
    ensures |raw| == |cs|
    ensures forall k :: 0 <= k < |cs| ==> raw[k] == RawOf(cs[k])
  {
    seq(|cs|, k requires 0 <= k < |cs| => RawOf(cs[k]))
  }

  /** Preparing an already prepared book again changes nothing: the kept
      clippings have distinct keys, each the identity of its own fields. */
  lemma DedupIdempotent(raw: seq<RawClipping>)
    ensures Dedup(Unkeyed(Dedup(raw))) == Dedup(raw)
  {
    var once := Dedup(raw);
    var again := Unkeyed(once);
    DedupDistinct(raw);
    DedupInOrder(raw);
    assert forall k :: 0 <= k < |once| ==> IdOf(again[k]) == once[k].id;
    DedupDistinctInput(again);
  }

  /** Keys ignore whitespace before and after the text. */
  lemma IdentityIgnoresSurroundingSpace(text: string, before: string, after: string, location: string, page: string)
    requires forall i :: 0 <= i < |before| ==> IsSpace(before[i])
    requires forall i :: 0 <= i < |after| ==> IsSpace(after[i])
    ensures Identity(before + text + after, location, page) == Identity(text, location, page)
  {
    StripWithin(before, text, after);
  }

  /** Whitespace around a string does not change what it strips to. */
  lemma StripWithin(w1: string, s: string, w2: string)
    requires forall i :: 0 <= i < |w1| ==> IsSpace(w1[i])
    requires forall i :: 0 <= i < |w2| ==> IsSpace(w2[i])
    ensures Strip(w1 + s + w2) == Strip(s)
  {
    assert w1 + s + w2 == w1 + (s + w2);
    TrimLeftOver(w1, s + w2);
    TrimLeftKeepsTail(s, w2);
    if TrimLeft(s + w2) == TrimLeft(s) + w2 {
      TrimRightOver(TrimLeft(s), w2);
    } else {
      TrimLeftOver(w2, "");
      assert w2 + "" == w2;
    }
  }

  lemma {:induction false} TrimLeftOver(w: string, s: string)
    requires forall i :: 0 <= i < |w| ==> IsSpace(w[i])
    ensures TrimLeft(w + s) == TrimLeft(s)
    decreases |w|
  {
    if |w| == 0 {
      assert w + s == s;
    } else {
      assert (w + s)[1..] == w[1..] + s;
      TrimLeftOver(w[1..], s);
    }
  }

  /** Trimming on the left of `s + w2` trims inside `s`, unless `s` is all
      whitespace, in which case it continues into `w2`. */
  lemma {:induction false} TrimLeftKeepsTail(s: string, w2: string)
    requires forall i :: 0 <= i < |w2| ==> IsSpace(w2[i])
    ensures TrimLeft(s + w2) == TrimLeft(s) + w2 || (TrimLeft(s) == [] && TrimLeft(s + w2) == TrimLeft(w2))
    decreases |s|
  {
    if |s| == 0 {
      assert s + w2 == w2;
    } else if IsSpace(s[0]) {
      assert (s + w2)[1..] == s[1..] + w2;
      TrimLeftKeepsTail(s[1..], w2);
    }
  }

  lemma {:induction false} TrimRightOver(l: string, w: string)
    requires forall i :: 0 <= i < |w| ==> IsSpace(w[i])
    ensures TrimRight(l + w) == TrimRight(l)
    decreases |w|
  {
    if |w| == 0 {
      assert l + w == l;
    } else {
      assert (l + w)[..|l + w| - 1] == l + w[..|w| - 1];
      TrimRightOver(l, w[..|w| - 1]);
    }
  }
}
