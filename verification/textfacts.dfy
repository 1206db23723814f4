/** Facts about the string primitives of `Text`: how a search moves across a
    concatenation, how `Split` and `Strip` behave on the shapes the renderer
    produces, and the decimal round trip. */
module TextFacts {
  import opened Wrappers
  import opened Text

  /** `x` is compatible with `sub` on their common prefix. */
  predicate Agrees(x: string, sub: string) {
    forall k :: 0 <= k < |x| && k < |sub| ==> x[k] == sub[k]
  }

  /** No occurrence of `sub` can start inside `a`, whatever follows `a`: from
      every position of `a` a mismatch with `sub` shows up before `a` ends. */
  predicate Clear(a: string, sub: string)
    decreases |a|
  {
    |a| == 0 || (!Agrees(a, sub) && Clear(a[1..], sub))
  }

  lemma MatchAtShift(a: string, b: string, sub: string, j: nat)
    ensures MatchAt(a + b, j + |a|, sub) <==> MatchAt(b, j, sub)
  {
    if j + |a| + |sub| <= |a + b| {
      assert (a + b)[j + |a|..j + |a| + |sub|] == b[j..j + |sub|];
    }
  }

  /** The first match is the match with none before it. */
  lemma IndexOfIs(s: string, sub: string, i: nat)
    requires MatchAt(s, i, sub)
    requires forall j :: 0 <= j < i ==> !MatchAt(s, j, sub)
    ensures IndexOf(s, sub) == Some(i)
  {
  }

  lemma IndexOfNone(s: string, sub: string)
    requires forall j :: 0 <= j ==> !MatchAt(s, j, sub)
    ensures IndexOf(s, sub) == None
  {
  }

  lemma SkipPrefixNone(a: string, b: string, sub: string)
    requires forall j :: 0 <= j < |a| ==> !MatchAt(a + b, j, sub)
    requires IndexOf(b, sub) == None
    ensures IndexOf(a + b, sub) == None
  {
    forall j: nat ensures !MatchAt(a + b, j, sub) {
      if j >= |a| { MatchAtShift(a, b, sub, j - |a|); }
    }
    IndexOfNone(a + b, sub);
  }

  lemma SkipPrefixSome(a: string, b: string, sub: string, i: nat)
    requires forall j :: 0 <= j < |a| ==> !MatchAt(a + b, j, sub)
    requires IndexOf(b, sub) == Some(i)
    ensures IndexOf(a + b, sub) == Some(i + |a|)
  {
    MatchAtShift(a, b, sub, i);
    forall j: nat | j < i + |a| ensures !MatchAt(a + b, j, sub) {
      if j >= |a| { MatchAtShift(a, b, sub, j - |a|); }
    }
    IndexOfIs(a + b, sub, i + |a|);
  }

  /** If no occurrence starts inside `a`, searching `a + b` is searching `b`. */
  lemma SkipPrefix(a: string, b: string, sub: string)
    requires forall j :: 0 <= j < |a| ==> !MatchAt(a + b, j, sub)
    ensures IndexOf(a + b, sub) == Shift(IndexOf(b, sub), |a|)
  {
    match IndexOf(b, sub)
    case None => SkipPrefixNone(a, b, sub);
    case Some(i) => SkipPrefixSome(a, b, sub, i);
  }

  lemma {:induction false} ClearNoMatch(a: string, b: string, sub: string)
    requires Clear(a, sub)
    ensures forall j :: 0 <= j < |a| ==> !MatchAt(a + b, j, sub)
    decreases |a|
  {
    if |a| > 0 {
      ClearNoMatch(a[1..], b, sub);
      assert (a + b)[1..] == a[1..] + b;
      forall j | 1 <= j < |a| ensures !MatchAt(a + b, j, sub) {
        MatchAtTail(a + b, sub, j - 1);
      }
    }
  }

  /** Searching past a clear prefix. */
  lemma ClearSkip(a: string, b: string, sub: string)
    requires Clear(a, sub)
    ensures IndexOf(a + b, sub) == Shift(IndexOf(b, sub), |a|)
  {
    ClearNoMatch(a, b, sub);
    SkipPrefix(a, b, sub);
  }

  /** A clear string does not contain `sub`. */
  lemma ClearAbsent(a: string, sub: string)
    requires |sub| > 0
    requires Clear(a, sub)
    ensures !Contains(a, sub)
  {
    ClearSkip(a, "", sub);
    assert a + "" == a;
  }

  /** A string without the first character of `sub` is clear of it. */
  lemma {:induction false} ClearByLead(a: string, sub: string)
    requires |sub| > 0
    requires sub[0] !in a
    ensures Clear(a, sub)
    decreases |a|
  {
    if |a| > 0 {
      assert a[0] != sub[0];
      ClearByLead(a[1..], sub);
    }
  }

  /** A string whose first character may start `sub` but that parts from it
      at position `k`, and that holds no other start of `sub`. */
  lemma ClearByMismatch(m: string, sub: string, k: nat)
    requires k < |m| && k < |sub|
    requires m[k] != sub[k]
    requires sub[0] !in m[1..]
    ensures Clear(m, sub)
  {
    ClearByLead(m[1..], sub);
  }

  lemma {:induction false} ClearAppend(a: string, b: string, sub: string)
    requires Clear(a, sub) && Clear(b, sub)
    ensures Clear(a + b, sub)
    decreases |a|
  {
    if |a| == 0 {
      assert a + b == b;
    } else {
      var k :| 0 <= k < |a| && k < |sub| && a[k] != sub[k];
      assert (a + b)[k] == a[k];
      assert !Agrees(a + b, sub);
      assert (a + b)[1..] == a[1..] + b;
      ClearAppend(a[1..], b, sub);
      assert Clear((a + b)[1..], sub);
    }
  }

  lemma ClearAppend3(a: string, b: string, c: string, sub: string)
    requires Clear(a, sub) && Clear(b, sub) && Clear(c, sub)
    ensures Clear(a + b + c, sub)
  {
    ClearAppend(a, b, sub);
    ClearAppend(a + b, c, sub);
  }

  lemma StopNoMatch(a: string, b: string, sub: string, j: nat)
    requires !Contains(a, sub)
    requires |b| > 0 && b[0] !in sub
    requires j < |a|
    ensures !MatchAt(a + b, j, sub)
  {
    if j + |sub| <= |a| {
      assert a[j..j + |sub|] == (a + b)[j..j + |sub|];
      assert !MatchAt(a, j, sub);
    } else if j + |sub| <= |a + b| {
      var p := |a| - j;
      assert (a + b)[j..j + |sub|][p] == b[0];
      assert b[0] != sub[p];
    }
  }

  /** Searching past a piece that does not contain `sub` and is followed by a
      character `sub` does not use. */
  lemma StopSkip(a: string, b: string, sub: string)
    requires !Contains(a, sub)
    requires |b| > 0 && b[0] !in sub
    ensures IndexOf(a + b, sub) == Shift(IndexOf(b, sub), |a|)
  {
    forall j | 0 <= j < |a| ensures !MatchAt(a + b, j, sub) {
      StopNoMatch(a, b, sub, j);
    }
    SkipPrefix(a, b, sub);
  }

  /** Splitting where the first separator follows a clear prefix. */
  lemma SplitAfterClear(a: string, sep: string, b: string)
    requires |sep| > 0
    requires Clear(a, sep)
    ensures Split(a + sep + b, sep) == [a] + Split(b, sep)
  {
    var s := a + sep + b;
    assert s == a + (sep + b);
    ClearSkip(a, sep + b, sep);
    assert MatchAt(sep + b, 0, sep) by { assert (sep + b)[0..|sep|] == sep; }
    assert IndexOf(s, sep) == Some(|a|);
    assert s[..|a|] == a;
    assert s[|a| + |sep|..] == b;
  }

  /** Splitting a string that does not contain the separator. */
  lemma SplitAbsent(s: string, sep: string)
    requires |sep| > 0
    requires !Contains(s, sep)
    ensures Split(s, sep) == [s]
  {
  }

  /** Replacing a target that does not occur changes nothing. */
  lemma ReplaceAbsent(s: string, target: string, replacement: string)
    requires |target| > 0
    requires !Contains(s, target)
    ensures Replace(s, target, replacement) == s
  {
  }

  predicate AllSpace(w: string) {
    forall i :: 0 <= i < |w| ==> IsSpace(w[i])
  }

  lemma {:induction false} TrimLeftSpaces(w: string, x: string)
    requires AllSpace(w)
    requires x == [] || !IsSpace(x[0])
    ensures TrimLeft(w + x) == x
    decreases |w|
  {
    if |w| == 0 {
      assert w + x == x;
    } else {
      assert (w + x)[1..] == w[1..] + x;
      TrimLeftSpaces(w[1..], x);
    }
  }

  lemma {:induction false} TrimRightSpaces(x: string, w: string)
    requires AllSpace(w)
    requires x == [] || !IsSpace(x[|x| - 1])
    ensures TrimRight(x + w) == x
    decreases |w|
  {
    if |w| == 0 {
      assert x + w == x;
    } else {
      assert (x + w)[..|x + w| - 1] == x + w[..|w| - 1];
      TrimRightSpaces(x, w[..|w| - 1]);
    }
  }

  /** Stripping whitespace put around a value that is already stripped. */
  lemma StripAround(w1: string, v: string, w2: string)
    requires AllSpace(w1) && AllSpace(w2)
    requires v != [] && Strip(v) == v
    ensures Strip(w1 + v + w2) == v
  {
    assert w1 + v + w2 == w1 + (v + w2);
    TrimLeftSpaces(w1, v + w2);
    TrimRightSpaces(v, w2);
  }

  lemma LowerTake(s: string, n: nat)
    ensures Lower(Take(s, n)) == Take(Lower(s), n)
  {
  }

  lemma DigitRoundTrip(d: nat)
    requires d < 10
    ensures DigitValue(Digit(d)) == d
  {
    assert "0123456789"[d] as int == '0' as int + d by {
      if d == 0 {} else if d == 1 {} else if d == 2 {} else if d == 3 {} else if d == 4 {}
      else if d == 5 {} else if d == 6 {} else if d == 7 {} else if d == 8 {} else {}
    }
  }

  /** Reading back the decimal rendering of a count gives the count. */
  lemma {:induction false} DecimalRoundTrip(n: nat)
    ensures ParseNat(NatToString(n)) == n
    decreases n
  {
    if n < 10 {
      DigitRoundTrip(n);
      assert [Digit(n)][..0] == [];
    } else {
      var prefix := NatToString(n / 10);
      var s := prefix + [Digit(n % 10)];
      DecimalRoundTrip(n / 10);
      DigitRoundTrip(n % 10);
      assert s[..|s| - 1] == prefix;
    }
  }

  /** Different counts render as different decimal strings. */
  lemma DecimalInjective(m: nat, n: nat)
    requires NatToString(m) == NatToString(n)
    ensures m == n
  {
    DecimalRoundTrip(m);
    DecimalRoundTrip(n);
  }
}
