/** The string primitives the sync engine relies on, with the semantics of the
    Python `str` methods it calls: `strip()`, `lower()`, slicing `[:n]`,
    `sub in s`, `split(sep)`, `sep.join(parts)` and `replace(old, new)`.
    Strings are sequences of Unicode scalar values, as Python strings are
    sequences of code points. */
module Text {
  import opened Wrappers

  /** The whitespace set `Strip` removes: the ASCII whitespace and separator
      controls that Python's `str.isspace` accepts, plus NEL and NBSP. */
  predicate IsSpace(c: char) {
    c == ' ' || c == '\t' || c == '\n' || c == '\r' || c == '\U{000B}' || c == '\U{000C}'
    || ('\U{001C}' <= c <= '\U{001F}') || c == '\U{0085}' || c == '\U{00A0}'
  }

  /** Python `s.lstrip()`. */
  function TrimLeft(s: string): (r: string)
    ensures |r| <= |s| && r == s[|s| - |r|..]
    ensures r == [] || !IsSpace(r[0])
    ensures forall i :: 0 <= i < |s| - |r| ==> IsSpace(s[i])
  {
    if |s| > 0 && IsSpace(s[0]) then TrimLeft(s[1..]) else s
  }

  /** Python `s.rstrip()`. */
  function TrimRight(s: string): (r: string)
    ensures |r| <= |s| && r == s[..|r|]
    ensures r == [] || !IsSpace(r[|r| - 1])
    ensures forall i :: |r| <= i < |s| ==> IsSpace(s[i])
  {
    if |s| > 0 && IsSpace(s[|s| - 1]) then TrimRight(s[..|s| - 1]) else s
  }

  /** Python `s.strip()`: a contiguous piece of `s` with no whitespace at either
      end, and everything cut away is whitespace. */
  function Strip(s: string): (r: string)
    ensures |r| <= |s|
    ensures r == [] || (!IsSpace(r[0]) && !IsSpace(r[|r| - 1]))
    ensures r == [] ==> forall i :: 0 <= i < |s| ==> IsSpace(s[i])
  {
    TrimRight(TrimLeft(s))
  }

  /** A string with a non-space character strips to a non-empty one. */
  lemma StripNonEmptyAt(s: string, i: nat)
    requires i < |s| && !IsSpace(s[i])
    ensures Strip(s) != []
  {
  }

  /** Lower-casing of one character; only ASCII capitals change. */
  function LowerChar(c: char): char {
    if 'A' <= c <= 'Z' then (c as int + 32) as char else c
  }

  /** Python `s.lower()`, restricted to ASCII capitals (length preserving). */
  function Lower(s: string): string {
    seq(|s|, i requires 0 <= i < |s| => LowerChar(s[i]))
  }

  /** Python `s[:n]`. */
  function Take(s: string, n: nat): string {
    if |s| <= n then s else s[..n]
  }

  /** `sub` occurs in `s` starting at position `i`. */
  predicate MatchAt(s: string, i: nat, sub: string) {
    i + |sub| <= |s| && s[i..i + |sub|] == sub
  }

  /** Matching one position further right in `s` is matching in `s[1..]`. */
  lemma MatchAtTail(s: string, sub: string, j: nat)
    requires |s| > 0
    ensures MatchAt(s, j + 1, sub) <==> MatchAt(s[1..], j, sub)
  {
    if j + 1 + |sub| <= |s| {
      assert s[j + 1..j + 1 + |sub|] == s[1..][j..j + |sub|];
    }
  }

  /** Position of the first occurrence of `sub` in `s` (Python `s.find(sub)`). */
  function IndexOf(s: string, sub: string): (r: Option<nat>)
    ensures r.Some? ==> MatchAt(s, r.value, sub)
    ensures r.Some? ==> forall j :: 0 <= j < r.value ==> !MatchAt(s, j, sub)
    ensures r.None? ==> forall j :: 0 <= j ==> !MatchAt(s, j, sub)
    decreases |s|
  {
    if |s| < |sub| then None
    else if s[..|sub|] == sub then Some(0)
    else
      var rest := IndexOf(s[1..], sub);
      assert !MatchAt(s, 0, sub) by { assert s[0..|sub|] == s[..|sub|]; }
      assert forall j: nat :: MatchAt(s, j + 1, sub) <==> MatchAt(s[1..], j, sub) by {
        forall j: nat ensures MatchAt(s, j + 1, sub) <==> MatchAt(s[1..], j, sub) {
          MatchAtTail(s, sub, j);
        }
      }
      assert rest.None? ==> forall j: nat :: !MatchAt(s, j, sub) by {
        if rest.None? {
          forall j: nat ensures !MatchAt(s, j, sub) {
            if j > 0 { MatchAtTail(s, sub, j - 1); }
          }
        }
      }
      assert rest.Some? ==> forall j: nat :: j < rest.value + 1 ==> !MatchAt(s, j, sub) by {
        if rest.Some? {
          forall j: nat | j < rest.value + 1 ensures !MatchAt(s, j, sub) {
            if j > 0 { MatchAtTail(s, sub, j - 1); }
          }
        }
      }
      Shift(rest, 1)
  }

  /** Python `sub in s`. */
  predicate Contains(s: string, sub: string) {
    IndexOf(s, sub).Some?
  }

  /** Python `sep.join(parts)`. */
  function Join(parts: seq<string>, sep: string): string
    decreases |parts|
  {
    if |parts| == 0 then ""
    else if |parts| == 1 then parts[0]
    else parts[0] + sep + Join(parts[1..], sep)
  }

  /** Python `s.split(sep)` for a non-empty separator: the pieces between the
      non-overlapping occurrences of `sep`, scanning left to right. The pieces
      contain no separator and joining them with it gives back `s`. */
  function Split(s: string, sep: string): (r: seq<string>)
    requires |sep| > 0
    ensures |r| >= 1
    ensures |r| == 1 <==> !Contains(s, sep)
    ensures forall k :: 0 <= k < |r| ==> !Contains(r[k], sep)
    ensures Join(r, sep) == s
    decreases |s|
  {
    match IndexOf(s, sep)
    case None => [s]
    case Some(i) =>
      var rest := Split(s[i + |sep|..], sep);
      SplitStep(s, sep, i, rest);
      [s[..i]] + rest
  }

  /** One step of `Split`: the piece before the first separator, followed by
      the pieces of what comes after it. */
  lemma SplitStep(s: string, sep: string, i: nat, rest: seq<string>)
    requires |sep| > 0
    requires IndexOf(s, sep) == Some(i)
    requires |rest| >= 1
    requires forall k :: 0 <= k < |rest| ==> !Contains(rest[k], sep)
    requires Join(rest, sep) == s[i + |sep|..]
    ensures var r := [s[..i]] + rest;
      && |r| >= 2
      && (forall k :: 0 <= k < |r| ==> !Contains(r[k], sep))
      && Join(r, sep) == s
  {
    var r := [s[..i]] + rest;
    HeadBeforeFirstMatch(s, sep, i);
    assert forall k :: 1 <= k < |r| ==> r[k] == rest[k - 1];
    SplitStepJoin(s, sep, i, rest);
  }

  lemma SplitStepJoin(s: string, sep: string, i: nat, rest: seq<string>)
    requires MatchAt(s, i, sep)
    requires |rest| >= 1
    requires Join(rest, sep) == s[i + |sep|..]
    ensures Join([s[..i]] + rest, sep) == s
  {
    JoinCons(s[..i], rest, sep);
    Slices(s, i, |sep|);
  }

  /** A string is its three slices around a window. */
  lemma Slices(s: string, i: nat, n: nat)
    requires i + n <= |s|
    ensures s == s[..i] + s[i..i + n] + s[i + n..]
  {
  }

  /** The text before the first occurrence of `sep` does not contain it. */
  lemma HeadBeforeFirstMatch(s: string, sep: string, i: nat)
    requires |sep| > 0
    requires IndexOf(s, sep) == Some(i)
    ensures !Contains(s[..i], sep)
  {
    var head := s[..i];
    forall j: nat ensures !MatchAt(head, j, sep) {
      if MatchAt(head, j, sep) {
        assert s[j..j + |sep|] == head[j..j + |sep|];
        assert MatchAt(s, j, sep);
      }
    }
  }

  /** Joining a non-empty list behind one more piece puts a separator between. */
  lemma JoinCons(head: string, rest: seq<string>, sep: string)
    requires |rest| >= 1
    ensures Join([head] + rest, sep) == head + sep + Join(rest, sep)
  {
    assert ([head] + rest)[1..] == rest;
  }

  /** Python `s.replace(target, replacement)` for a non-empty `target`. */
  function Replace(s: string, target: string, replacement: string): string
    requires |target| > 0
  {
    Join(Split(s, target), replacement)
  }

  /** Python `xs[-1]`. */
  function Last<T>(xs: seq<T>): T
    requires |xs| > 0
  {
    xs[|xs| - 1]
  }

  /** Decimal digit of a number below ten. */
  function Digit(d: nat): char
    requires d < 10
  {
    "0123456789"[d]
  }

  /** Value of a decimal digit character. */
  function DigitValue(c: char): nat {
    if '0' <= c <= '9' then c as int - '0' as int else 0
  }

  /** Python `str(n)` for a natural number. */
  function NatToString(n: nat): (r: string)
    ensures |r| > 0
    ensures forall i :: 0 <= i < |r| ==> '0' <= r[i] <= '9'
    decreases n
  {
    if n < 10 then [Digit(n)] else NatToString(n / 10) + [Digit(n % 10)]
  }

  /** Python `int(s)` for a string of decimal digits. */
  function ParseNat(s: string): nat
    decreases |s|
  {
    if |s| == 0 then 0 else 10 * ParseNat(s[..|s| - 1]) + DigitValue(s[|s| - 1])
  }
}
