/**
 * The few Python `str` operations the extension relies on: `isspace`,
 * `strip`, `lstrip(chars)`, `startswith`, `split(sep)` and `sep.join(parts)`,
 * with strings as sequences of code points.
 */
module Strings {

  /** Python's `str.isspace` for one code point (Unicode White_Space as CPython defines it). */
  predicate IsSpace(c: char)
  {
    var n := c as int;
    || 0x09 <= n <= 0x0D
    || 0x1C <= n <= 0x20
    || n == 0x85 || n == 0xA0 || n == 0x1680
    || 0x2000 <= n <= 0x200A
    || n == 0x2028 || n == 0x2029 || n == 0x202F || n == 0x205F || n == 0x3000
  }

  /**
   * Blank, tab, newline and carriage return are whitespace; no ASCII letter or
   * digit, and none of the characters role text gives a meaning to, is.
   */
  lemma SpaceCharacters(c: char)
    ensures c == ' ' || c == '\t' || c == '\n' || c == '\r' ==> IsSpace(c)
    ensures '0' <= c <= '9' || 'a' <= c <= 'z' || 'A' <= c <= 'Z' || c in "~<>.-_" ==> !IsSpace(c)
  {
  }

  /** `s.lstrip()`: drops the leading whitespace. */
  function LStrip(s: string): (r: string)
    ensures |r| <= |s| && r == s[|s| - |r|..]
    ensures forall k :: 0 <= k < |s| - |r| ==> IsSpace(s[k])
    ensures r == [] || !IsSpace(r[0])
  {
    if |s| > 0 && IsSpace(s[0]) then LStrip(s[1..]) else s
  }

  /** `s.rstrip()`: drops the trailing whitespace. */
  function RStrip(s: string): (r: string)
    ensures |r| <= |s| && r == s[..|r|]
    ensures forall k :: |r| <= k < |s| ==> IsSpace(s[k])
    ensures r == [] || !IsSpace(r[|r| - 1])
  {
    if |s| > 0 && IsSpace(s[|s| - 1]) then RStrip(s[..|s| - 1]) else s
  }

  /** `s.strip()`: a contiguous slice of `s` with no whitespace at either end. */
  function Strip(s: string): (r: string)
    ensures r == [] || (!IsSpace(r[0]) && !IsSpace(r[|r| - 1]))
  {
    RStrip(LStrip(s))
  }

  /** `r` is the slice of `s` from `a` on, with only whitespace before and after it. */
  predicate IsTrimmedSlice(s: string, a: int, r: string)
  {
    && 0 <= a && a + |r| <= |s| && r == s[a..a + |r|]
    && (forall k :: 0 <= k < a ==> IsSpace(s[k]))
    && (forall k :: a + |r| <= k < |s| ==> IsSpace(s[k]))
  }

  /** `Strip` keeps exactly the slice between the outer whitespace runs. */
  lemma StripIsSlice(s: string)
    ensures IsTrimmedSlice(s, |s| - |LStrip(s)|, Strip(s))
  {
    TrimmedSliceOfParts(s, LStrip(s), RStrip(LStrip(s)));
  }

  /** A blank-led suffix `l` of `s`, cut before a blank tail, is a trimmed slice of `s`. */
  lemma TrimmedSliceOfParts(s: string, l: string, r: string)
    requires |l| <= |s| && l == s[|s| - |l|..]
    requires forall k :: 0 <= k < |s| - |l| ==> IsSpace(s[k])
    requires |r| <= |l| && r == l[..|r|]
    requires forall k :: |r| <= k < |l| ==> IsSpace(l[k])
    ensures IsTrimmedSlice(s, |s| - |l|, r)
  {
    var a := |s| - |l|;
    forall k | a + |r| <= k < |s|
      ensures IsSpace(s[k])
    {
      assert s[k] == l[k - a];
    }
  }

  /** A string without whitespace at either end is its own strip. */
  lemma {:induction false} StripOfTrimmed(s: string)
    requires s == [] || (!IsSpace(s[0]) && !IsSpace(s[|s| - 1]))
    ensures Strip(s) == s
  {
    assert LStrip(s) == s;
  }

  /** One trailing blank is stripped off a trimmed text. */
  lemma StripTrailingSpace(s: string)
    requires |s| > 0 && !IsSpace(s[0]) && !IsSpace(s[|s| - 1])
    ensures Strip(s + " ") == s
  {
    var t := s + " ";
    assert LStrip(t) == t;
    assert t[..|t| - 1] == s;
    StripOfTrimmed(s);
  }

  /** A leading blank does not change the strip. */
  lemma StripLeadingSpace(c: char, s: string)
    requires IsSpace(c)
    ensures Strip([c] + s) == Strip(s)
  {
    LStripCons(c, s);
  }

  /** A leading blank is dropped by `LStrip`. */
  lemma LStripCons(c: char, s: string)
    ensures LStrip([c] + s) == if IsSpace(c) then LStrip(s) else [c] + s
  {
    assert ([c] + s)[1..] == s;
  }

  /** `s.lstrip(c)` for a one-character argument: drops every leading `c`. */
  function LStripChar(s: string, c: char): (r: string)
    ensures |r| <= |s| && r == s[|s| - |r|..]
    ensures forall k :: 0 <= k < |s| - |r| ==> s[k] == c
    ensures r == [] || r[0] != c
  {
    if |s| > 0 && s[0] == c then LStripChar(s[1..], c) else s
  }

  /** `s.startswith(c)` for a one-character prefix. */
  predicate StartsWith(s: string, c: char)
  {
    |s| > 0 && s[0] == c
  }

  /** The index of the first `c` in `s`. */
  function IndexOf(s: string, c: char): (i: nat)
    requires c in s
    ensures i < |s| && s[i] == c && c !in s[..i]
  {
    if s[0] == c then 0 else IndexOf(s[1..], c) + 1
  }

  /** `sep.join(parts)`: the parts in order with `sep` between neighbours. */
  function Join(parts: seq<string>, sep: string): (r: string)
    ensures |parts| == 0 ==> r == ""
    ensures |parts| == 1 ==> r == parts[0]
    ensures |parts| >= 1 ==> |parts[0]| <= |r| && r[..|parts[0]|] == parts[0]
  {
    if |parts| == 0 then ""
    else if |parts| == 1 then parts[0]
    else parts[0] + sep + Join(parts[1..], sep)
  }

  /** Joining one more part at the end adds one separator and that part. */
  lemma {:induction false} JoinSnoc(parts: seq<string>, last: string, sep: string)
    requires |parts| >= 1
    ensures Join(parts + [last], sep) == Join(parts, sep) + sep + last
  {
    if |parts| == 1 {
      assert (parts + [last])[1..] == [last];
    } else {
      assert (parts + [last])[1..] == parts[1..] + [last];
      JoinSnoc(parts[1..], last, sep);
    }
  }

  /**
   * `s.split(sep)` for a one-character separator: never empty, no part holds
   * the separator, and joining the parts back gives `s`.
   */
  function Split(s: string, sep: char): (parts: seq<string>)
    ensures |parts| >= 1
    ensures forall i :: 0 <= i < |parts| ==> sep !in parts[i]
    ensures Join(parts, [sep]) == s
    ensures |parts| == 1 <==> sep !in s
    decreases |s|
  {
    if sep !in s then [s]
    else
      var i := IndexOf(s, sep);
      var rest := Split(s[i + 1..], sep);
      var parts := [s[..i]] + rest;
      assert parts[1..] == rest;
      assert s == s[..i] + [sep] + s[i + 1..];
      parts
  }

  /** Splitting parts that do not hold the separator undoes `Join`. */
  lemma {:induction false} SplitJoin(parts: seq<string>, sep: char)
    requires |parts| >= 1
    requires forall i :: 0 <= i < |parts| ==> sep !in parts[i]
    ensures Split(Join(parts, [sep]), sep) == parts
  {
    if |parts| > 1 {
      var s := Join(parts, [sep]);
      var tail := Join(parts[1..], [sep]);
      assert s == parts[0] + [sep] + tail;
      assert sep in s by { assert s[|parts[0]|] == sep; }
      var i := IndexOf(s, sep);
      assert s[..|parts[0]|] == parts[0];
      assert i == |parts[0]|;
      assert s[..i] == parts[0];
      assert s[i + 1..] == tail;
      SplitJoin(parts[1..], sep);
    }
  }

  /**
   * The pair `(sep.join(parts[:-1]), parts[-1])` for `parts = s.split(sep)`:
   * the text before the last separator and the text after it.
   */
  function SplitLast(s: string, sep: char): (r: (string, string))
    ensures sep !in r.1
    ensures sep in s ==> r.0 + [sep] + r.1 == s
    ensures sep !in s ==> r.0 == "" && r.1 == s
  {
    var parts := Split(s, sep);
    var n := |parts|;
    var init := Join(parts[..n - 1], [sep]);
    if n >= 2 then
      assert parts == parts[..n - 1] + [parts[n - 1]];
      JoinSnoc(parts[..n - 1], parts[n - 1], [sep]);
      (init, parts[n - 1])
    else
      (init, parts[n - 1])
  }

  /** A separator followed by a separator-free tail fixes the split: the tail is the text after the last separator. */
  lemma LastSeparatorUnique(a1: string, b1: string, a2: string, b2: string, sep: char)
    requires a1 + [sep] + b1 == a2 + [sep] + b2
    requires sep !in b1 && sep !in b2
    ensures a1 == a2 && b1 == b2
  {
    var s := a1 + [sep] + b1;
    assert s[|s| - |b1| - 1] == sep && s[|s| - |b2| - 1] == sep;
    assert forall k :: |s| - |b1| <= k < |s| ==> s[k] == b1[k - (|s| - |b1|)];
    assert forall k :: |s| - |b2| <= k < |s| ==> s[k] == b2[k - (|s| - |b2|)];
    assert b1 == s[|s| - |b1|..] == b2;
    assert a1 == s[..|a1|] == a2;
  }
}
