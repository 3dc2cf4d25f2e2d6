/**
 * The handful of Python string operations the core relies on: `str.strip`,
 * `str.splitlines`, `str.find`, clamped slicing, `str.replace(p, "")`,
 * `str.rstrip(c)` and `int()` applied to a string.
 */
module Text {
  import opened Wrappers

  /**
   * Python's `str.isspace`: tab through carriage return, the separators
   * 0x1C-0x1F, space, next line, no-break space, and the Unicode space
   * and line/paragraph separators.
   */
  predicate IsSpace(c: char)
  {
    || ('\t' <= c <= '\r') || ('\U{1C}' <= c <= ' ') || c == '\U{85}' || c == '\U{A0}'
    || c == '\U{1680}' || ('\U{2000}' <= c <= '\U{200A}') || c == '\U{2028}' || c == '\U{2029}'
    || c == '\U{202F}' || c == '\U{205F}' || c == '\U{3000}'
  }

  predicate AllSpace(s: string)
  {
    forall k :: 0 <= k < |s| ==> IsSpace(s[k])
  }

  /** No whitespace at either end: what `strip` leaves behind. */
  predicate IsStripped(s: string)
  {
    s == [] || (!IsSpace(s[0]) && !IsSpace(s[|s| - 1]))
  }

  /** Python's `s.lstrip()`. */
  function StripLeft(s: string): (r: string)
    ensures |r| <= |s|
    ensures r == [] || !IsSpace(r[0])
    ensures r != [] ==> r[|r| - 1] == s[|s| - 1]
  {
    if s != [] && IsSpace(s[0]) then StripLeft(s[1..]) else s
  }

  /** Python's `s.rstrip()`. */
  function StripRight(s: string): (r: string)
    ensures |r| <= |s|
    ensures r == [] || !IsSpace(r[|r| - 1])
    ensures r != [] ==> r[0] == s[0]
  {
    if s != [] && IsSpace(s[|s| - 1]) then StripRight(s[..|s| - 1]) else s
  }

  /** Python's `s.strip()`: the longest infix with whitespace at neither end. */
  function Strip(s: string): (r: string)
    ensures IsStripped(r) && |r| <= |s|
  {
    StripRight(StripLeft(s))
  }

  /** `lstrip` removes a run of whitespace from the front and nothing else. */
  lemma {:induction false} StripLeftIsSuffix(s: string)
    ensures StripLeft(s) == s[|s| - |StripLeft(s)|..]
    ensures AllSpace(s[..|s| - |StripLeft(s)|])
  {
    if s != [] && IsSpace(s[0]) {
      StripLeftIsSuffix(s[1..]);
      var n := |s| - |StripLeft(s)|;
      assert s[1..][n - 1..] == s[n..];
      forall k | 0 <= k < n ensures IsSpace(s[..n][k]) {
        if k > 0 {
          assert s[..n][k] == s[1..][..n - 1][k - 1];
        }
      }
    }
  }

  /** `rstrip` removes a run of whitespace from the back and nothing else. */
  lemma {:induction false} StripRightIsPrefix(s: string)
    ensures StripRight(s) == s[..|StripRight(s)|]
    ensures AllSpace(s[|StripRight(s)|..])
  {
    if s != [] && IsSpace(s[|s| - 1]) {
      var t := s[..|s| - 1];
      StripRightIsPrefix(t);
      var n := |StripRight(s)|;
      assert t[..n] == s[..n];
      forall k | 0 <= k < |s| - n ensures IsSpace(s[n..][k]) {
        if k < |s| - 1 - n {
          assert s[n..][k] == t[n..][k];
        }
      }
    }
  }

  /** What `strip` removes is whitespace, from the two ends only. */
  lemma {:induction false} StripIsTrimmedInfix(s: string)
    ensures exists i :: 0 <= i <= |s| - |Strip(s)| && Strip(s) == s[i..i + |Strip(s)|]
                        && AllSpace(s[..i]) && AllSpace(s[i + |Strip(s)|..])
  {
    var l := StripLeft(s);
    var r := StripRight(l);
    StripLeftIsSuffix(s);
    StripRightIsPrefix(l);
    var i := |s| - |l|;
    assert r == s[i..i + |r|] by {
      assert l == s[i..];
    }
    assert AllSpace(s[..i]);
    assert AllSpace(s[i + |r|..]) by {
      assert s[i + |r|..] == l[|r|..];
    }
  }

  lemma {:induction false} StripLeftOfStripped(s: string)
    requires s == [] || !IsSpace(s[0])
    ensures StripLeft(s) == s
  {
  }

  lemma {:induction false} StripRightOfStripped(s: string)
    requires s == [] || !IsSpace(s[|s| - 1])
    ensures StripRight(s) == s
  {
  }

  /** Stripping twice is stripping once. */
  lemma StripIdempotent(s: string)
    ensures Strip(Strip(s)) == Strip(s)
  {
    var t := Strip(s);
    StripLeftOfStripped(t);
    StripRightOfStripped(t);
  }

  /** `strip` gives the empty string exactly on all-whitespace input. */
  lemma {:induction false} StripEmptyIffAllSpace(s: string)
    ensures Strip(s) == [] <==> AllSpace(s)
  {
    if Strip(s) == [] {
      StripIsTrimmedInfix(s);
      var i :| 0 <= i <= |s| && AllSpace(s[..i]) && AllSpace(s[i..]);
      forall k | 0 <= k < |s| ensures IsSpace(s[k]) {
        if k < i {
          assert s[..i][k] == s[k];
        } else {
          assert s[i..][k - i] == s[k];
        }
      }
    }
    if AllSpace(s) {
      AllSpaceStripLeft(s);
    }
  }

  lemma {:induction false} AllSpaceStripLeft(s: string)
    requires AllSpace(s)
    ensures StripLeft(s) == []
  {
    if s != [] {
      assert AllSpace(s[1..]) by {
        forall k | 0 <= k < |s[1..]| ensures IsSpace(s[1..][k]) {
          assert s[1..][k] == s[k + 1];
        }
      }
      AllSpaceStripLeft(s[1..]);
    }
  }

  // ----- str.find -----

  /** `pat` occurs in `s` starting at index `k`. */
  predicate OccursAt(s: string, pat: string, k: int)
  {
    0 <= k && k + |pat| <= |s| && s[k..k + |pat|] == pat
  }

  /** `k` is where the first occurrence of `pat` in `s` starts. */
  predicate FirstOccurrence(s: string, pat: string, k: int)
  {
    OccursAt(s, pat, k) && forall j :: 0 <= j < k ==> !OccursAt(s, pat, j)
  }

  predicate Contains(s: string, pat: string)
  {
    exists k :: 0 <= k <= |s| && OccursAt(s, pat, k)
  }

  function FindFrom(s: string, pat: string, from: nat): (r: int)
    requires from <= |s|
    requires forall j :: 0 <= j < from ==> !OccursAt(s, pat, j)
    ensures r == -1 || FirstOccurrence(s, pat, r)
    ensures r == -1 ==> forall j :: 0 <= j <= |s| ==> !OccursAt(s, pat, j)
    decreases |s| - from
  {
    if from + |pat| > |s| then -1
    else if s[from..from + |pat|] == pat then from
    else FindFrom(s, pat, from + 1)
  }

  /** Python's `s.find(pat)`: the index of the first occurrence, or -1. */
  function Find(s: string, pat: string): (r: int)
    ensures r == -1 || FirstOccurrence(s, pat, r)
    ensures r == -1 <==> !Contains(s, pat)
  {
    FindFrom(s, pat, 0)
  }

  /** `find` returns exactly the first occurrence whenever there is one. */
  lemma FindIsFirstOccurrence(s: string, pat: string, k: int)
    requires FirstOccurrence(s, pat, k)
    ensures Find(s, pat) == k
  {
  }

  // ----- clamped slicing -----

  function Clamp(k: nat, n: nat): (r: nat)
    ensures r <= n && (k <= n ==> r == k)
  {
    if k <= n then k else n
  }

  /**
   * Python's `s[a:b]` for non-negative bounds: bounds past the end are
   * clamped to the end, and a reversed range is empty.
   */
  function Slice(s: string, a: nat, b: nat): (r: string)
    ensures |r| <= |s|
    ensures a >= |s| ==> r == []
    ensures a <= b <= |s| ==> r == s[a..b]
  {
    var lo := Clamp(a, |s|);
    var hi := Clamp(b, |s|);
    if lo <= hi then s[lo..hi] else []
  }

  /** Cutting at ordered offsets and gluing the pieces back loses nothing. */
  lemma SliceConcat(s: string, a: nat, b: nat, c: nat)
    requires a <= b <= c
    ensures Slice(s, a, b) + Slice(s, b, c) == Slice(s, a, c)
  {
  }

  // ----- str.splitlines -----

  /**
   * The line boundaries of Python's `str.splitlines`: line feed, vertical
   * tab, form feed, carriage return, 0x1C-0x1E, next line, and the Unicode
   * line and paragraph separators.
   */
  predicate IsLineBreak(c: char)
  {
    || ('\n' <= c <= '\r') || ('\U{1C}' <= c <= '\U{1E}') || c == '\U{85}'
    || c == '\U{2028}' || c == '\U{2029}'
  }

  predicate NoLineBreak(s: string)
  {
    forall k :: 0 <= k < |s| ==> !IsLineBreak(s[k])
  }

  /** Index of the first line break in `s`, or `|s|` when there is none. */
  function FirstBreak(s: string): (i: nat)
    ensures i <= |s|
    ensures NoLineBreak(s[..i])
    ensures i < |s| ==> IsLineBreak(s[i])
  {
    if s == [] then 0
    else if IsLineBreak(s[0]) then 0
    else
      var i := 1 + FirstBreak(s[1..]);
      assert s[..i] == [s[0]] + s[1..][..i - 1];
      i
  }

  /**
   * Python's `s.splitlines()`: the text between line boundaries, where
   * "\r\n" counts as one boundary and a final boundary opens no new line.
   */
  function Lines(s: string): seq<string>
    decreases |s|
  {
    if s == [] then []
    else
      var i := FirstBreak(s);
      if i == |s| then [s]
      else
        var next := if s[i] == '\r' && i + 1 < |s| && s[i + 1] == '\n' then i + 2 else i + 1;
        [s[..i]] + Lines(s[next..])
  }

  /** No line contains a line boundary. */
  lemma {:induction false} LinesHaveNoBreaks(s: string)
    ensures forall k :: 0 <= k < |Lines(s)| ==> NoLineBreak(Lines(s)[k])
    decreases |s|
  {
    if s != [] && FirstBreak(s) < |s| {
      var i := FirstBreak(s);
      var next := if s[i] == '\r' && i + 1 < |s| && s[i + 1] == '\n' then i + 2 else i + 1;
      LinesHaveNoBreaks(s[next..]);
    }
  }

  /** All characters of `s` except the line breaks, in order. */
  function WithoutBreaks(s: string): (r: string)
    ensures |r| <= |s|
  {
    if s == [] then []
    else (if IsLineBreak(s[0]) then [] else [s[0]]) + WithoutBreaks(s[1..])
  }

  function Concat(ls: seq<string>): string
  {
    if ls == [] then [] else ls[0] + Concat(ls[1..])
  }

  lemma {:induction false} WithoutBreaksAppend(a: string, b: string)
    ensures WithoutBreaks(a + b) == WithoutBreaks(a) + WithoutBreaks(b)
  {
    if a != [] {
      assert (a + b)[1..] == a[1..] + b;
      WithoutBreaksAppend(a[1..], b);
    } else {
      assert a + b == b;
    }
  }

  lemma {:induction false} WithoutBreaksOfPlain(s: string)
    requires NoLineBreak(s)
    ensures WithoutBreaks(s) == s
  {
    if s != [] {
      WithoutBreaksOfPlain(s[1..]);
    }
  }

  lemma {:induction false} WithoutBreaksOfBreaks(s: string)
    requires forall k :: 0 <= k < |s| ==> IsLineBreak(s[k])
    ensures WithoutBreaks(s) == []
  {
    if s != [] {
      WithoutBreaksOfBreaks(s[1..]);
    }
  }

  /**
   * Splitting into lines only drops the line boundaries: gluing the lines
   * back together gives the text with its line-break characters removed.
   */
  lemma {:induction false} LinesLoseOnlyBreaks(s: string)
    ensures Concat(Lines(s)) == WithoutBreaks(s)
    decreases |s|
  {
    if s != [] {
      var i := FirstBreak(s);
      if i == |s| {
        assert s[..i] == s;
        WithoutBreaksOfPlain(s);
        ConcatCons(s, []);
      } else {
        var next := if s[i] == '\r' && i + 1 < |s| && s[i + 1] == '\n' then i + 2 else i + 1;
        var head, brk, tail := s[..i], s[i..next], s[next..];
        assert forall k :: 0 <= k < |brk| ==> IsLineBreak(brk[k]) by {
          assert brk[0] == s[i];
          assert next == i + 2 ==> brk[1] == '\n';
        }
        assert s == (head + brk) + tail;
        LinesLoseOnlyBreaks(tail);
        ConcatCons(head, Lines(tail));
        WithoutBreaksOfLine(head, brk, tail);
      }
    }
  }

  lemma {:induction false} WithoutBreaksOfLine(head: string, brk: string, tail: string)
    requires NoLineBreak(head)
    requires forall k :: 0 <= k < |brk| ==> IsLineBreak(brk[k])
    ensures WithoutBreaks((head + brk) + tail) == head + WithoutBreaks(tail)
  {
    var hb := head + brk;
    WithoutBreaksAppend(hb, tail);
    WithoutBreaksAppend(head, brk);
    WithoutBreaksOfPlain(head);
    WithoutBreaksOfBreaks(brk);
    assert WithoutBreaks(hb) == head;
  }

  lemma ConcatCons(head: string, ls: seq<string>)
    ensures Concat([head] + ls) == head + Concat(ls)
  {
    assert ([head] + ls)[1..] == ls;
  }

  /** Text without any line boundary is a single line; the empty text has none. */
  lemma LinesOfSingleLine(s: string)
    requires s != [] && NoLineBreak(s)
    ensures Lines(s) == [s]
  {
  }

  // ----- str.replace(pat, "") and str.rstrip(c) -----

  /**
   * Python's `s.replace(pat, "")`: one left-to-right pass that removes
   * non-overlapping occurrences of `pat`.
   */
  function RemoveAll(s: string, pat: string): (r: string)
    requires pat != []
    ensures |r| <= |s|
    decreases |s|
  {
    if |s| < |pat| then s
    else if s[..|pat|] == pat then RemoveAll(s[|pat|..], pat)
    else [s[0]] + RemoveAll(s[1..], pat)
  }

  /** Text with no occurrence of `pat` is left as it is. */
  lemma {:induction false} RemoveAllAbsent(s: string, pat: string)
    requires pat != [] && !Contains(s, pat)
    ensures RemoveAll(s, pat) == s
    decreases |s|
  {
    if |s| >= |pat| {
      assert !OccursAt(s, pat, 0);
      assert !Contains(s[1..], pat) by {
        forall k | OccursAt(s[1..], pat, k) ensures OccursAt(s, pat, k + 1) {
          assert s[1..][k..k + |pat|] == s[k + 1..k + 1 + |pat|];
        }
      }
      RemoveAllAbsent(s[1..], pat);
    }
  }

  /** Python's `s.rstrip(c)`: drop every trailing `c`. */
  function RStripChar(s: string, c: char): (r: string)
    ensures |r| <= |s| && r == s[..|r|]
    ensures r == [] || r[|r| - 1] != c
    ensures forall k :: |r| <= k < |s| ==> s[k] == c
  {
    if s != [] && s[|s| - 1] == c then RStripChar(s[..|s| - 1], c) else s
  }

  // ----- int() of a string, and its inverse -----

  predicate IsDigit(c: char)
  {
    '0' <= c <= '9'
  }

  function DigitValue(c: char): (d: nat)
    requires IsDigit(c)
    ensures d < 10
  {
    (c as int) - ('0' as int)
  }

  function DigitChar(d: nat): (c: char)
    requires d < 10
    ensures IsDigit(c) && DigitValue(c) == d
  {
    ('0' as int + d) as char
  }

  predicate AllDigits(s: string)
  {
    forall k :: 0 <= k < |s| ==> IsDigit(s[k])
  }

  /** The value of a string of decimal digits, most significant first. */
  function DigitsValue(s: string): (n: nat)
    requires AllDigits(s)
  {
    if s == [] then 0 else 10 * DigitsValue(s[..|s| - 1]) + DigitValue(s[|s| - 1])
  }

  /** Python's `str(n)` for an integer `n >= 0`. */
  function NatToString(n: nat): (s: string)
    ensures s != [] && AllDigits(s)
    decreases n
  {
    if n < 10 then [DigitChar(n)] else NatToString(n / 10) + [DigitChar(n % 10)]
  }

  /** Python's `str(n)`. */
  function IntToString(n: int): string
  {
    if n < 0 then "-" + NatToString(-n) else NatToString(n)
  }

  /**
   * Python's `int(s)` for a string, restricted to ASCII decimal digits:
   * optional whitespace, an optional sign, at least one digit, optional
   * whitespace. `None` stands for the `ValueError` Python raises otherwise.
   */
  function ParseInt(s: string): (r: Option<int>)
    ensures r.Some? <==> (var t := Strip(s);
                          var body := if t != [] && (t[0] == '+' || t[0] == '-') then t[1..] else t;
                          body != [] && AllDigits(body))
  {
    var t := Strip(s);
    var negative := t != [] && t[0] == '-';
    var body := if t != [] && (t[0] == '+' || t[0] == '-') then t[1..] else t;
    if body != [] && AllDigits(body) then
      var v: int := DigitsValue(body);
      Some(if negative then -v else v)
    else None
  }

  lemma {:induction false} NatToStringValue(n: nat)
    ensures DigitsValue(NatToString(n)) == n
    decreases n
  {
    if n >= 10 {
      var s := NatToString(n);
      NatToStringValue(n / 10);
      assert s[..|s| - 1] == NatToString(n / 10);
    }
  }

  /** `int(str(n)) == n`: parsing inverts printing. */
  lemma {:induction false} ParseIntOfString(n: int)
    ensures ParseInt(IntToString(n)) == Some(n)
  {
    var s := IntToString(n);
    var digits := NatToString(if n < 0 then -n else n);
    NatToStringValue(if n < 0 then -n else n);
    assert s[0] != ' ' && !IsSpace(s[0]) by {
      if n < 0 { assert s[0] == '-'; } else { assert IsDigit(s[0]); }
    }
    assert !IsSpace(s[|s| - 1]) by {
      assert s[|s| - 1] == digits[|digits| - 1];
    }
    StripLeftOfStripped(s);
    StripRightOfStripped(s);
    assert Strip(s) == s;
    if n < 0 {
      assert s[1..] == digits;
    } else {
      assert s[0] != '+' && s[0] != '-';
    }
  }
}
