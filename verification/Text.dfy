/**
 * The string operations the knowledge base relies on, with Python's meaning:
 * `str.strip()`, `str.split(',')`, the case folding behind the ORM's
 * `icontains` lookup, and `int()` / `str()` on integers.
 */
module Text {
  import opened Wrappers

  /** Python's `str.isspace()` for a single character. */
  predicate IsSpace(c: char)
  {
    || c == ' '
    || ('\t' <= c <= '\r')
    || ('\U{1C}' <= c <= '\U{1F}')
    || c == '\U{85}' || c == '\U{A0}' || c == '\U{1680}'
    || ('\U{2000}' <= c <= '\U{200A}')
    || c == '\U{2028}' || c == '\U{2029}' || c == '\U{202F}' || c == '\U{205F}' || c == '\U{3000}'
  }

  predicate AllSpace(s: string)
  {
    forall i :: 0 <= i < |s| ==> IsSpace(s[i])
  }

  /** A string that `strip()` leaves alone: no whitespace at either end. */
  predicate IsStripped(s: string)
  {
    s == [] || (!IsSpace(s[0]) && !IsSpace(s[|s| - 1]))
  }

  /** `r` is the run `s[i..j]` of `s`, and everything outside that run is whitespace. */
  predicate TrimmedAt(s: string, r: string, i: int, j: int)
  {
    0 <= i <= j <= |s| && r == s[i..j] && AllSpace(s[..i]) && AllSpace(s[j..])
  }

  /** `r` is what is left of `s` once some whitespace is cut from either end. */
  ghost predicate Trimmed(s: string, r: string)
  {
    exists i, j :: TrimmedAt(s, r, i, j)
  }

  /** `lstrip()`: the result is a suffix of `s`, and only whitespace was removed. */
  function StripStart(s: string): (r: string)
    ensures |r| <= |s| && r == s[|s| - |r|..]
    ensures forall i :: 0 <= i < |s| - |r| ==> IsSpace(s[i])
    ensures r == [] || !IsSpace(r[0])
    decreases |s|
  {
    if s != [] && IsSpace(s[0]) then StripStart(s[1..]) else s
  }

  /** `rstrip()`: the result is a prefix of `s`, and only whitespace was removed. */
  function StripEnd(s: string): (r: string)
    ensures |r| <= |s| && r == s[..|r|]
    ensures forall i :: |r| <= i < |s| ==> IsSpace(s[i])
    ensures r == [] || !IsSpace(r[|r| - 1])
    decreases |s|
  {
    if s != [] && IsSpace(s[|s| - 1]) then StripEnd(s[..|s| - 1]) else s
  }

  /** `strip()`: whitespace removed at both ends, nothing else. */
  function Strip(s: string): (r: string)
    ensures IsStripped(r)
    ensures Trimmed(s, r)
    ensures |r| <= |s|
    ensures forall i :: 0 <= i < |r| ==> r[i] in s
    ensures r == [] <==> AllSpace(s)
  {
    StripKeepsMiddle(s);
    StripEnd(StripStart(s))
  }

  /**
   * What is left after both ends are stripped is a run of `s` with only whitespace
   * around it, and it is empty only when `s` is all whitespace.
   */
  lemma StripKeepsMiddle(s: string)
    ensures var r := StripEnd(StripStart(s));
      && Trimmed(s, r)
      && (forall i :: 0 <= i < |r| ==> r[i] in s)
      && (r == [] <==> AllSpace(s))
  {
    var u := StripStart(s);
    var r := StripEnd(u);
    var d := |s| - |u|;
    forall i | 0 <= i < |r|
      ensures r[i] in s
    {
      assert r[i] == u[i] == s[d + i];
    }
    if r == [] {
      assert u == [];
      assert forall i :: 0 <= i < |s| ==> IsSpace(s[i]);
    } else {
      assert s[d] == r[0] && !IsSpace(r[0]);
    }
    StripBothEnds(s);
  }

  /** What `lstrip()` cut off is all whitespace. */
  lemma LeadingSpace(s: string)
    ensures AllSpace(s[..|s| - |StripStart(s)|])
  {
    var d := |s| - |StripStart(s)|;
    forall k | 0 <= k < d
      ensures IsSpace(s[..d][k])
    {
      assert s[..d][k] == s[k];
    }
  }

  /** What `rstrip()` cut off is all whitespace. */
  lemma TrailingSpace(u: string)
    ensures AllSpace(u[|StripEnd(u)|..])
  {
    var n := |StripEnd(u)|;
    forall k | 0 <= k < |u| - n
      ensures IsSpace(u[n..][k])
    {
      assert u[n..][k] == u[n + k];
    }
  }

  /** Stripping both ends leaves `s[d..d + |r|]`, with only whitespace on either side. */
  lemma StripBothEnds(s: string)
    ensures Trimmed(s, StripEnd(StripStart(s)))
  {
    var u := StripStart(s);
    var r := StripEnd(u);
    var d := |s| - |u|;
    var e := d + |r|;
    LeadingSpace(s);
    TrailingSpace(u);
    assert u == s[d..];
    assert r == s[d..e];
    assert s[e..] == u[|r|..];
    assert TrimmedAt(s, r, d, e);
  }

  /** A string `strip()` does not change is one that is already stripped. */
  lemma StripFixesStripped(s: string)
    requires IsStripped(s)
    ensures Strip(s) == s
  {
  }

  /** `strip()` introduces no character that was not already there. */
  lemma StripSemNovos(s: string, c: char)
    requires c !in s
    ensures c !in Strip(s)
  {
  }

  /** `strip()` is idempotent. */
  lemma StripIdempotent(s: string)
    ensures Strip(Strip(s)) == Strip(s)
  {
    StripFixesStripped(Strip(s));
  }

  /** The number of commas in `s`. */
  function Commas(s: string): nat
    decreases |s|
  {
    if s == [] then 0 else (if s[0] == ',' then 1 else 0) + Commas(s[1..])
  }

  /** `s.split(',')`: every comma separates two pieces, so "" gives [""]. */
  function Split(s: string): (pieces: seq<string>)
    ensures |pieces| == Commas(s) + 1
    ensures forall k :: 0 <= k < |pieces| ==> ',' !in pieces[k]
    decreases |s|
  {
    if s == [] then [[]]
    else
      var rest := Split(s[1..]);
      if s[0] == ',' then [[]] + rest
      else [[s[0]] + rest[0]] + rest[1..]
  }

  /** `','.join(pieces)`, the inverse of `Split`. */
  function Join(pieces: seq<string>): string
    requires |pieces| >= 1
    decreases |pieces|
  {
    if |pieces| == 1 then pieces[0] else pieces[0] + [','] + Join(pieces[1..])
  }

  /** Splitting and joining again gives back the original string. */
  lemma {:induction false} JoinSplit(s: string)
    ensures Join(Split(s)) == s
    decreases |s|
  {
    if s != [] {
      JoinSplit(s[1..]);
      var rest := Split(s[1..]);
      if s[0] == ',' {
        assert Split(s)[1..] == rest;
      } else if |rest| > 1 {
        assert Split(s)[1..] == rest[1..];
      }
    }
  }

  /** A piece without a comma splits into itself. */
  lemma {:induction false} SplitCommaFree(a: string)
    requires ',' !in a
    ensures Split(a) == [a]
    decreases |a|
  {
    if a != [] {
      SplitCommaFree(a[1..]);
      assert [a[0]] + a[1..] == a;
    }
  }

  /** A comma-free piece followed by a comma splits off as the first piece. */
  lemma {:induction false} SplitAtComma(a: string, b: string)
    requires ',' !in a
    ensures Split(a + [','] + b) == [a] + Split(b)
    decreases |a|
  {
    var s := a + [','] + b;
    if a == [] {
      assert s == [','] + b && s[1..] == b;
    } else {
      assert s[0] == a[0] != ',';
      assert s[1..] == a[1..] + [','] + b;
      SplitAtComma(a[1..], b);
      var rest := Split(s[1..]);
      assert rest[0] == a[1..];
      assert [a[0]] + a[1..] == a;
    }
  }

  /** Joining comma-free pieces and splitting again gives back the pieces. */
  lemma {:induction false} SplitJoin(pieces: seq<string>)
    requires |pieces| >= 1
    requires forall k :: 0 <= k < |pieces| ==> ',' !in pieces[k]
    ensures Split(Join(pieces)) == pieces
    decreases |pieces|
  {
    if |pieces| == 1 {
      SplitCommaFree(pieces[0]);
    } else {
      SplitJoin(pieces[1..]);
      SplitAtComma(pieces[0], Join(pieces[1..]));
      assert [pieces[0]] + pieces[1..] == pieces;
    }
  }

  /** ASCII lower-casing, the case folding `icontains` is taken to perform. */
  function LowerChar(c: char): char
  {
    if 'A' <= c <= 'Z' then (c as int + 32) as char else c
  }

  function Lower(s: string): string
  {
    seq(|s|, i requires 0 <= i < |s| => LowerChar(s[i]))
  }

  /** `needle in text`: `needle` occurs as a contiguous substring of `text`. */
  predicate Contains(text: string, needle: string)
    decreases |text|
  {
    needle <= text || (text != [] && Contains(text[1..], needle))
  }

  /** `needle` occurs in `text` starting at position `i`. */
  predicate OccursAt(text: string, needle: string, i: int)
  {
    0 <= i <= |text| - |needle| && text[i..i + |needle|] == needle
  }

  /** Contains holds exactly when the needle occurs at some position. */
  lemma {:induction false} ContainsAt(text: string, needle: string)
    ensures Contains(text, needle) <==> exists i :: OccursAt(text, needle, i)
    decreases |text|
  {
    if text != [] {
      ContainsAt(text[1..], needle);
      if needle <= text {
        assert OccursAt(text, needle, 0);
      } else if Contains(text[1..], needle) {
        var i :| OccursAt(text[1..], needle, i);
        forall k | 0 <= k < |needle|
          ensures text[i + 1..i + 1 + |needle|][k] == needle[k]
        {
          assert needle[k] == text[1..][i + k];
        }
        assert OccursAt(text, needle, i + 1);
      }
      if exists i :: OccursAt(text, needle, i) {
        var i :| OccursAt(text, needle, i);
        if i > 0 {
          assert text[1..][i - 1..i - 1 + |needle|] == text[i..i + |needle|];
          assert OccursAt(text[1..], needle, i - 1);
        } else {
          assert needle <= text;
        }
      }
    } else {
      if needle == [] {
        assert OccursAt(text, needle, 0);
      }
    }
  }

  /** The ORM's `icontains` lookup, with ASCII case folding. */
  predicate IContains(text: string, needle: string)
  {
    Contains(Lower(text), Lower(needle))
  }

  lemma LowerIdempotent(s: string)
    ensures Lower(Lower(s)) == Lower(s)
  {
  }

  /**
   * `icontains` finds the needle at some position once both sides are
   * lower-cased, so the case of either side does not matter, and an exact
   * occurrence is always found.
   */
  lemma IContainsIgnoraCaixa(text: string, needle: string)
    ensures IContains(text, needle) <==> exists i :: OccursAt(Lower(text), Lower(needle), i)
    ensures IContains(Lower(text), needle) == IContains(text, needle)
    ensures IContains(text, Lower(needle)) == IContains(text, needle)
    ensures (exists i :: OccursAt(text, needle, i)) ==> IContains(text, needle)
  {
    LowerIdempotent(text);
    LowerIdempotent(needle);
    ContainsAt(Lower(text), Lower(needle));
    if exists i :: OccursAt(text, needle, i) {
      var i :| OccursAt(text, needle, i);
      LowerKeepsOccurrence(text, needle, i);
    }
  }

  /** An occurrence of `needle` in `text` is still there once both are lower-cased. */
  lemma LowerKeepsOccurrence(text: string, needle: string, i: int)
    requires OccursAt(text, needle, i)
    ensures OccursAt(Lower(text), Lower(needle), i)
  {
    forall k | 0 <= k < |needle|
      ensures Lower(text)[i..i + |needle|][k] == Lower(needle)[k]
    {
      assert text[i + k] == needle[k];
    }
  }

  predicate IsDigit(c: char)
  {
    '0' <= c <= '9'
  }

  predicate IsDigits(s: string)
  {
    s != [] && forall i :: 0 <= i < |s| ==> IsDigit(s[i])
  }

  function DigitChar(d: nat): (c: char)
    requires d < 10
    ensures IsDigit(c) && DigitValue(c) == d
  {
    ('0' as int + d) as char
  }

  function DigitValue(c: char): (d: nat)
    requires IsDigit(c)
    ensures d < 10
  {
    c as int - '0' as int
  }

  /** The value of a run of decimal digits, most significant first. */
  function DigitsValue(s: string): nat
    requires forall i :: 0 <= i < |s| ==> IsDigit(s[i])
    decreases |s|
  {
    if s == [] then 0 else DigitsValue(s[..|s| - 1]) * 10 + DigitValue(s[|s| - 1])
  }

  /** `str(n)` for a non-negative integer. */
  function NatToString(n: nat): (r: string)
    ensures IsDigits(r)
    ensures |r| > 1 ==> r[0] != '0'
    decreases n
  {
    if n < 10 then [DigitChar(n)] else NatToString(n / 10) + [DigitChar(n % 10)]
  }

  /** Reading back the digits `str(n)` prints gives `n`. */
  lemma {:induction false} DigitsValueOfNatToString(n: nat)
    ensures DigitsValue(NatToString(n)) == n
    decreases n
  {
    if n >= 10 {
      DigitsValueOfNatToString(n / 10);
      var r := NatToString(n);
      assert r[..|r| - 1] == NatToString(n / 10);
    }
  }

  /** `str` on non-negative integers is injective. */
  lemma NatToStringInjective(a: nat, b: nat)
    requires NatToString(a) == NatToString(b)
    ensures a == b
  {
    DigitsValueOfNatToString(a);
    DigitsValueOfNatToString(b);
  }

  /**
   * Python's `int(s)` on a string: surrounding whitespace is ignored, one
   * optional sign, then decimal digits. None stands for the ValueError
   * `int()` raises on anything else.
   */
  function ParseInt(s: string): (r: Option<int>)
    ensures AllSpace(s) ==> r.None?
  {
    var t := Strip(s);
    if t != [] && (t[0] == '+' || t[0] == '-') && IsDigits(t[1..]) then
      var magnitude: int := DigitsValue(t[1..]);
      Some(if t[0] == '-' then -magnitude else magnitude)
    else if IsDigits(t) then
      Some(DigitsValue(t))
    else
      None
  }

  /** `int(str(n)) == n`: an identifier printed into a URL or form reads back unchanged. */
  lemma ParseIntOfNatToString(n: nat)
    ensures ParseInt(NatToString(n)) == Some(n)
  {
    var s := NatToString(n);
    assert IsStripped(s) by {
      assert IsDigit(s[0]) && IsDigit(s[|s| - 1]);
    }
    StripFixesStripped(s);
    assert !(s[0] == '+' || s[0] == '-');
    DigitsValueOfNatToString(n);
  }
}
