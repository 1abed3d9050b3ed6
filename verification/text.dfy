/** String operations with the meaning Python's `str` methods give them.
    Strings are sequences of Unicode code points. */
module Text {
  import opened Wrappers

  /** Python's `int()` and `float()` applied to one field. Their exact
      grammars are not part of the model, so every parser is passed in. */
  datatype NumberSyntax = NumberSyntax(parseInt: string -> Option<int>, parseFloat: string -> Option<real>)

  // ---------------------------------------------------------------------
  // Prefixes, suffixes and substrings

  /** `s.startswith(p)` */
  predicate StartsWith(s: string, p: string) {
    |p| <= |s| && s[..|p|] == p
  }

  /** `s.endswith(p)` */
  predicate EndsWith(s: string, p: string) {
    |p| <= |s| && s[|s| - |p|..] == p
  }

  /** `sub in s` */
  predicate Contains(s: string, sub: string)
    decreases |s|
  {
    StartsWith(s, sub) || (|s| > 0 && Contains(s[1..], sub))
  }

  /** `sub in s` holds exactly when `sub` occurs at some index of `s`. */
  lemma {:induction false} ContainsAt(s: string, sub: string, i: nat)
    requires i + |sub| <= |s| && s[i..i + |sub|] == sub
    ensures Contains(s, sub)
    decreases i
  {
    if i == 0 {
      assert s[..|sub|] == sub;
    } else {
      assert s[1..][i - 1..i - 1 + |sub|] == s[i..i + |sub|];
      ContainsAt(s[1..], sub, i - 1);
    }
  }

  /** The index of an occurrence, when there is one. */
  lemma {:induction false} ContainsWitness(s: string, sub: string) returns (i: nat)
    requires Contains(s, sub)
    ensures i + |sub| <= |s| && s[i..i + |sub|] == sub
    decreases |s|
  {
    if StartsWith(s, sub) {
      i := 0;
    } else {
      var j := ContainsWitness(s[1..], sub);
      assert s[1..][j..j + |sub|] == s[j + 1..j + 1 + |sub|];
      i := j + 1;
    }
  }

  /** Every character of a contained string occurs in the text. */
  lemma ContainsHasChar(s: string, sub: string, k: nat)
    requires Contains(s, sub) && k < |sub|
    ensures sub[k] in s
  {
    var i := ContainsWitness(s, sub);
    assert s[i + k] == s[i..i + |sub|][k];
  }

  /** A string with no occurrence of the character `c` contains no string
      that starts with `c`. */
  lemma {:induction false} NoCharNoContains(s: string, sub: string)
    requires |sub| > 0 && sub[0] !in s
    ensures !Contains(s, sub)
    decreases |s|
  {
    if |s| > 0 {
      NoCharNoContains(s[1..], sub);
    }
  }

  /** A string shorter than `sub` does not contain it. */
  lemma {:induction false} ShortNoContains(s: string, sub: string)
    requires |s| < |sub|
    ensures !Contains(s, sub)
    decreases |s|
  {
    if |s| > 0 {
      ShortNoContains(s[1..], sub);
    }
  }

  // ---------------------------------------------------------------------
  // Splitting and joining on one separator character

  /** `sep.join(parts)` */
  function Join(parts: seq<string>, sep: char): string
    decreases |parts|
  {
    if |parts| == 0 then ""
    else if |parts| == 1 then parts[0]
    else parts[0] + [sep] + Join(parts[1..], sep)
  }

  /** `s.split(sep)` for a one-character separator: never empty, no part
      holds the separator, and joining the parts back gives `s`. */
  function Split(s: string, sep: char): (parts: seq<string>)
    ensures |parts| >= 1
    ensures forall k :: 0 <= k < |parts| ==> sep !in parts[k]
    ensures Join(parts, sep) == s
    decreases |s|
  {
    if |s| == 0 then [""]
    else if s[0] == sep then
      var rest := Split(s[1..], sep);
      assert Join([""] + rest, sep) == [sep] + Join(rest, sep) by {
        assert ([""] + rest)[1..] == rest;
      }
      [""] + rest
    else
      var rest := Split(s[1..], sep);
      JoinConsChar(s[0], rest, sep);
      [[s[0]] + rest[0]] + rest[1..]
  }

  lemma JoinConsChar(c: char, parts: seq<string>, sep: char)
    requires |parts| >= 1
    ensures Join([[c] + parts[0]] + parts[1..], sep) == [c] + Join(parts, sep)
  {
    var q := [[c] + parts[0]] + parts[1..];
    if |parts| > 1 {
      assert q[1..] == parts[1..];
    }
  }

  /** The joined text ends with the last part. */
  lemma {:induction false} JoinLast(parts: seq<string>, sep: char)
    requires |parts| >= 1
    ensures EndsWith(Join(parts, sep), parts[|parts| - 1])
    decreases |parts|
  {
    if |parts| > 1 {
      JoinLast(parts[1..], sep);
      assert parts[1..][|parts[1..]| - 1] == parts[|parts| - 1];
    }
  }

  /** A character that is not the separator and occurs in no part does not
      occur in the joined text. */
  lemma {:induction false} JoinAvoids(parts: seq<string>, sep: char, c: char)
    requires c != sep && forall k :: 0 <= k < |parts| ==> c !in parts[k]
    ensures c !in Join(parts, sep)
    decreases |parts|
  {
    if |parts| > 1 {
      assert forall k :: 0 <= k < |parts[1..]| ==> parts[1..][k] == parts[k + 1];
      JoinAvoids(parts[1..], sep, c);
    }
  }

  /** Splitting a string whose first part has no separator gives that part
      glued to the first part of the rest. */
  lemma {:induction false} SplitPrefix(p: string, x: string, sep: char)
    requires sep !in p
    ensures Split(p + x, sep) == [p + Split(x, sep)[0]] + Split(x, sep)[1..]
    decreases |p|
  {
    if |p| > 0 {
      var y := p[1..] + x;
      assert p + x == [p[0]] + y;
      SplitCons(p[0], y, sep);
      SplitPrefix(p[1..], x, sep);
      assert [p[0]] + (p[1..] + Split(x, sep)[0]) == p + Split(x, sep)[0];
    } else {
      assert p + x == x;
      assert p + Split(x, sep)[0] == Split(x, sep)[0];
      assert Split(x, sep) == [Split(x, sep)[0]] + Split(x, sep)[1..];
    }
  }

  /** A leading character other than the separator joins the first part. */
  lemma SplitCons(c: char, y: string, sep: char)
    requires c != sep
    ensures Split([c] + y, sep) == [[c] + Split(y, sep)[0]] + Split(y, sep)[1..]
  {
    assert ([c] + y)[1..] == y;
  }

  /** Splitting inverts joining when no part holds the separator. */
  lemma {:induction false} SplitJoin(parts: seq<string>, sep: char)
    requires |parts| >= 1
    requires forall k :: 0 <= k < |parts| ==> sep !in parts[k]
    ensures Split(Join(parts, sep), sep) == parts
    decreases |parts|
  {
    if |parts| == 1 {
      SplitPrefix(parts[0], "", sep);
      assert parts[0] + "" == parts[0];
      assert Split("", sep) == [""];
      assert Join(parts, sep) == parts[0];
      assert parts == [parts[0]];
    } else {
      var rest := Join(parts[1..], sep);
      SplitJoin(parts[1..], sep);
      assert parts[0] + [sep] + rest == parts[0] + ([sep] + rest);
      SplitPrefix(parts[0], [sep] + rest, sep);
      assert ([sep] + rest)[1..] == rest;
      assert Split([sep] + rest, sep) == [""] + parts[1..];
      assert Split([sep] + rest, sep)[0] == "" && Split([sep] + rest, sep)[1..] == parts[1..];
      assert parts[0] + "" == parts[0];
      assert parts == [parts[0]] + parts[1..];
    }
  }

  /** `s.split(sep)[0]` for a separator string: the text before the first
      occurrence of `sep`, or all of `s`. */
  function BeforeFirst(s: string, sep: string): (r: string)
    requires |sep| > 0
    ensures StartsWith(s, r)
    ensures !Contains(r, sep)
    ensures |r| < |s| ==> StartsWith(s[|r|..], sep)
    decreases |s|
  {
    if StartsWith(s, sep) then ""
    else if |s| == 0 then ""
    else
      var r := [s[0]] + BeforeFirst(s[1..], sep);
      assert r[1..] == BeforeFirst(s[1..], sep);
      r
  }

  /** No occurrence of `sep` starts before the end of `BeforeFirst`. */
  lemma {:induction false} BeforeFirstIsFirst(s: string, sep: string, i: nat)
    requires |sep| > 0 && i < |BeforeFirst(s, sep)|
    ensures !StartsWith(s[i..], sep)
    decreases i
  {
    if i > 0 {
      assert s[1..][i - 1..] == s[i..];
      BeforeFirstIsFirst(s[1..], sep, i - 1);
    }
  }

  /** The text before position `k` is `BeforeFirst` when no occurrence of
      `sep` starts earlier and one starts at `k` (or `k` is the end). */
  lemma {:induction false} BeforeFirstAt(s: string, sep: string, k: nat)
    requires |sep| > 0 && k <= |s|
    requires forall i :: 0 <= i < k ==> !StartsWith(s[i..], sep)
    requires k == |s| || StartsWith(s[k..], sep)
    ensures BeforeFirst(s, sep) == s[..k]
    decreases k
  {
    if k == 0 {
      assert s[0..] == s;
    } else {
      assert s[0..] == s;
      assert !StartsWith(s, sep);
      forall i | 0 <= i < k - 1
        ensures !StartsWith(s[1..][i..], sep)
      {
        assert s[1..][i..] == s[i + 1..];
      }
      assert s[1..][k - 1..] == s[k..];
      BeforeFirstAt(s[1..], sep, k - 1);
      assert s[..k] == [s[0]] + s[1..][..k - 1];
    }
  }

  /** `s.replace(pat, rep)`: non-overlapping occurrences, left to right. */
  function Replace(s: string, pat: string, rep: string): string
    requires |pat| > 0
    decreases |s|
  {
    if |s| == 0 then ""
    else if StartsWith(s, pat) then rep + Replace(s[|pat|..], pat, rep)
    else [s[0]] + Replace(s[1..], pat, rep)
  }

  /** Text before the first occurrence is copied unchanged. */
  lemma {:induction false} ReplaceSkip(s: string, pat: string, rep: string, k: nat)
    requires |pat| > 0 && k <= |s|
    requires forall i :: 0 <= i < k ==> !StartsWith(s[i..], pat)
    ensures Replace(s, pat, rep) == s[..k] + Replace(s[k..], pat, rep)
    decreases k
  {
    if k > 0 {
      assert s[0..] == s;
      assert !StartsWith(s, pat);
      forall i | 0 <= i < k - 1
        ensures !StartsWith(s[1..][i..], pat)
      {
        assert s[1..][i..] == s[i + 1..];
      }
      ReplaceSkip(s[1..], pat, rep, k - 1);
      var tail := Replace(s[k..], pat, rep);
      assert s[1..][k - 1..] == s[k..];
      assert Replace(s, pat, rep) == [s[0]] + (s[1..][..k - 1] + tail);
      assert s[..k] == [s[0]] + s[1..][..k - 1];
    } else {
      assert s[0..] == s;
    }
  }

  /** Replacing a string that never occurs changes nothing. */
  lemma {:induction false} ReplaceAbsent(s: string, pat: string, rep: string)
    requires |pat| > 0 && !Contains(s, pat)
    ensures Replace(s, pat, rep) == s
    decreases |s|
  {
    if |s| > 0 {
      ReplaceAbsent(s[1..], pat, rep);
      assert [s[0]] + s[1..] == s;
    }
  }

  /** Replacing a prefix that occurs once, at the front, drops it. */
  lemma ReplaceLeading(p: string, t: string, rep: string)
    requires |p| > 0 && !Contains(t, p)
    ensures Replace(p + t, p, rep) == rep + t
  {
    assert StartsWith(p + t, p) by { assert (p + t)[..|p|] == p; }
    assert (p + t)[|p|..] == t;
    ReplaceAbsent(t, p, rep);
  }

  // ---------------------------------------------------------------------
  // Whitespace, as `str.isspace()` defines it

  predicate IsSpace(c: char) {
    || c == ' '
    || ('\t' <= c <= '\r')
    || ('\U{1C}' <= c <= '\U{1F}')
    || c == '\U{85}' || c == '\U{A0}' || c == '\U{1680}'
    || ('\U{2000}' <= c <= '\U{200A}')
    || c == '\U{2028}' || c == '\U{2029}' || c == '\U{202F}' || c == '\U{205F}'
    || c == '\U{3000}'
  }

  predicate AllSpace(s: string) {
    forall k :: 0 <= k < |s| ==> IsSpace(s[k])
  }

  /** `s.lstrip()`: the longest suffix of `s` whose dropped prefix is all
      whitespace and which does not itself start with whitespace. */
  function LStrip(s: string): (r: string)
    ensures EndsWith(s, r)
    ensures AllSpace(s[..|s| - |r|])
    ensures |r| > 0 ==> !IsSpace(r[0])
    decreases |s|
  {
    if |s| > 0 && IsSpace(s[0]) then
      var r := LStrip(s[1..]);
      assert s[..|s| - |r|] == [s[0]] + s[1..][..|s| - 1 - |r|];
      r
    else s
  }

  /** `s.rstrip()` */
  function RStrip(s: string): (r: string)
    ensures StartsWith(s, r)
    ensures AllSpace(s[|r|..])
    ensures |r| > 0 ==> !IsSpace(r[|r| - 1])
    decreases |s|
  {
    if |s| > 0 && IsSpace(s[|s| - 1]) then
      var r := RStrip(s[..|s| - 1]);
      DropLastSuffix(s, |r|);
      r
    else s
  }

  lemma DropLastSuffix(s: string, n: nat)
    requires n < |s|
    ensures s[n..] == s[..|s| - 1][n..] + [s[|s| - 1]]
  {
  }

  /** `s.strip()` */
  function Strip(s: string): (r: string)
    ensures |r| > 0 ==> !IsSpace(r[0]) && !IsSpace(r[|r| - 1])
    ensures |r| <= |s|
    ensures exists i :: 0 <= i && i + |r| <= |s| && s[i..i + |r|] == r && AllSpace(s[..i]) && AllSpace(s[i + |r|..])
  {
    var l := LStrip(s);
    var r := RStrip(l);
    StripWindow(s, l, r);
    r
  }

  /** Stripping the front and then the back leaves a window of `s` with
      whitespace on both sides. */
  lemma StripWindow(s: string, l: string, r: string)
    requires EndsWith(s, l) && AllSpace(s[..|s| - |l|]) && (|l| > 0 ==> !IsSpace(l[0]))
    requires StartsWith(l, r) && AllSpace(l[|r|..]) && (|r| > 0 ==> !IsSpace(r[|r| - 1]))
    ensures |r| > 0 ==> !IsSpace(r[0]) && !IsSpace(r[|r| - 1])
    ensures |r| <= |s|
    ensures exists i :: 0 <= i && i + |r| <= |s| && s[i..i + |r|] == r && AllSpace(s[..i]) && AllSpace(s[i + |r|..])
  {
    assert |r| > 0 ==> r[0] == l[0];
    var i := |s| - |l|;
    assert s[i..] == l;
    assert s[i..i + |r|] == l[..|r|] == r;
    assert s[i + |r|..] == l[|r|..];
  }

  /** A string that starts and ends with a non-space character is its own
      strip. */
  lemma StripUnchanged(s: string)
    requires |s| > 0 && !IsSpace(s[0]) && !IsSpace(s[|s| - 1])
    ensures Strip(s) == s
  {
  }

  /** Number of leading non-space characters. */
  function WordLength(s: string): (n: nat)
    ensures n <= |s|
    ensures forall k :: 0 <= k < n ==> !IsSpace(s[k])
    ensures n < |s| ==> IsSpace(s[n])
    decreases |s|
  {
    if |s| == 0 || IsSpace(s[0]) then 0 else 1 + WordLength(s[1..])
  }

  /** `s.split()` with no argument: the maximal runs of non-space
      characters, in order. */
  function Words(s: string): (ws: seq<string>)
    ensures forall k :: 0 <= k < |ws| ==> |ws[k]| > 0 && !HasSpace(ws[k])
    decreases |s|
  {
    if |s| == 0 then []
    else if IsSpace(s[0]) then Words(s[1..])
    else
      var n := WordLength(s);
      [s[..n]] + Words(s[n..])
  }

  predicate HasSpace(s: string) {
    exists k :: 0 <= k < |s| && IsSpace(s[k])
  }

  /** Splitting words joined by one whitespace character gives the words
      back. */
  lemma {:induction false} WordsJoin(ws: seq<string>, sep: char)
    requires IsSpace(sep)
    requires forall k :: 0 <= k < |ws| ==> |ws[k]| > 0 && !HasSpace(ws[k])
    ensures Words(Join(ws, sep)) == ws
    decreases |ws|
  {
    if |ws| == 0 {
    } else if |ws| == 1 {
      WordAtFront(ws[0], "");
      assert ws[0] + "" == ws[0];
    } else {
      assert forall k :: 0 <= k < |ws[1..]| ==> ws[1..][k] == ws[k + 1];
      WordsJoin(ws[1..], sep);
      WordsJoinStep(ws, sep);
    }
  }

  lemma WordsJoinStep(ws: seq<string>, sep: char)
    requires IsSpace(sep)
    requires |ws| >= 2 && |ws[0]| > 0 && !HasSpace(ws[0])
    requires Words(Join(ws[1..], sep)) == ws[1..]
    ensures Words(Join(ws, sep)) == ws
  {
    var rest := Join(ws[1..], sep);
    JoinFront(ws, sep);
    WordAtFront(ws[0], [sep] + rest);
    WordsSkipSpace(sep, rest);
    assert ws == [ws[0]] + ws[1..];
  }

  lemma JoinFront(parts: seq<string>, sep: char)
    requires |parts| >= 2
    ensures Join(parts, sep) == parts[0] + ([sep] + Join(parts[1..], sep))
  {
  }

  lemma WordsSkipSpace(sep: char, t: string)
    requires IsSpace(sep)
    ensures Words([sep] + t) == Words(t)
  {
    assert ([sep] + t)[1..] == t;
  }

  lemma WordAtFront(w: string, t: string)
    requires |w| > 0 && !HasSpace(w)
    requires |t| == 0 || IsSpace(t[0])
    ensures Words(w + t) == [w] + Words(t)
  {
    var s := w + t;
    assert WordLength(s) == |w| by { WordLengthOf(w, t); }
    assert s[..|w|] == w;
    assert s[|w|..] == t;
  }

  lemma {:induction false} WordLengthOf(w: string, t: string)
    requires !HasSpace(w)
    requires |t| == 0 || IsSpace(t[0])
    ensures WordLength(w + t) == |w|
    decreases |w|
  {
    if |w| > 0 {
      assert !IsSpace(w[0]);
      assert (w + t)[1..] == w[1..] + t;
      WordLengthOf(w[1..], t);
    } else {
      assert w + t == t;
    }
  }

  // ---------------------------------------------------------------------
  // Decimal numerals

  predicate IsDigit(c: char) {
    '0' <= c <= '9'
  }

  predicate AllDigits(s: string) {
    forall k :: 0 <= k < |s| ==> IsDigit(s[k])
  }

  function DigitChar(d: nat): (c: char)
    requires d < 10
    ensures IsDigit(c) && c as int - '0' as int == d
  {
    ('0' as int + d) as char
  }

  /** The value of a string of decimal digits (leading zeros allowed). */
  function DigitsValue(s: string): nat
    requires AllDigits(s)
    decreases |s|
  {
    if |s| == 0 then 0
    else DigitsValue(s[..|s| - 1]) * 10 + (s[|s| - 1] as int - '0' as int)
  }

  /** `str(n)` for a natural number: digits only, no leading zero. */
  function NatToString(n: nat): (s: string)
    ensures |s| >= 1 && AllDigits(s)
    ensures |s| > 1 ==> s[0] != '0'
    ensures n > 0 ==> s[0] != '0'
    decreases n
  {
    if n < 10 then [DigitChar(n)] else NatToString(n / 10) + [DigitChar(n % 10)]
  }

  /** Reading back the numeral of `n` gives `n`. */
  lemma {:induction false} NatToStringRoundTrip(n: nat)
    ensures DigitsValue(NatToString(n)) == n
    decreases n
  {
    if n >= 10 {
      var s := NatToString(n);
      assert s[..|s| - 1] == NatToString(n / 10);
      NatToStringRoundTrip(n / 10);
    }
  }

  /** A larger number never has a shorter numeral. */
  lemma {:induction false} NatToStringMonotone(k: nat, m: nat)
    requires k <= m
    ensures |NatToString(k)| <= |NatToString(m)|
    decreases m
  {
    if m >= 10 && k >= 10 {
      NatToStringMonotone(k / 10, m / 10);
    }
  }

  /** `str(i)` for any integer. */
  function IntToString(i: int): (s: string)
    ensures |s| >= 1
    ensures !HasSpace(s)
  {
    var s := if i < 0 then "-" + NatToString(-i) else NatToString(i);
    s
  }

  function Zeros(n: nat): (s: string)
    ensures |s| == n && forall k :: 0 <= k < n ==> s[k] == '0'
  {
    seq(n, k => '0')
  }

  /** `s.zfill(width)` for an unsigned numeral. */
  function ZFill(s: string, width: nat): (r: string)
    ensures |r| == if |s| < width then width else |s|
    ensures EndsWith(r, s)
    ensures forall k :: 0 <= k < |r| - |s| ==> r[k] == '0'
  {
    if |s| < width then Zeros(width - |s|) + s else s
  }

  /** Leading zeros do not change the value of a numeral. */
  lemma {:induction false} LeadingZerosValue(n: nat, s: string)
    requires AllDigits(s)
    ensures AllDigits(Zeros(n) + s)
    ensures DigitsValue(Zeros(n) + s) == DigitsValue(s)
    decreases |s|
  {
    var z := Zeros(n) + s;
    if |s| == 0 {
      assert z == Zeros(n);
      ZerosValue(n);
    } else {
      assert z[..|z| - 1] == Zeros(n) + s[..|s| - 1];
      LeadingZerosValue(n, s[..|s| - 1]);
    }
  }

  lemma {:induction false} ZerosValue(n: nat)
    ensures DigitsValue(Zeros(n)) == 0
    decreases n
  {
    if n > 0 {
      assert Zeros(n)[..n - 1] == Zeros(n - 1);
      ZerosValue(n - 1);
    }
  }

  /** A zero-padded numeral reads back as the number it pads. */
  lemma ZFillRoundTrip(n: nat, width: nat)
    ensures AllDigits(ZFill(NatToString(n), width))
    ensures DigitsValue(ZFill(NatToString(n), width)) == n
  {
    var s := NatToString(n);
    NatToStringRoundTrip(n);
    if |s| < width {
      LeadingZerosValue(width - |s|, s);
    }
  }
}
