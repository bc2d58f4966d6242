/** Small shared vocabulary: optional values, results with an error, and the string helpers
    that the loader's Python code gets from `str` (join, substring test, line splitting). */
module Common {

  datatype Option<T> = None | Some(value: T)

  datatype Result<T, E> = Ok(value: T) | Err(error: E)

  /** `sep.join(parts)` */
  function Join(parts: seq<string>, sep: string): string
  {
    if |parts| == 0 then ""
    else if |parts| == 1 then parts[0]
    else parts[0] + sep + Join(parts[1..], sep)
  }

  /** `pat in text` */
  predicate Contains(text: string, pat: string)
  {
    exists i :: 0 <= i <= |text| - |pat| && MatchesAt(text, pat, i)
  }

  predicate MatchesAt(text: string, pat: string, i: int)
    requires 0 <= i <= |text| - |pat|
  {
    text[i..i + |pat|] == pat
  }

  predicate IsDigit(c: char) { '0' <= c <= '9' }

  /** The decimal digits of a natural number, most significant first, with no padding. */
  function NatToString(n: nat): (s: string)
    ensures |s| >= 1
    ensures forall i :: 0 <= i < |s| ==> IsDigit(s[i])
  {
    if n < 10 then [DigitChar(n)] else NatToString(n / 10) + [DigitChar(n % 10)]
  }

  function DigitChar(n: nat): (c: char)
    requires n < 10
    ensures IsDigit(c)
  {
    ['0', '1', '2', '3', '4', '5', '6', '7', '8', '9'][n]
  }

  function DigitValue(c: char): nat
    requires IsDigit(c)
  {
    (c as int - '0' as int) as nat
  }

  lemma DigitRoundTrip(n: nat)
    requires n < 10
    ensures DigitValue(DigitChar(n)) == n
  {
  }

  /** The value of a string of decimal digits. */
  function DigitsValue(s: string): nat
    requires forall i :: 0 <= i < |s| ==> IsDigit(s[i])
  {
    if |s| == 0 then 0 else DigitsValue(s[..|s| - 1]) * 10 + DigitValue(s[|s| - 1])
  }

  /** `n` written with exactly `width` digits, zero-padded on the left (like `%04d`), for
      numbers that fit. */
  function Padded(n: nat, width: nat): (s: string)
    ensures |s| == width
    ensures forall i :: 0 <= i < |s| ==> IsDigit(s[i])
    decreases width
  {
    if width == 0 then [] else Padded(n / 10, width - 1) + [DigitChar(n % 10)]
  }

  function Pow10(k: nat): nat
  {
    if k == 0 then 1 else 10 * Pow10(k - 1)
  }

  lemma {:induction false} PaddedValue(n: nat, width: nat)
    requires n < Pow10(width)
    ensures DigitsValue(Padded(n, width)) == n
    decreases width
  {
    if width > 0 {
      PaddedValue(n / 10, width - 1);
      var s := Padded(n, width);
      assert s[..|s| - 1] == Padded(n / 10, width - 1);
      DigitRoundTrip(n % 10);
    }
  }

  /** `text.replace(old, new)` for a one-character pattern, left to right. */
  function ReplaceChar(text: string, c: char, with: string): (r: string)
    ensures c !in with ==> c !in r
  {
    if |text| == 0 then ""
    else (if text[0] == c then with else [text[0]]) + ReplaceChar(text[1..], c, with)
  }

  /** `text.split(sep)` for a one-character separator: never empty, the pieces hold no `sep`
      and joining them with `sep` gives back `text`. */
  function Split(text: string, sep: char): (r: seq<string>)
    ensures |r| >= 1
    ensures forall k :: 0 <= k < |r| ==> sep !in r[k]
    ensures Join(r, [sep]) == text
  {
    if |text| == 0 then [""]
    else
      var rest := Split(text[1..], sep);
      if text[0] == sep then [""] + rest
      else
        assert sep !in [text[0]] + rest[0];
        var r := [[text[0]] + rest[0]] + rest[1..];
        assert r[1..] == rest[1..];
        r
  }

  /** `str.isspace()` for one character: the ASCII blanks, the four separators
      `\x1c`-`\x1f`, and the Unicode spaces and line and paragraph separators. */
  predicate IsSpace(c: char)
  {
    || c == ' ' || c == '\t' || c == '\n' || c == '\r' || c == '\U{b}' || c == '\U{c}'
    || ('\U{1c}' <= c <= '\U{1f}') || c == '\U{85}' || c == '\U{a0}' || c == '\U{1680}'
    || ('\U{2000}' <= c <= '\U{200a}') || c == '\U{2028}' || c == '\U{2029}'
    || c == '\U{202f}' || c == '\U{205f}' || c == '\U{3000}'
  }

  /** `text.strip()`: the slice of `text` left after its leading and trailing whitespace, with
      only whitespace outside it. */
  function Strip(text: string): (r: string)
    ensures |r| > 0 ==> !IsSpace(r[0]) && !IsSpace(r[|r| - 1])
    ensures var lo := |text| - |StripLeft(text)|;
      && lo + |r| <= |text| && r == text[lo..lo + |r|]
      && (forall i :: 0 <= i < lo ==> IsSpace(text[i]))
      && (forall i :: lo + |r| <= i < |text| ==> IsSpace(text[i]))
  {
    StripRight(StripLeft(text))
  }

  /** `text.lstrip()`: a suffix of `text`, with only whitespace before it. */
  function StripLeft(text: string): (r: string)
    ensures |r| > 0 ==> !IsSpace(r[0])
    ensures |r| <= |text| && r == text[|text| - |r|..]
    ensures forall i :: 0 <= i < |text| - |r| ==> IsSpace(text[i])
  {
    if |text| > 0 && IsSpace(text[0]) then StripLeft(text[1..]) else text
  }

  /** `text.rstrip()`: a prefix of `text`, with only whitespace after it. */
  function StripRight(text: string): (r: string)
    ensures |r| > 0 ==> !IsSpace(r[|r| - 1])
    ensures |r| <= |text| && r == text[..|r|]
    ensures forall i :: |r| <= i < |text| ==> IsSpace(text[i])
  {
    if |text| > 0 && IsSpace(text[|text| - 1]) then StripRight(text[..|text| - 1]) else text
  }

  /** `list(map(f, xs))` for an `f` that may raise: the results in order, or the fault of
      the first item that fails. */
  function MapAll<A, B, E>(f: A -> Result<B, E>, xs: seq<A>): (r: Result<seq<B>, E>)
    ensures r.Ok? ==> |r.value| == |xs|
  {
    if xs == [] then Ok([])
    else
      match MapAll(f, xs[..|xs| - 1])
      case Err(e) => Err(e)
      case Ok(init) =>
        match f(xs[|xs| - 1])
        case Err(e) => Err(e)
        case Ok(y) => Ok(init + [y])
  }

  /** The list maps exactly when every item does, and then item by item, in order. */
  lemma {:induction false} MapAllItems<A, B, E>(f: A -> Result<B, E>, xs: seq<A>)
    ensures MapAll(f, xs).Ok? <==> forall i :: 0 <= i < |xs| ==> f(xs[i]).Ok?
    ensures MapAll(f, xs).Ok? ==> forall i :: 0 <= i < |xs| ==> f(xs[i]) == Ok(MapAll(f, xs).value[i])
    decreases |xs|
  {
    if xs != [] {
      var n := |xs| - 1;
      var init := xs[..n];
      MapAllItems(f, init);
      assert forall i :: 0 <= i < n ==> init[i] == xs[i];
      var prefix := MapAll(f, init);
      if prefix.Ok? && f(xs[n]).Ok? {
        var r := prefix.value + [f(xs[n]).value];
        assert MapAll(f, xs) == Ok(r);
        forall i | 0 <= i < |xs|
          ensures f(xs[i]) == Ok(r[i])
        {
          if i < n {
            assert r[i] == prefix.value[i];
          }
        }
      } else if prefix.Err? {
        var k :| 0 <= k < n && f(init[k]).Err?;
        assert f(xs[k]).Err?;
      }
    }
  }

  /** When every item maps to the matching one of `ys`, the list maps to `ys`. */
  lemma MapAllOk<A, B, E>(f: A -> Result<B, E>, xs: seq<A>, ys: seq<B>)
    requires |xs| == |ys| && forall i :: 0 <= i < |xs| ==> f(xs[i]) == Ok(ys[i])
    ensures MapAll(f, xs) == Ok(ys)
  {
    MapAllItems(f, xs);
    var r := MapAll(f, xs).value;
    assert forall i :: 0 <= i < |xs| ==> r[i] == ys[i];
    assert r == ys;
  }

  /** `text.replace(pat, with)` for a non-empty pattern: occurrences are replaced left to
      right, and a replaced occurrence is not searched again. */
  function ReplaceAll(text: string, pat: string, with: string): string
    requires |pat| > 0
    decreases |text|
  {
    if |text| < |pat| then text
    else if text[..|pat|] == pat then with + ReplaceAll(text[|pat|..], pat, with)
    else [text[0]] + ReplaceAll(text[1..], pat, with)
  }

  /** A text without the pattern is left as it is. */
  lemma {:induction false} ReplaceAbsent(text: string, pat: string, with: string)
    requires |pat| > 0 && !Contains(text, pat)
    ensures ReplaceAll(text, pat, with) == text
    decreases |text|
  {
    if |text| >= |pat| {
      assert !MatchesAt(text, pat, 0);
      assert !Contains(text[1..], pat) by {
        forall i | 0 <= i <= |text[1..]| - |pat|
          ensures !MatchesAt(text[1..], pat, i)
        {
          assert text[1..][i..i + |pat|] == text[i + 1..i + 1 + |pat|];
          assert !MatchesAt(text, pat, i + 1);
        }
      }
      ReplaceAbsent(text[1..], pat, with);
      assert [text[0]] + text[1..] == text;
    }
  }

  /** A text that starts with the pattern has that occurrence replaced. */
  lemma ReplaceHead(pat: string, rest: string, with: string)
    requires |pat| > 0
    ensures ReplaceAll(pat + rest, pat, with) == with + ReplaceAll(rest, pat, with)
  {
    assert (pat + rest)[..|pat|] == pat;
    assert (pat + rest)[|pat|..] == rest;
  }

  /** Splitting a text with no separator in it gives the text. */
  lemma {:induction false} SplitWithout(text: string, sep: char)
    requires sep !in text
    ensures Split(text, sep) == [text]
    decreases |text|
  {
    if |text| > 0 {
      SplitWithout(text[1..], sep);
      assert [text[0]] + text[1..] == text;
    }
  }

  /** Splitting `head + sep + rest`, where `head` holds no separator, gives `head` and then
      the pieces of `rest`. */
  lemma {:induction false} SplitAfter(head: string, rest: string, sep: char)
    requires sep !in head
    ensures Split(head + [sep] + rest, sep) == [head] + Split(rest, sep)
    decreases |head|
  {
    var text := head + [sep] + rest;
    if |head| == 0 {
      assert text[1..] == rest;
    } else {
      assert text[1..] == head[1..] + [sep] + rest;
      SplitAfter(head[1..], rest, sep);
      assert [head[0]] + head[1..] == head;
    }
  }

  /** Joining pieces that hold no separator and splitting again gives the pieces back. */
  lemma {:induction false} JoinSplit(parts: seq<string>, sep: char)
    requires |parts| >= 1
    requires forall k :: 0 <= k < |parts| ==> sep !in parts[k]
    ensures Split(Join(parts, [sep]), sep) == parts
    decreases |parts|
  {
    if |parts| == 1 {
      SplitWithout(parts[0], sep);
    } else {
      JoinSplit(parts[1..], sep);
      SplitAfter(parts[0], Join(parts[1..], [sep]), sep);
      assert [parts[0]] + parts[1..] == parts;
    }
  }

  /** A join whose last piece is not empty ends with that piece's last character. */
  lemma {:induction false} JoinLast(parts: seq<string>, sep: string)
    requires |parts| >= 1 && |parts[|parts| - 1]| > 0
    ensures |Join(parts, sep)| > 0
    ensures Join(parts, sep)[|Join(parts, sep)| - 1] == parts[|parts| - 1][|parts[|parts| - 1]| - 1]
    decreases |parts|
  {
    if |parts| > 1 {
      JoinLast(parts[1..], sep);
    }
  }

  /** A non-empty sequence is its front and its last element. */
  lemma FrontLast<T>(s: seq<T>)
    requires s != []
    ensures s[..|s| - 1] + [s[|s| - 1]] == s && s[..|s|] == s
  {
  }

  // ----- ordering of texts -----

  /** Python's `<=` on strings: code point by code point, a prefix first. */
  predicate TextLe(a: string, b: string)
  {
    a == [] || (b != [] && (a[0] < b[0] || (a[0] == b[0] && TextLe(a[1..], b[1..]))))
  }

  lemma {:induction false} TextLeReflexive(a: string)
    ensures TextLe(a, a)
  {
    if a != [] {
      TextLeReflexive(a[1..]);
    }
  }

  lemma {:induction false} TextLeTotal(a: string, b: string)
    ensures TextLe(a, b) || TextLe(b, a)
  {
    if a != [] && b != [] && a[0] == b[0] {
      TextLeTotal(a[1..], b[1..]);
    }
  }

  lemma {:induction false} TextLeTransitive(a: string, b: string, c: string)
    requires TextLe(a, b) && TextLe(b, c)
    ensures TextLe(a, c)
  {
    if a != [] && b != [] && c != [] && a[0] == b[0] && b[0] == c[0] {
      TextLeTransitive(a[1..], b[1..], c[1..]);
    }
  }
}
