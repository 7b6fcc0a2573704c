/** The verification-code extractor at the heart of `_get_latest_mail_code`:
    two regular-expression searches over the mail text, the second consulted
    only when the first finds nothing.

    Each regular expression appears twice: once as the pattern the regex engine
    tries at a start position (its atoms in order: lookbehind, `\b`, `\d`,
    `\s`, repetition), and once as a plain description of the text around the
    code. A search function scans start positions from the left, as
    `re.search` does, and its contract says it returns the leftmost position
    the description admits. */
module CodePattern {
  import opened Wrappers

  // ---------------------------------------------------------------------
  // Character classes. Python's `\d`, `\w` and `\s` restricted to ASCII,
  // where they agree with Python's Unicode behaviour for `str` patterns.
  // ---------------------------------------------------------------------

  /** `\d` on ASCII. */
  predicate IsDigit(c: char)
  {
    '0' <= c <= '9'
  }

  /** `[a-zA-Z]`, the letters of the lookbehind's character set. */
  predicate IsAsciiLetter(c: char)
  {
    'a' <= c <= 'z' || 'A' <= c <= 'Z'
  }

  /** `\w` on ASCII: letters, digits and the underscore. */
  predicate IsWordChar(c: char)
  {
    IsAsciiLetter(c) || IsDigit(c) || c == '_'
  }

  /** `\s` on ASCII: tab, line feed, vertical tab, form feed, carriage return,
      the four information separators (0x1C-0x1F) and the space. */
  predicate IsSpace(c: char)
  {
    9 <= c as int <= 13 || 28 <= c as int <= 32
  }

  /** Length of the code both patterns look for. */
  const CodeLength := 6

  /** Width of a spaced window: six digits and the five whitespace characters
      between them. */
  const SpacedWidth := 2 * CodeLength - 1

  /** Six characters, all digits: the shape of every code the extractor returns. */
  predicate IsSixDigits(s: string)
  {
    |s| == CodeLength && forall k :: 0 <= k < CodeLength ==> IsDigit(s[k])
  }

  // ---------------------------------------------------------------------
  // The contiguous pattern  (?<![a-zA-Z@.])\b\d{6}\b
  // ---------------------------------------------------------------------

  /** The lookbehind `(?<![a-zA-Z@.])` at position `i`. */
  predicate NotAfterLetterAtOrDot(t: string, i: nat)
    requires i <= |t|
  {
    i == 0 || !(IsAsciiLetter(t[i - 1]) || t[i - 1] == '@' || t[i - 1] == '.')
  }

  /** The word boundary `\b` at position `i`: exactly one of the characters on
      either side is a word character (a missing side counts as non-word). */
  predicate WordBoundary(t: string, i: nat)
    requires i <= |t|
  {
    (i > 0 && IsWordChar(t[i - 1])) != (i < |t| && IsWordChar(t[i]))
  }

  /** `\d{n}` at position `i`. */
  predicate DigitsAt(t: string, i: nat, n: nat)
  {
    i + n <= |t| && forall k :: i <= k < i + n ==> IsDigit(t[k])
  }

  /** The regex engine's attempt to match the contiguous pattern at `i`. */
  predicate ContiguousPatternAt(t: string, i: nat)
    requires i <= |t|
  {
    NotAfterLetterAtOrDot(t, i) && WordBoundary(t, i) && DigitsAt(t, i, CodeLength)
    && WordBoundary(t, i + CodeLength)
  }

  /** A contiguous code at `i`, described by the text around it: six digits
      `t[i..i+6]`; before them the start of the text or a character that is not
      a word character, `@` or `.`; after them the end of the text or a
      non-word character. */
  ghost predicate ContiguousCodeAt(t: string, i: int)
  {
    0 <= i && i + CodeLength <= |t| && IsSixDigits(t[i..i + CodeLength])
    && (i == 0 || (!IsWordChar(t[i - 1]) && t[i - 1] != '@' && t[i - 1] != '.'))
    && (i + CodeLength == |t| || !IsWordChar(t[i + CodeLength]))
  }

  /** The pattern's match at `i` is exactly the described code at `i`. */
  lemma ContiguousPatternIsCode(t: string, i: nat)
    requires i <= |t|
    ensures ContiguousPatternAt(t, i) <==> ContiguousCodeAt(t, i)
  {
    if ContiguousCodeAt(t, i) {
      assert DigitsAt(t, i, CodeLength) by {
        forall k | i <= k < i + CodeLength ensures IsDigit(t[k]) {
          assert t[k] == t[i..i + CodeLength][k - i];
        }
      }
    }
    if ContiguousPatternAt(t, i) {
      var w := t[i..i + CodeLength];
      assert IsSixDigits(w) by {
        forall k | 0 <= k < CodeLength ensures IsDigit(w[k]) {
          assert w[k] == t[i + k];
        }
      }
    }
  }

  /** `re.search` for the contiguous pattern, from start position `from`:
      the leftmost position at or after `from` where a contiguous code sits. */
  function FindContiguous(t: string, from: nat): (r: Option<nat>)
    requires from <= |t|
    ensures r.Some? ==> from <= r.value && ContiguousCodeAt(t, r.value)
    ensures forall k :: from <= k && (r.None? || k < r.value) ==> !ContiguousCodeAt(t, k)
    decreases |t| - from
  {
    ContiguousPatternIsCode(t, from);
    if ContiguousPatternAt(t, from) then Some(from)
    else if from == |t| then None
    else FindContiguous(t, from + 1)
  }

  // ---------------------------------------------------------------------
  // The spaced pattern  (\d\s){5}\d
  // ---------------------------------------------------------------------

  /** `(\d\s){n}` at position `j`. */
  predicate GroupsAt(t: string, j: nat, n: nat)
    decreases n
  {
    n == 0 || (j + 2 <= |t| && IsDigit(t[j]) && IsSpace(t[j + 1]) && GroupsAt(t, j + 2, n - 1))
  }

  /** The regex engine's attempt to match the spaced pattern at `j`. */
  predicate SpacedPatternAt(t: string, j: nat)
  {
    GroupsAt(t, j, CodeLength - 1) && j + SpacedWidth <= |t| && IsDigit(t[j + SpacedWidth - 1])
  }

  /** An 11-character window at `j` holding a digit at every even offset and a
      whitespace character at every odd offset. */
  ghost predicate SpacedCodeAt(t: string, j: int)
  {
    AlternatesAt(t, j, SpacedWidth)
  }

  /** The `len` characters from `j` alternate digit, whitespace, digit, ... */
  ghost predicate AlternatesAt(t: string, j: int, len: nat)
  {
    0 <= j && j + len <= |t|
    && forall k :: j <= k < j + len ==> if (k - j) % 2 == 0 then IsDigit(t[k]) else IsSpace(t[k])
  }

  /** `(\d\s){n}` at `j` holds exactly when the `2n` characters from `j`
      alternate digit, whitespace. */
  lemma {:induction false} GroupsAtAlternate(t: string, j: nat, n: nat)
    requires j <= |t|
    ensures GroupsAt(t, j, n) <==> AlternatesAt(t, j, 2 * n)
    decreases n
  {
    if n > 0 && j + 2 <= |t| {
      GroupsAtAlternate(t, j + 2, n - 1);
      if GroupsAt(t, j, n) {
        forall k | j <= k < j + 2 * n
          ensures if (k - j) % 2 == 0 then IsDigit(t[k]) else IsSpace(t[k])
        {
          if k >= j + 2 {
            assert (k - (j + 2)) % 2 == (k - j) % 2;
          }
        }
      }
      if AlternatesAt(t, j, 2 * n) {
        assert IsDigit(t[j]) by { assert (j - j) % 2 == 0; }
        assert IsSpace(t[j + 1]) by { assert (j + 1 - j) % 2 == 1; }
        forall k | j + 2 <= k < j + 2 + 2 * (n - 1)
          ensures if (k - (j + 2)) % 2 == 0 then IsDigit(t[k]) else IsSpace(t[k])
        {
          assert (k - (j + 2)) % 2 == (k - j) % 2;
        }
        assert AlternatesAt(t, j + 2, 2 * (n - 1));
      }
    }
  }

  /** The pattern's match at `j` is exactly the described window at `j`. */
  lemma SpacedPatternIsCode(t: string, j: nat)
    requires j <= |t|
    ensures SpacedPatternAt(t, j) <==> SpacedCodeAt(t, j)
  {
    GroupsAtAlternate(t, j, CodeLength - 1);
  }

  /** `re.search` for the spaced pattern, from start position `from`: the
      leftmost position at or after `from` where a spaced window sits. */
  function FindSpaced(t: string, from: nat): (r: Option<nat>)
    requires from <= |t|
    ensures r.Some? ==> from <= r.value && SpacedCodeAt(t, r.value)
    ensures forall k :: from <= k && (r.None? || k < r.value) ==> !SpacedCodeAt(t, k)
    decreases |t| - from
  {
    SpacedPatternIsCode(t, from);
    if SpacedPatternAt(t, from) then Some(from)
    else if from == |t| then None
    else FindSpaced(t, from + 1)
  }

  /** `re.sub(r'\s', '', s)`: `s` with every whitespace character removed. */
  function RemoveSpaces(s: string): (r: string)
    ensures forall k :: 0 <= k < |r| ==> !IsSpace(r[k])
    ensures |r| <= |s|
    ensures s == [] ==> r == []
    ensures |s| == 1 ==> r == if IsSpace(s[0]) then [] else s
  {
    if s == [] then []
    else if IsSpace(s[0]) then RemoveSpaces(s[1..])
    else [s[0]] + RemoveSpaces(s[1..])
  }

  /** Whitespace removal works piece by piece: with the single-character
      cases of its contract, this fixes the result for every string — every
      other character is kept, in order. */
  lemma {:induction false} RemoveSpacesConcat(a: string, b: string)
    ensures RemoveSpaces(a + b) == RemoveSpaces(a) + RemoveSpaces(b)
    decreases |a|
  {
    if a != [] {
      assert (a + b)[0] == a[0];
      assert (a + b)[1..] == a[1..] + b;
      RemoveSpacesConcat(a[1..], b);
    } else {
      assert a + b == b;
    }
  }

  /** The characters of a spaced window at its even offsets. */
  ghost function SpacedDigits(t: string, j: int): string
    requires SpacedCodeAt(t, j)
  {
    [t[j], t[j + 2], t[j + 4], t[j + 6], t[j + 8], t[j + 10]]
  }

  /** Removing the whitespace from a string that alternates digit, whitespace,
      ..., digit (`2n + 1` characters) keeps exactly the characters at its even
      offsets. */
  lemma {:induction false} RemoveSpacesOfAlternating(s: string, n: nat)
    requires |s| == 2 * n + 1
    requires forall k :: 0 <= k < |s| ==> if k % 2 == 0 then IsDigit(s[k]) else IsSpace(s[k])
    ensures |RemoveSpaces(s)| == n + 1
    ensures forall k :: 0 <= k <= n ==> RemoveSpaces(s)[k] == s[2 * k]
    decreases n
  {
    assert !IsSpace(s[0]);
    if n == 0 {
      assert s[1..] == [];
    } else {
      var rest := s[2..];
      forall k | 0 <= k < |rest|
        ensures if k % 2 == 0 then IsDigit(rest[k]) else IsSpace(rest[k])
      {
        assert rest[k] == s[k + 2];
        assert (k + 2) % 2 == k % 2;
      }
      RemoveSpacesOfAlternating(rest, n - 1);
      assert IsSpace(s[1]);
      assert s[1..][1..] == rest;
      assert RemoveSpaces(s[1..]) == RemoveSpaces(rest);
      assert RemoveSpaces(s) == [s[0]] + RemoveSpaces(rest);
      forall k | 1 <= k <= n ensures RemoveSpaces(s)[k] == s[2 * k] {
        assert RemoveSpaces(s)[k] == RemoveSpaces(rest)[k - 1] == rest[2 * (k - 1)];
      }
    }
  }

  /** The spaced rule's result: the window's six digits, whitespace removed. */
  lemma SpacedWindowWithoutSpaces(t: string, j: nat)
    requires SpacedCodeAt(t, j)
    ensures RemoveSpaces(t[j..j + SpacedWidth]) == SpacedDigits(t, j)
    ensures IsSixDigits(SpacedDigits(t, j))
  {
    var w := t[j..j + SpacedWidth];
    forall k | 0 <= k < |w| ensures if k % 2 == 0 then IsDigit(w[k]) else IsSpace(w[k]) {
      assert w[k] == t[j + k];
      assert (j + k - j) % 2 == k % 2;
    }
    RemoveSpacesOfAlternating(w, CodeLength - 1);
    assert IsDigit(t[j + SpacedWidth - 1]) by { assert (j + SpacedWidth - 1 - j) % 2 == 0; }
  }

  // ---------------------------------------------------------------------
  // The extractor
  // ---------------------------------------------------------------------

  /** No contiguous code anywhere in `t`. */
  ghost predicate NoContiguousCode(t: string)
  {
    forall i :: !ContiguousCodeAt(t, i)
  }

  /** No spaced window anywhere in `t`. */
  ghost predicate NoSpacedCode(t: string)
  {
    forall j :: !SpacedCodeAt(t, j)
  }

  /** The code the handler reads from the mail text: the leftmost contiguous
      code if there is one; otherwise the leftmost spaced window with its
      whitespace removed; otherwise nothing. Whichever rule produced it, a
      code is six digits. */
  function ExtractCode(t: string): (r: Option<string>)
    ensures r.Some? ==> IsSixDigits(r.value)
    ensures r.None? <==> NoContiguousCode(t) && NoSpacedCode(t)
  {
    match FindContiguous(t, 0)
    case Some(i) => Some(t[i..i + CodeLength])
    case None =>
      match FindSpaced(t, 0)
      case Some(j) => SpacedWindowWithoutSpaces(t, j); Some(RemoveSpaces(t[j..j + SpacedWidth]))
      case None => None
  }

  /** Primary rule: when the leftmost contiguous code starts at `i`, the result
      is `t[i..i+6]`, whatever spaced windows the text holds. */
  lemma ExtractCodeContiguous(t: string, i: int)
    requires ContiguousCodeAt(t, i)
    requires forall k :: 0 <= k < i ==> !ContiguousCodeAt(t, k)
    ensures ExtractCode(t) == Some(t[i..i + CodeLength])
  {
  }

  /** Fallback rule: when no contiguous code exists anywhere and the leftmost
      spaced window starts at `j`, the result is its six digits
      `t[j], t[j+2], ..., t[j+10]`. */
  lemma ExtractCodeSpaced(t: string, j: int)
    requires NoContiguousCode(t)
    requires SpacedCodeAt(t, j)
    requires forall k :: 0 <= k < j ==> !SpacedCodeAt(t, k)
    ensures ExtractCode(t) == Some(SpacedDigits(t, j))
  {
    SpacedWindowWithoutSpaces(t, j);
  }
}
