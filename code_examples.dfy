/** Worked inputs for the extractor: the spaced format the source's own
    comment names, a contiguous code winning over an earlier spaced one, and
    digit runs the lookbehind or the word boundaries reject. */
module CodeExamples {
  import opened Wrappers
  import opened CodePattern

  /** A window holding a non-digit is not a contiguous code. */
  lemma NonDigitBlocksCode(t: string, i: int, m: int)
    requires 0 <= i <= m < i + CodeLength && m < |t| && !IsDigit(t[m])
    ensures !ContiguousCodeAt(t, i)
  {
    if i + CodeLength <= |t| {
      assert t[i..i + CodeLength][m - i] == t[m];
    }
  }

  /** "9 7 7 1 8 2" has no contiguous code; the spaced rule yields "977182". */
  lemma SpacedExample()
    ensures ExtractCode("9 7 7 1 8 2") == Some("977182")
  {
    var t := "9 7 7 1 8 2";
    forall i | 0 <= i < |t| - 1 ensures !ContiguousCodeAt(t, i) {
      if IsDigit(t[i]) { NonDigitBlocksCode(t, i, i + 1); } else { NonDigitBlocksCode(t, i, i); }
    }
    assert SpacedCodeAt(t, 0);
    ExtractCodeSpaced(t, 0);
  }

  /** A contiguous code wins even when a spaced one comes first. */
  lemma ContiguousBeatsEarlierSpaced()
    ensures ExtractCode("1 2 3 4 5 6 or 654321") == Some("654321")
  {
    var t := "1 2 3 4 5 6 or 654321";
    forall k | 0 <= k < 15 ensures !ContiguousCodeAt(t, k) {
      if k % 2 == 1 || k >= 12 { NonDigitBlocksCode(t, k, k); } else { NonDigitBlocksCode(t, k, k + 1); }
    }
    assert t[15..21] == "654321";
    assert ContiguousCodeAt(t, 15);
    ExtractCodeContiguous(t, 15);
  }

  /** Digits right after `@` or `.`, or inside a longer digit run, are not a
      code. */
  lemma RejectedRuns()
    ensures ExtractCode("id@123456") == None
    ensures ExtractCode("v.123456") == None
    ensures ExtractCode("1234567") == None
  {
  }
}
