/**
 The diff walk on printed diffs (scripts/ci-mutants-summary.py,
 `count_added_lines`). An edit script is printed in the unified format of
 POSIX.1-2008 `diff` ("Diff -u or -U Output Format") under git's file headers;
 the walk then meets each added line at its true number in the new file.
 */
module DiffPrinted {
  import opened Wrappers
  import opened DiffWalk

  datatype Edit = Keep(text: string) | Delete(text: string) | Add(text: string)

  /** A stretch of unchanged lines the diff leaves out, or one it prints. */
  datatype Piece = Gap(lines: seq<string>) | Hunk(hint: string, edits: seq<Edit>)

  /** One file's edit script; a deleted file has no path. */
  datatype Patch = Patch(names: string, extra: seq<string>, path: Option<string>, pieces: seq<Piece>)

  // ---- numbers ---------------------------------------------------------------------------

  function DigitOf(n: nat): char
    requires n < 10
  {
    '0' + n as char
  }

  function Digits(n: nat): (s: string)
    ensures s != [] && forall i | 0 <= i < |s| :: IsDigit(s[i])
  {
    if n < 10 then [DigitOf(n)] else Digits(n / 10) + [DigitOf(n % 10)]
  }

  lemma {:induction false} NumberOfDigits(n: nat)
    ensures Number(Digits(n)) == n
    decreases n
  {
    if n < 10 {
      assert [DigitOf(n)][..0] == [];
    } else {
      NumberOfDigits(n / 10);
      assert (Digits(n / 10) + [DigitOf(n % 10)])[..|Digits(n / 10)|] == Digits(n / 10);
    }
  }

  /** `start,count` for `n` lines after the first `before`. */
  function RangeText(before: nat, n: nat): string {
    if n == 1 then Digits(before + 1) else Digits(RangeStart(before, n)) + [','] + Digits(n)
  }

  function RangeStart(before: nat, n: nat): nat {
    if n == 0 then before else before + 1
  }

  lemma {:induction false} DigitsEndAt(s: string, i: nat, j: nat)
    requires i <= j <= |s| && (forall k | i <= k < j :: IsDigit(s[k])) && (j < |s| ==> !IsDigit(s[j]))
    ensures DigitsEnd(s, i) == j
    decreases j - i
  {
    if i < j {
      DigitsEndAt(s, i + 1, j);
    }
  }

  lemma PlainRange(pre: string, digits: string, post: string)
    requires digits != [] && forall i | 0 <= i < |digits| :: IsDigit(digits[i])
    requires post != [] && post[0] == ' '
    ensures RangeAt(pre + digits + post, |pre|) == Some((digits, |pre + digits|))
  {
    var s := pre + digits + post;
    forall k | |pre| <= k < |pre + digits| ensures IsDigit(s[k]) {
      assert s[k] == digits[k - |pre|];
    }
    assert s[|pre + digits|] == ' ';
    DigitsEndAt(s, |pre|, |pre + digits|);
    assert s[|pre|..|pre + digits|] == digits;
  }

  lemma CountedRange(pre: string, digits: string, count: string, post: string)
    requires digits != [] && forall i | 0 <= i < |digits| :: IsDigit(digits[i])
    requires count != [] && forall i | 0 <= i < |count| :: IsDigit(count[i])
    requires post != [] && post[0] == ' '
    ensures RangeAt(pre + (digits + [','] + count) + post, |pre|) == Some((digits, |pre + (digits + [','] + count)|))
  {
    var s, j, k := pre + (digits + [','] + count) + post, |pre| + |digits|, |pre| + |digits| + 1 + |count|;
    forall i | |pre| <= i < j ensures IsDigit(s[i]) {
      assert s[i] == digits[i - |pre|];
    }
    assert s[j] == ',';
    forall i | j + 1 <= i < k ensures IsDigit(s[i]) {
      assert s[i] == count[i - j - 1];
    }
    assert s[k] == ' ';
    DigitsEndAt(s, |pre|, j);
    DigitsEndAt(s, j + 1, k);
    assert s[|pre|..j] == digits;
  }

  lemma RangeReads(pre: string, before: nat, n: nat, post: string)
    requires post != [] && post[0] == ' '
    ensures RangeAt(pre + RangeText(before, n) + post, |pre|) ==
            Some((Digits(RangeStart(before, n)), |pre + RangeText(before, n)|))
  {
    if n == 1 {
      PlainRange(pre, Digits(before + 1), post);
    } else {
      CountedRange(pre, Digits(RangeStart(before, n)), Digits(n), post);
    }
  }

  function HunkText(oldBefore: nat, olds: nat, newBefore: nat, news: nat, hint: string): string {
    ['@', '@', ' ', '-'] + RangeText(oldBefore, olds) + [' ', '+'] + RangeText(newBefore, news) + [' ', '@', '@'] + hint
  }

  lemma Regroup(open: string, a: string, mid: string, b: string, end: string)
    ensures open + a + mid + b + end == open + a + (mid + b + end)
    ensures open + a + mid + b + end == (open + a + mid) + b + end
  {
  }

  lemma HeaderOf(line: string, j: nat, k: nat, old_: string, new_: string, hint: string)
    requires Two(line, 0, '@', '@') && Two(line, 2, ' ', '-')
    requires 4 < j && RangeAt(line, 4) == Some((old_, j)) && Two(line, j, ' ', '+')
    requires RangeAt(line, j + 2) == Some((new_, k))
    requires Two(line, k, ' ', '@') && k + 2 < |line| && line[k + 2] == '@' && line[k + 3..] == hint
    requires forall i | 0 <= i < |new_| :: IsDigit(new_[i])
    ensures HunkHeader(line) == Some((Number(new_), hint))
  {
  }

  lemma Opens(line: string, rest: string)
    requires line == ['@', '@', ' ', '-'] + rest
    ensures Two(line, 0, '@', '@') && Two(line, 2, ' ', '-')
  {
  }

  lemma PartsRead(line: string, front: string, mid: string, b: string, end: string, old_: string, new_: string, hint: string)
    requires line == (front + mid) + b + end && |front| > 4
    requires Two(line, 0, '@', '@') && Two(line, 2, ' ', '-')
    requires mid == [' ', '+'] && end == [' ', '@', '@'] + hint
    requires RangeAt(line, 4) == Some((old_, |front|))
    requires RangeAt(line, |front| + 2) == Some((new_, |front + mid + b|))
    requires forall i | 0 <= i < |new_| :: IsDigit(new_[i])
    ensures HunkHeader(line) == Some((Number(new_), hint))
  {
    HunkPieces(front, mid, b, end, hint, line);
    HeaderOf(line, |front|, |front + mid + b|, old_, new_, hint);
  }

  lemma RangesRead(open: string, a: string, mid: string, b: string, end: string,
                   oldBefore: nat, olds: nat, newBefore: nat, news: nat)
    requires open == ['@', '@', ' ', '-'] && mid == [' ', '+'] && end != [] && end[0] == ' '
    requires a == RangeText(oldBefore, olds) && b == RangeText(newBefore, news)
    ensures RangeAt(open + a + mid + b + end, 4) == Some((Digits(RangeStart(oldBefore, olds)), |open + a|))
    ensures RangeAt(open + a + mid + b + end, |open + a| + 2) ==
            Some((Digits(RangeStart(newBefore, news)), |open + a + mid + b|))
  {
    Regroup(open, a, mid, b, end);
    RangeReads(open, oldBefore, olds, mid + b + end);
    RangeReads(open + a + mid, newBefore, news, end);
  }

  /** A printed hunk header reads back as the new side's start and the hint. */
  lemma {:induction false} HunkReads(oldBefore: nat, olds: nat, newBefore: nat, news: nat, hint: string)
    ensures HunkHeader(HunkText(oldBefore, olds, newBefore, news, hint)) == Some((RangeStart(newBefore, news), hint))
  {
    var open := ['@', '@', ' ', '-'];
    var a, b := RangeText(oldBefore, olds), RangeText(newBefore, news);
    var mid, end := [' ', '+'], [' ', '@', '@'] + hint;
    RangesRead(open, a, mid, b, end, oldBefore, olds, newBefore, news);
    NumberOfDigits(RangeStart(newBefore, news));
    PartsJoin(open, a, mid, b, end, Digits(RangeStart(oldBefore, olds)), Digits(RangeStart(newBefore, news)), hint);
    assert open + a + mid + b + [' ', '@', '@'] + hint == open + a + mid + b + end;
  }

  lemma PartsJoin(open: string, a: string, mid: string, b: string, end: string, old_: string, new_: string, hint: string)
    requires open == ['@', '@', ' ', '-'] && mid == [' ', '+'] && end == [' ', '@', '@'] + hint && a != []
    requires RangeAt(open + a + mid + b + end, 4) == Some((old_, |open + a|))
    requires RangeAt(open + a + mid + b + end, |open + a| + 2) == Some((new_, |open + a + mid + b|))
    requires forall i | 0 <= i < |new_| :: IsDigit(new_[i])
    ensures HunkHeader(open + a + mid + b + end) == Some((Number(new_), hint))
  {
    LineParts(open, a, mid, b, end);
    PartsRead(open + a + mid + b + end, open + a, mid, b, end, old_, new_, hint);
  }

  lemma LineParts(open: string, a: string, mid: string, b: string, end: string)
    requires open == ['@', '@', ' ', '-']
    ensures open + a + mid + b + end == ((open + a) + mid) + b + end
    ensures Two(open + a + mid + b + end, 0, '@', '@') && Two(open + a + mid + b + end, 2, ' ', '-')
  {
    var line := open + a + mid + b + end;
    assert line == open + (a + mid + b + end);
    Opens(line, a + mid + b + end);
  }

  lemma HunkPieces(front: string, mid: string, b: string, end: string, hint: string, line: string)
    requires mid == [' ', '+'] && end == [' ', '@', '@'] + hint && line == (front + mid) + b + end
    ensures Two(line, |front|, ' ', '+')
    ensures Two(line, |front + mid + b|, ' ', '@') && |front + mid + b| + 2 < |line| && line[|front + mid + b| + 2] == '@'
    ensures line[|front + mid + b| + 3..] == hint
  {
    assert line[|front|] == mid[0] && line[|front| + 1] == mid[1];
    var k := |front + mid + b|;
    assert line[k..] == end;
    assert line[k] == end[0] && line[k + 1] == end[1] && line[k + 2] == end[2];
  }
}
