/**
 * Shingle extraction: the text of a genome file, given as its lines, is
 * concatenated, stripped of spaces, line feeds and carriage returns, and cut
 * into every window of length k.
 */
module Extraction {

  /** The characters removed from the concatenated text. */
  predicate IsStripped(c: char)
  {
    c == ' ' || c == '\n' || c == '\r'
  }

  /** The lines appended one after the other, with no separator. */
  function Concat(lines: seq<string>): string
  {
    if |lines| == 0 then "" else Concat(lines[..|lines| - 1]) + lines[|lines| - 1]
  }

  lemma {:induction false} ConcatAppend(a: seq<string>, b: seq<string>)
    ensures Concat(a + b) == Concat(a) + Concat(b)
  {
    if |b| == 0 {
      assert a + b == a;
    } else {
      assert (a + b)[..|a + b| - 1] == a + b[..|b| - 1];
      ConcatAppend(a, b[..|b| - 1]);
    }
  }

  /** The StringBuilder loop: append every line, in order. */
  method JoinLines(lines: seq<string>) returns (text: string)
    ensures text == Concat(lines)
  {
    text := "";
    for i := 0 to |lines|
      invariant text == Concat(lines[..i])
    {
      assert lines[..i + 1][..i] == lines[..i];
      text := text + lines[i];
    }
    assert lines[..|lines|] == lines;
  }

  /** `s.replaceAll(p, "")` where the pattern p is the single literal character c. */
  function RemoveChar(s: string, c: char): (r: string)
    ensures |r| <= |s|
    ensures c !in r
    ensures forall x :: x in r ==> x in s
  {
    if |s| == 0 then "" else (if s[0] == c then "" else [s[0]]) + RemoveChar(s[1..], c)
  }

  lemma {:induction false} RemoveCharAppend(a: string, b: string, c: char)
    ensures RemoveChar(a + b, c) == RemoveChar(a, c) + RemoveChar(b, c)
  {
    if |a| == 0 {
      assert a + b == b;
    } else {
      assert (a + b)[0] == a[0];
      assert (a + b)[1..] == a[1..] + b;
      RemoveCharAppend(a[1..], b, c);
    }
  }

  lemma {:induction false} RemoveCharAbsent(s: string, c: char)
    requires c !in s
    ensures RemoveChar(s, c) == s
  {
    if |s| != 0 {
      assert s[1..] + [] == s[1..];
      assert c !in s[1..];
      RemoveCharAbsent(s[1..], c);
      assert s == [s[0]] + s[1..];
    }
  }

  /** The three replaceAll calls, in the order the source applies them. */
  function Normalize(text: string): (r: string)
    ensures |r| <= |text|
    ensures forall i :: 0 <= i < |r| ==> !IsStripped(r[i])
  {
    RemoveChar(RemoveChar(RemoveChar(text, ' '), '\n'), '\r')
  }

  /** The normalised genome of a file with the given lines. */
  function Genome(lines: seq<string>): string
  {
    Normalize(Concat(lines))
  }

  /** Normalisation works character by character: it distributes over concatenation ... */
  lemma NormalizeAppend(a: string, b: string)
    ensures Normalize(a + b) == Normalize(a) + Normalize(b)
  {
    RemoveCharAppend(a, b, ' ');
    RemoveCharAppend(RemoveChar(a, ' '), RemoveChar(b, ' '), '\n');
    RemoveCharAppend(RemoveChar(RemoveChar(a, ' '), '\n'), RemoveChar(RemoveChar(b, ' '), '\n'), '\r');
  }

  /** ... and deletes exactly the stripped characters, keeping every other one. */
  lemma NormalizeChar(c: char)
    ensures Normalize([c]) == if IsStripped(c) then "" else [c]
  {
    assert [c][1..] == "";
  }

  /** The characters of s that are not stripped, in their order. */
  function Unstripped(s: string): string
  {
    if |s| == 0 then "" else Unstripped(s[..|s| - 1]) + (if IsStripped(s[|s| - 1]) then "" else [s[|s| - 1]])
  }

  /** Normalisation keeps exactly the characters that are not stripped, in order. */
  lemma {:induction false} NormalizeKeepsOthers(s: string)
    ensures Normalize(s) == Unstripped(s)
  {
    if |s| > 0 {
      var last := s[|s| - 1];
      assert s == s[..|s| - 1] + [last];
      NormalizeAppend(s[..|s| - 1], [last]);
      NormalizeChar(last);
      NormalizeKeepsOthers(s[..|s| - 1]);
    }
  }

  /** Text that has no stripped character is left as it is. */
  lemma NormalizeClean(s: string)
    requires forall i :: 0 <= i < |s| ==> !IsStripped(s[i])
    ensures Normalize(s) == s
  {
    RemoveCharAbsent(s, ' ');
    RemoveCharAbsent(s, '\n');
    RemoveCharAbsent(s, '\r');
  }

  lemma NormalizeIdempotent(s: string)
    ensures Normalize(Normalize(s)) == Normalize(s)
  {
    NormalizeClean(Normalize(s));
  }

  /** The genome of a file is the genome of its first lines followed by the normalised last line. */
  lemma GenomeAppendLine(lines: seq<string>, line: string)
    ensures Genome(lines + [line]) == Genome(lines) + Normalize(line)
  {
    assert (lines + [line])[..|lines|] == lines;
    NormalizeAppend(Concat(lines), line);
  }

  /** The window of length k of g at offset i. */
  function Window(g: string, k: nat, i: int): (w: string)
    requires 0 <= i && i + k <= |g|
    ensures |w| == k
  {
    g[i..i + k]
  }

  /** The windows of length k of g that start below n. */
  function WindowsBelow(g: string, k: nat, n: int): set<string>
  {
    set i | 0 <= i < n && i + k <= |g| :: Window(g, k, i)
  }

  /** Every window of length k of g, at offsets 0 to |g| - k. */
  function Shingles(g: string, k: nat): (r: set<string>)
    ensures forall w :: w in r ==> |w| == k
  {
    set i | 0 <= i <= |g| - k :: Window(g, k, i)
  }

  /** Window membership, both directions. */
  lemma ShingleMembership(g: string, k: nat, w: string)
    ensures w in Shingles(g, k) <==> exists i :: 0 <= i <= |g| - k && Window(g, k, i) == w
  {
  }

  lemma ShinglesAsWindows(g: string, k: nat)
    ensures Shingles(g, k) == WindowsBelow(g, k, |g| - k + 1)
  {
  }

  lemma WindowsStep(g: string, k: nat, n: nat)
    ensures WindowsBelow(g, k, n + 1)
            == WindowsBelow(g, k, n) + (if n + k <= |g| then {Window(g, k, n)} else {})
  {
  }

  lemma {:induction false} WindowsBelowSize(g: string, k: nat, n: nat)
    ensures |WindowsBelow(g, k, n)| <= n
  {
    if n == 0 {
      assert WindowsBelow(g, k, 0) == {};
    } else {
      WindowsStep(g, k, n - 1);
      WindowsBelowSize(g, k, n - 1);
    }
  }

  /** No two of the first n windows are the same string. */
  ghost predicate DistinctWindows(g: string, k: nat, n: int)
  {
    forall i, j :: 0 <= i < j < n && j + k <= |g| ==> Window(g, k, i) != Window(g, k, j)
  }

  lemma {:induction false} WindowsBelowExact(g: string, k: nat, n: nat)
    requires n + k <= |g| + 1
    ensures |WindowsBelow(g, k, n)| == n <==> DistinctWindows(g, k, n)
  {
    if DistinctWindows(g, k, n) {
      WindowsCountDistinct(g, k, n);
    }
    if |WindowsBelow(g, k, n)| == n {
      WindowsDistinctCount(g, k, n);
    }
  }

  lemma {:induction false} WindowsCountDistinct(g: string, k: nat, n: nat)
    requires n + k <= |g| + 1
    requires DistinctWindows(g, k, n)
    ensures |WindowsBelow(g, k, n)| == n
  {
    if n == 0 {
      assert WindowsBelow(g, k, 0) == {};
    } else {
      DistinctPrefix(g, k, n);
      WindowsCountDistinct(g, k, n - 1);
      DistinctFresh(g, k, n - 1);
      WindowsStepFresh(g, k, n - 1);
    }
  }

  /** A window that did not occur before adds one to the count. */
  lemma WindowsStepFresh(g: string, k: nat, n: nat)
    requires n + k <= |g|
    requires Window(g, k, n) !in WindowsBelow(g, k, n)
    ensures |WindowsBelow(g, k, n + 1)| == |WindowsBelow(g, k, n)| + 1
  {
    WindowsStep(g, k, n);
  }

  /** A window that did occur before adds nothing. */
  lemma WindowsStepSeen(g: string, k: nat, n: nat)
    requires n + k <= |g|
    requires Window(g, k, n) in WindowsBelow(g, k, n)
    ensures WindowsBelow(g, k, n + 1) == WindowsBelow(g, k, n)
  {
    WindowsStep(g, k, n);
  }

  lemma DistinctPrefix(g: string, k: nat, n: nat)
    requires n > 0 && DistinctWindows(g, k, n)
    ensures DistinctWindows(g, k, n - 1)
  {
  }

  lemma DistinctFresh(g: string, k: nat, n: nat)
    requires n + k <= |g|
    requires DistinctWindows(g, k, n + 1)
    ensures Window(g, k, n) !in WindowsBelow(g, k, n)
  {
  }

  lemma {:induction false} WindowsDistinctCount(g: string, k: nat, n: nat)
    requires n + k <= |g| + 1
    requires |WindowsBelow(g, k, n)| == n
    ensures DistinctWindows(g, k, n)
  {
    if n > 0 {
      CountStepBack(g, k, n - 1);
      WindowsDistinctCount(g, k, n - 1);
      DistinctExtend(g, k, n - 1);
    }
  }

  /** If the first n + 1 windows are n + 1 strings, so are the first n, and the last is new. */
  lemma CountStepBack(g: string, k: nat, n: nat)
    requires n + k <= |g|
    requires |WindowsBelow(g, k, n + 1)| == n + 1
    ensures |WindowsBelow(g, k, n)| == n
    ensures Window(g, k, n) !in WindowsBelow(g, k, n)
  {
    WindowsBelowSize(g, k, n);
    if Window(g, k, n) in WindowsBelow(g, k, n) {
      WindowsStepSeen(g, k, n);
    }
    WindowsStepFresh(g, k, n);
  }

  lemma DistinctExtend(g: string, k: nat, n: nat)
    requires n + k <= |g|
    requires DistinctWindows(g, k, n)
    requires Window(g, k, n) !in WindowsBelow(g, k, n)
    ensures DistinctWindows(g, k, n + 1)
  {
    forall i, j | 0 <= i < j < n + 1 && j + k <= |g|
      ensures Window(g, k, i) != Window(g, k, j)
    {
      if j == n {
        assert Window(g, k, i) in WindowsBelow(g, k, n);
      }
    }
  }

  /** A genome shorter than k has no shingle. */
  lemma ShinglesShort(g: string, k: nat)
    ensures Shingles(g, k) == {} <==> |g| < k
  {
    if |g| >= k {
      assert Window(g, k, 0) in Shingles(g, k);
    }
  }

  /** Otherwise there are between 1 and |g| - k + 1 shingles, as many as windows exactly when no two windows are equal. */
  lemma ShinglesSize(g: string, k: nat)
    requires k <= |g|
    ensures 1 <= |Shingles(g, k)| <= |g| - k + 1
    ensures |Shingles(g, k)| == |g| - k + 1 <==> DistinctWindows(g, k, |g| - k + 1)
  {
    ShinglesShort(g, k);
    ShinglesAsWindows(g, k);
    WindowsBelowSize(g, k, |g| - k + 1);
    WindowsBelowExact(g, k, |g| - k + 1);
  }

  /** The HashSet loop: add the window at every offset from 0 to |genome| - k. */
  method ExtractShingles(genome: string, k: nat) returns (subs: set<string>)
    ensures subs == Shingles(genome, k)
  {
    subs := {};
    var i := 0;
    while i <= |genome| - k
      invariant 0 <= i && (i == 0 || i <= |genome| - k + 1)
      invariant subs == WindowsBelow(genome, k, i)
      decreases |genome| - k + 1 - i
    {
      WindowsStep(genome, k, i);
      subs := subs + {genome[i..i + k]};
      i := i + 1;
    }
    ShinglesAsWindows(genome, k);
    assert WindowsBelow(genome, k, i) == WindowsBelow(genome, k, |genome| - k + 1);
  }
}
