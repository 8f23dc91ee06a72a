/** The few Python built-in operations the program relies on, with Python's edge cases. */
module PyBuiltins {

  /** `s[-n:]` as Python evaluates it: `s[-0:]` is the whole of s, not none of it. */
  function PyTail<T>(s: seq<T>, n: nat): (r: seq<T>)
    ensures n == 0 || n >= |s| ==> r == s
    ensures 0 < n <= |s| ==> r == s[|s| - n..]
  {
    if n == 0 || n >= |s| then s else s[|s| - n..]
  }

  /** `s.endswith(suffix)` */
  predicate EndsWith(s: string, suffix: string) {
    |suffix| <= |s| && s[|s| - |suffix|..] == suffix
  }

  /** `pattern` occurs in s starting at index i. */
  predicate OccursAt(s: string, pattern: string, i: int) {
    0 <= i && i + |pattern| <= |s| && s[i..i + |pattern|] == pattern
  }

  /** Where block `i` starts when every block is `width` long (`i * width`, kept linear). */
  function BlockStart(i: nat, width: nat): nat
  {
    if i == 0 then 0 else BlockStart(i - 1, width) + width
  }

  /** `s.replace("", repl)`: repl before every character and once more at the end. The
      result is |s| blocks, each repl followed by the next character of s, then repl. */
  function InsertEverywhere(s: string, repl: string): (r: string)
    ensures |r| == BlockStart(|s|, |repl| + 1) + |repl|
    ensures forall i :: 0 <= i < |s| ==> InsertedBlock(r, i, repl, s[i])
    ensures r[BlockStart(|s|, |repl| + 1)..] == repl
  {
    if |s| == 0 then repl
    else
      var rest := InsertEverywhere(s[1..], repl);
      InsertEverywhereShift(s, repl, rest);
      repl + [s[0]] + rest
  }

  /** Block `i` of an `InsertEverywhere` result: a copy of repl, then the character `c`. */
  predicate InsertedBlock(r: string, i: nat, repl: string, c: char)
  {
    var start := BlockStart(i, |repl| + 1);
    start + |repl| < |r| && r[start..start + |repl|] == repl && r[start + |repl|] == c
  }

  /** The blocks of `InsertEverywhere(s[1..], repl)` move one block width to the right once
      the first block is put in front. */
  lemma InsertEverywhereShift(s: string, repl: string, rest: string)
    requires |s| > 0
    requires |rest| == BlockStart(|s| - 1, |repl| + 1) + |repl|
    requires forall i :: 0 <= i < |s| - 1 ==> InsertedBlock(rest, i, repl, s[1..][i])
    requires rest[BlockStart(|s| - 1, |repl| + 1)..] == repl
    ensures var r := repl + [s[0]] + rest;
      (forall i :: 0 <= i < |s| ==> InsertedBlock(r, i, repl, s[i]))
      && r[BlockStart(|s|, |repl| + 1)..] == repl
  {
    var w := |repl| + 1;
    var r := repl + [s[0]] + rest;
    assert r[w..] == rest;
    assert r[..|repl|] == repl;
    forall i | 0 < i < |s|
      ensures InsertedBlock(r, i, repl, s[i])
    {
      assert InsertedBlock(rest, i - 1, repl, s[1..][i - 1]);
      BlockAfterPrefix(r, rest, i, repl, s[i]);
    }
    assert r[BlockStart(|s|, w)..] == rest[BlockStart(|s| - 1, w)..];
  }

  /** A block of `rest` is the next block of any `r` that ends with `rest` after one block. */
  lemma BlockAfterPrefix(r: string, rest: string, i: nat, repl: string, c: char)
    requires i > 0 && |repl| + 1 <= |r| && r[|repl| + 1..] == rest
    requires InsertedBlock(rest, i - 1, repl, c)
    ensures InsertedBlock(r, i, repl, c)
  {
    var w := |repl| + 1;
    var b := BlockStart(i - 1, w);
    assert BlockStart(i, w) == b + w;
    var here, there := r[b + w..b + w + |repl|], rest[b..b + |repl|];
    assert here == there by {
      assert forall j :: 0 <= j < |repl| ==> here[j] == r[w..][b + j] == there[j];
    }
    assert r[b + w + |repl|] == rest[b + |repl|];
  }

  /** `BlockStart` is multiplication. */
  lemma {:induction false} BlockStartIsProduct(i: nat, width: nat)
    ensures BlockStart(i, width) == i * width
  {
    if i > 0 {
      BlockStartIsProduct(i - 1, width);
    }
  }

  /** `s.replace(pattern, repl)`: every non-overlapping occurrence, scanning from the left. */
  function ReplaceAll(s: string, pattern: string, repl: string): (r: string)
    decreases |s|
  {
    if |pattern| == 0 then InsertEverywhere(s, repl)
    else if |s| < |pattern| then s
    else if s[..|pattern|] == pattern then repl + ReplaceAll(s[|pattern|..], pattern, repl)
    else [s[0]] + ReplaceAll(s[1..], pattern, repl)
  }

  /** Without an occurrence, replacing changes nothing. */
  lemma {:induction false} ReplaceAllWithoutOccurrence(s: string, pattern: string, repl: string)
    requires |pattern| > 0
    requires forall i :: 0 <= i <= |s| - |pattern| ==> !OccursAt(s, pattern, i)
    ensures ReplaceAll(s, pattern, repl) == s
    decreases |s|
  {
    if |s| >= |pattern| {
      assert !OccursAt(s, pattern, 0);
      forall i | 0 <= i <= |s[1..]| - |pattern|
        ensures !OccursAt(s[1..], pattern, i)
      {
        assert s[1..][i..i + |pattern|] == s[i + 1..i + 1 + |pattern|];
        assert !OccursAt(s, pattern, i + 1);
      }
      ReplaceAllWithoutOccurrence(s[1..], pattern, repl);
    }
  }

  /** When `pattern` occurs only as the suffix, replacing it swaps that suffix for `repl`. */
  lemma {:induction false} ReplaceAllOnlySuffix(prefix: string, pattern: string, repl: string)
    requires |pattern| > 0
    requires forall i :: 0 <= i < |prefix| ==> !OccursAt(prefix + pattern, pattern, i)
    ensures ReplaceAll(prefix + pattern, pattern, repl) == prefix + repl
    decreases |prefix|
  {
    var s := prefix + pattern;
    if |prefix| == 0 {
      assert s[..|pattern|] == pattern;
      assert s[|pattern|..] == [];
      ReplaceAllWithoutOccurrence([], pattern, repl);
    } else {
      assert !OccursAt(s, pattern, 0);
      assert s[..|pattern|] != pattern;
      assert s[1..] == prefix[1..] + pattern;
      forall i | 0 <= i < |prefix[1..]|
        ensures !OccursAt(prefix[1..] + pattern, pattern, i)
      {
        assert (prefix[1..] + pattern)[i..i + |pattern|] == s[i + 1..i + 1 + |pattern|];
        assert !OccursAt(s, pattern, i + 1);
      }
      ReplaceAllOnlySuffix(prefix[1..], pattern, repl);
      assert [s[0]] + (prefix[1..] + repl) == prefix + repl;
    }
  }
}
