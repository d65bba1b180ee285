/** Python slices the journal and mood tabs apply to query results before
    showing them. */
module Display {

  /** `s[-n:]` for a positive `n`: the last `n` items, or all of them when
      there are fewer. */
  function LastN<T>(s: seq<T>, n: nat): (r: seq<T>)
    requires n > 0
    ensures |r| == if n <= |s| then n else |s|
    ensures r == s[|s| - |r|..]
  {
    if n <= |s| then s[|s| - n..] else s
  }

  /** `s[:n]`: the first `n` items, or all of them when there are fewer. */
  function FirstN<T>(s: seq<T>, n: nat): (r: seq<T>)
    ensures |r| == if n <= |s| then n else |s|
    ensures r == s[..|r|]
  {
    if n <= |s| then s[..n] else s
  }

  /** Slicing the last `n` of the last `m` is slicing the last `n`. */
  lemma LastNOfLastN<T>(s: seq<T>, m: nat, n: nat)
    requires 0 < n <= m
    ensures LastN(LastN(s, m), n) == LastN(s, n)
  {
  }

  /** Slicing the first `n` of the first `m` is slicing the first `n`. */
  lemma FirstNOfFirstN<T>(s: seq<T>, m: nat, n: nat)
    requires n <= m
    ensures FirstN(FirstN(s, m), n) == FirstN(s, n)
  {
  }
}
