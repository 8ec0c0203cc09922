/** Character filtering and truncation on strings, the two steps both
    sanitisers are built from, and the subsequence relation that relates
    their output to their input. */
module TextFilter {

  /** `r` can be obtained from `s` by deleting characters, keeping the order. */
  predicate IsSubsequence(r: string, s: string)
  {
    r == [] ||
    (s != [] && ((r[0] == s[0] && IsSubsequence(r[1..], s[1..])) || IsSubsequence(r, s[1..])))
  }

  /** Every character of `s` satisfies `keep`. */
  predicate AllKept(keep: char -> bool, s: string)
  {
    forall i :: 0 <= i < |s| ==> keep(s[i])
  }

  /** The characters of `s` that satisfy `keep`, in their original order
      (a character-class `re.sub` with an empty replacement, or a filtering
      comprehension joined back into a string). */
  function Keep(keep: char -> bool, s: string): (r: string)
    ensures |r| <= |s|
    ensures AllKept(keep, r)
  {
    if s == [] then []
    else if keep(s[0]) then [s[0]] + Keep(keep, s[1..])
    else Keep(keep, s[1..])
  }

  /** The first `n` characters of `s`, or all of `s` when it is shorter
      (the slice `s[:n]`). */
  function Take(s: string, n: nat): (r: string)
    ensures |r| == if |s| <= n then |s| else n
    ensures r == s[..|r|]
  {
    if |s| <= n then s else s[..n]
  }

  /** Filtering distributes over concatenation: each character is kept or
      dropped on its own. */
  lemma {:induction false} KeepAppend(keep: char -> bool, s: string, t: string)
    ensures Keep(keep, s + t) == Keep(keep, s) + Keep(keep, t)
  {
    if s != [] {
      assert (s + t)[0] == s[0];
      assert (s + t)[1..] == s[1..] + t;
      KeepAppend(keep, s[1..], t);
    } else {
      assert s + t == t;
    }
  }

  /** Filtering leaves a string unchanged exactly when every character of it
      is kept. */
  lemma {:induction false} KeepIdentity(keep: char -> bool, s: string)
    ensures Keep(keep, s) == s <==> AllKept(keep, s)
  {
    if s != [] {
      KeepIdentity(keep, s[1..]);
      if !keep(s[0]) {
        assert |Keep(keep, s)| < |s|;
      }
    }
  }

  /** A single character is kept exactly when it satisfies `keep`. */
  lemma KeepSingle(keep: char -> bool, c: char)
    ensures Keep(keep, [c]) == if keep(c) then [c] else []
  {
    assert [c][1..] == [];
  }

  /** Filtering yields a subsequence of the input. */
  lemma {:induction false} KeepIsSubsequence(keep: char -> bool, s: string)
    ensures IsSubsequence(Keep(keep, s), s)
  {
    if s != [] {
      KeepIsSubsequence(keep, s[1..]);
      if keep(s[0]) {
        assert Keep(keep, s)[0] == s[0] && Keep(keep, s)[1..] == Keep(keep, s[1..]);
      }
    }
  }

  /** A prefix of a subsequence of `s` is again a subsequence of `s`. */
  lemma {:induction false} PrefixOfSubsequence(r: string, s: string, k: nat)
    requires IsSubsequence(r, s)
    requires k <= |r|
    ensures IsSubsequence(r[..k], s)
  {
    if k > 0 {
      if r[0] == s[0] && IsSubsequence(r[1..], s[1..]) {
        PrefixOfSubsequence(r[1..], s[1..], k - 1);
        assert r[..k][0] == s[0] && r[..k][1..] == r[1..][..k - 1];
      } else {
        PrefixOfSubsequence(r, s[1..], k);
      }
    }
  }

  /** Filtering and then truncating yields a subsequence of the input. */
  lemma TakeKeepIsSubsequence(keep: char -> bool, s: string, n: nat)
    ensures IsSubsequence(Take(Keep(keep, s), n), s)
  {
    var f := Keep(keep, s);
    KeepIsSubsequence(keep, s);
    PrefixOfSubsequence(f, s, |Take(f, n)|);
  }

  /** Filtering and then truncating is idempotent: the result is already
      clean and already short enough. */
  lemma TakeKeepIdempotent(keep: char -> bool, s: string, n: nat)
    ensures Take(Keep(keep, Take(Keep(keep, s), n)), n) == Take(Keep(keep, s), n)
  {
    var r := Take(Keep(keep, s), n);
    assert AllKept(keep, r);
    KeepIdentity(keep, r);
  }
}
