/**
  `unique_path` (`backup.rs`): the first free name of `stem.ext`, `stem-1.ext`,
  `stem-2.ext`, ... in a directory.
 */
module UniquePath {
  import opened Sets
  import opened Text

  function Candidate(stem: string, ext: string, n: nat): string {
    if n == 0 then stem + "." + ext else stem + "-" + Decimal(n) + "." + ext
  }

  /** No name is tried twice: the decimal suffix tells the attempts apart. */
  lemma CandidateInjective(stem: string, ext: string, m: nat, n: nat)
    requires Candidate(stem, ext, m) == Candidate(stem, ext, n)
    ensures m == n
  {
    var a, b := Candidate(stem, ext, m), Candidate(stem, ext, n);
    if m != 0 && n != 0 {
      assert Decimal(m) == a[|stem| + 1..|a| - |ext| - 1];
      assert Decimal(n) == b[|stem| + 1..|b| - |ext| - 1];
      DecimalInjective(m, n);
    }
  }

  /** The candidate with number `k` is free and every earlier one is taken. */
  ghost predicate FirstFree(dir: set<string>, stem: string, ext: string, k: nat) {
    && Candidate(stem, ext, k) !in dir
    && forall j: nat :: j < k ==> Candidate(stem, ext, j) in dir
  }

  lemma FirstFreeUnique(dir: set<string>, stem: string, ext: string, j: nat, k: nat)
    requires FirstFree(dir, stem, ext, j) && FirstFree(dir, stem, ext, k)
    ensures j == k
  {
  }

  /** The first `n` candidates. */
  ghost function Tried(stem: string, ext: string, n: nat): set<string> {
    set j: nat | j < n :: Candidate(stem, ext, j)
  }

  lemma {:induction false} TriedCount(stem: string, ext: string, n: nat)
    ensures |Tried(stem, ext, n)| == n
  {
    hide Candidate, Tried;
    if n == 0 {
      TriedNone(stem, ext);
    } else {
      TriedCount(stem, ext, n - 1);
      TriedOneMore(stem, ext, n - 1);
    }
  }

  /**
    The loop ends in every finite directory. The suffix it ends with is at most
    the number of files there, so the source's `u32` counter could only overflow
    in a directory of 2^32 - 1 files or more.
   */
  method UniquePath(dir: set<string>, stem: string, ext: string) returns (candidate: string, ghost k: nat)
    ensures FirstFree(dir, stem, ext, k) && candidate == Candidate(stem, ext, k)
    ensures candidate !in dir
    ensures k <= |dir|
  {
    hide Candidate, Tried;
    candidate := Candidate(stem, ext, 0);
    var n := 1;
    TriedNone(stem, ext);
    while candidate in dir
      invariant n >= 1 && candidate == Candidate(stem, ext, n - 1)
      invariant Tried(stem, ext, n - 1) <= dir && |Tried(stem, ext, n - 1)| == n - 1
      decreases |dir - Tried(stem, ext, n - 1)|
    {
      TriedOneMore(stem, ext, n - 1);
      TriedCount(stem, ext, n);
      assert dir - Tried(stem, ext, n) <= dir - Tried(stem, ext, n - 1);
      SubsetSize(dir - Tried(stem, ext, n), dir - Tried(stem, ext, n - 1));
      assert candidate in dir - Tried(stem, ext, n - 1);
      candidate := Candidate(stem, ext, n);
      n := n + 1;
    }
    k := n - 1;
    SubsetSize(Tried(stem, ext, k), dir);
    forall j: nat | j < k ensures Candidate(stem, ext, j) in dir {
      TriedHas(stem, ext, k, j);
    }
  }

  lemma TriedNone(stem: string, ext: string)
    ensures Tried(stem, ext, 0) == {}
  {
  }

  lemma TriedHas(stem: string, ext: string, n: nat, j: nat)
    requires j < n
    ensures Candidate(stem, ext, j) in Tried(stem, ext, n)
  {
  }

  /** Every attempt is a new name. */
  lemma TriedOneMore(stem: string, ext: string, n: nat)
    ensures Tried(stem, ext, n + 1) == Tried(stem, ext, n) + {Candidate(stem, ext, n)}
    ensures Candidate(stem, ext, n) !in Tried(stem, ext, n)
  {
    var c := Candidate(stem, ext, n);
    hide Candidate;
    if c in Tried(stem, ext, n) {
      var j: nat :| j < n && Candidate(stem, ext, j) == c;
      CandidateInjective(stem, ext, j, n);
    }
  }
}
