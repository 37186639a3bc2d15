/** The search for an unused identifier that all the `next_*_id` functions share. */
module FreshIds {
  import opened Text

  function Candidate(prefix: string, n: nat): string {
    prefix + Decimal(n)
  }

  lemma CandidatesDiffer(prefix: string, m: nat, n: nat)
    requires m != n
    ensures Candidate(prefix, m) != Candidate(prefix, n)
  {
    assert Candidate(prefix, m)[|prefix|..] == Decimal(m) && Candidate(prefix, n)[|prefix|..] == Decimal(n);
    assert Value(Decimal(m)) == m && Value(Decimal(n)) == n;
  }

  /** A list holds no more consecutive candidates than it has entries. */
  lemma {:induction false} Pigeonhole(prefix: string, ids: seq<string>, lo: nat, hi: nat)
    requires lo <= hi && forall n :: lo <= n < hi ==> Candidate(prefix, n) in ids
    ensures hi - lo <= |ids|
    decreases hi
  {
    if lo < hi {
      var last := Candidate(prefix, hi - 1);
      assert last in ids;
      var i :| 0 <= i < |ids| && ids[i] == last;
      var rest := ids[..i] + ids[i + 1..];
      forall n | lo <= n < hi - 1 ensures Candidate(prefix, n) in rest {
        CandidatesDiffer(prefix, n, hi - 1);
        var j :| 0 <= j < |ids| && ids[j] == Candidate(prefix, n);
        assert if j < i then rest[j] == ids[j] else rest[j - 1] == ids[j];
      }
      Pigeonhole(prefix, rest, lo, hi - 1);
    }
  }

  /** The first unused number from the list's length plus one on. The search always ends, after at
      most one try more than the list is long. */
  method NextId(prefix: string, ids: seq<string>) returns (id: string, next: nat)
    ensures id == Candidate(prefix, next) && id !in ids
    ensures |ids| + 1 <= next <= 2 * |ids| + 1
    ensures forall n :: |ids| + 1 <= n < next ==> Candidate(prefix, n) in ids
  {
    next := |ids| + 1;
    while true
      invariant |ids| + 1 <= next <= 2 * |ids| + 1
      invariant forall n :: |ids| + 1 <= n < next ==> Candidate(prefix, n) in ids
      decreases 2 * |ids| + 1 - next
    {
      var candidate := Candidate(prefix, next);
      if candidate !in ids { return candidate, next; }
      Pigeonhole(prefix, ids, |ids| + 1, next + 1);
      next := next + 1;
    }
  }
}
