/** Collision-free report directory names for a fleet of repositories (src/attackmap/fleet.py). */
module Fleet {
  import opened Text

  /** The n-th name tried for a slug: the slug, then `slug-2`, `slug-3`, and so on. */
  function Candidate(slug: string, n: nat): string
    requires n >= 1
  {
    if n == 1 then slug else slug + "-" + Decimal(n)
  }

  lemma CandidatesDiffer(slug: string, m: nat, n: nat)
    requires 1 <= m < n
    ensures Candidate(slug, m) != Candidate(slug, n)
  {
    if m > 1 && Candidate(slug, m) == Candidate(slug, n) {
      var s := slug + "-";
      assert Candidate(slug, m)[|s|..] == Decimal(m);
      assert Candidate(slug, n)[|s|..] == Decimal(n);
      DecimalInjective(m, n);
    }
  }

  /** Only finitely many of the distinct candidates can be taken. */
  lemma {:induction false} TakenIsBounded(slug: string, n: nat, used: set<string>)
    requires n >= 1 && forall m :: 1 <= m < n ==> Candidate(slug, m) in used
    ensures n - 1 <= |used|
  {
    if n > 1 {
      var last := Candidate(slug, n - 1);
      forall m | 1 <= m < n - 1 ensures Candidate(slug, m) in used - {last} {
        CandidatesDiffer(slug, m, n - 1);
      }
      TakenIsBounded(slug, n - 1, used - {last});
    }
  }

  /** `id` is the first candidate for `slug` that is not taken. */
  ghost predicate FirstFree(id: string, slug: string, taken: seq<string>) {
    exists n: nat :: n >= 1 && FreeAt(id, slug, taken, n)
  }

  ghost predicate FreeAt(id: string, slug: string, taken: seq<string>, n: nat)
    requires n >= 1
  {
    && id == Candidate(slug, n) && id !in taken
    && forall m :: 1 <= m < n ==> Candidate(slug, m) in taken
  }

  /** Each repository gets the first free candidate given the ids before it. */
  ghost predicate Assigned(ids: seq<string>, slugs: seq<string>) {
    |ids| == |slugs| && forall i :: 0 <= i < |ids| ==> FirstFree(ids[i], slugs[i], ids[..i])
  }

  lemma FirstFreeIsUnique(a: string, b: string, slug: string, taken: seq<string>)
    requires FirstFree(a, slug, taken) && FirstFree(b, slug, taken)
    ensures a == b
  {
    var m: nat :| m >= 1 && FreeAt(a, slug, taken, m);
    var n: nat :| n >= 1 && FreeAt(b, slug, taken, n);
    assert m == n;
  }

  lemma AssignedPrefix(ids: seq<string>, slugs: seq<string>, k: nat)
    requires Assigned(ids, slugs) && k <= |ids|
    ensures Assigned(ids[..k], slugs[..k])
  {
    hide FirstFree;
    forall i | 0 <= i < k ensures FirstFree(ids[..k][i], slugs[..k][i], ids[..k][..i]) {
      assert ids[..k][..i] == ids[..i];
    }
  }

  /** The input order alone decides the ids. */
  lemma {:induction false} AssignedIsUnique(a: seq<string>, b: seq<string>, slugs: seq<string>)
    requires Assigned(a, slugs) && Assigned(b, slugs)
    ensures a == b
  {
    hide FirstFree;
    if slugs != [] {
      var k := |slugs| - 1;
      AssignedPrefix(a, slugs, k);
      AssignedPrefix(b, slugs, k);
      AssignedIsUnique(a[..k], b[..k], slugs[..k]);
      FirstFreeIsUnique(a[k], b[k], slugs[k], a[..k]);
      assert a == a[..k] + [a[k]] && b == b[..k] + [b[k]];
    }
  }

  lemma AssignedIsCollisionFree(ids: seq<string>, slugs: seq<string>, i: nat, j: nat)
    requires Assigned(ids, slugs) && i < j < |ids|
    ensures ids[i] != ids[j]
  {
    assert FirstFree(ids[j], slugs[j], ids[..j]);
    assert ids[i] in ids[..j];
  }

  lemma AssignedNext(ids: seq<string>, slugs: seq<string>, id: string, slug: string, n: nat)
    requires Assigned(ids, slugs) && n >= 1 && id == Candidate(slug, n) && id !in ids
    requires forall m :: 1 <= m < n ==> Candidate(slug, m) in ids
    ensures Assigned(ids + [id], slugs + [slug])
  {
    assert FreeAt(id, slug, ids, n);
    hide FreeAt;
    forall i | 0 <= i <= |ids| ensures FirstFree((ids + [id])[i], (slugs + [slug])[i], (ids + [id])[..i]) {
      assert (ids + [id])[..i] == ids[..i];
      if i < |ids| { assert FirstFree(ids[i], slugs[i], ids[..i]); }
      else { assert ids[..i] == ids; }
    }
  }

  /** The ids for repositories whose directory names have these slugs. */
  method FleetRepoIds(slugs: seq<string>) returns (ids: seq<string>)
    ensures Assigned(ids, slugs)
    ensures forall i, j :: 0 <= i < j < |ids| ==> ids[i] != ids[j]
  {
    hide FirstFree, FreeAt;
    ids := [];
    var used: set<string> := {};
    for k := 0 to |slugs|
      invariant Assigned(ids, slugs[..k])
      invariant forall x :: x in used <==> x in ids
    {
      var slug := slugs[k];
      var candidate := slug;
      var n := 1;
      while candidate in used
        invariant n >= 1 && candidate == Candidate(slug, n)
        invariant forall m :: 1 <= m < n ==> Candidate(slug, m) in used
        decreases |used| - n
      {
        n := n + 1;
        TakenIsBounded(slug, n, used);
        candidate := slug + "-" + Decimal(n);
      }
      AssignedNext(ids, slugs[..k], candidate, slug, n);
      assert slugs[..k + 1] == slugs[..k] + [slug];
      used := used + {candidate};
      ids := ids + [candidate];
    }
    assert slugs[..|slugs|] == slugs;
    forall i, j | 0 <= i < j < |ids| ensures ids[i] != ids[j] { AssignedIsCollisionFree(ids, slugs, i, j); }
  }
}
