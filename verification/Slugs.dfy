/**
 Unique property slugs: the search for a free suffix (packages/db/index.ts) and the backfill
 that allocates many (packages/db/prisma/backfill-slugs.ts). The base slug of a property is
 a parameter.
 */
module Slugs {
  import opened Common

  function Digit(d: nat): char
    requires d < 10
  {
    ['0', '1', '2', '3', '4', '5', '6', '7', '8', '9'][d]
  }

  /** The decimal form of a counter. */
  function Decimal(n: nat): (r: string)
    ensures |r| >= 1 && (n >= 10 ==> |r| >= 2)
  {
    if n < 10 then [Digit(n)] else Decimal(n / 10) + [Digit(n % 10)]
  }

  /** What a reader makes of decimal digits. */
  function ValueOf(digits: string): int {
    if digits == [] then 0 else 10 * ValueOf(digits[..|digits| - 1]) + (digits[|digits| - 1] as int - '0' as int)
  }

  /** The decimal form is made of digits, has the counter's value and no leading zero. */
  lemma {:induction false} DecimalReads(n: nat)
    ensures forall i :: 0 <= i < |Decimal(n)| ==> '0' <= Decimal(n)[i] <= '9'
    ensures ValueOf(Decimal(n)) == n
    ensures n > 0 ==> Decimal(n)[0] != '0'
  {
    if n >= 10 {
      DecimalReads(n / 10);
      var all, front := Decimal(n), Decimal(n / 10);
      assert all == front + [Digit(n % 10)];
      assert all[..|all| - 1] == front;
    } else {
      assert Decimal(n)[..0] == [];
    }
  }

  /** The k-th slug tried: the base, then `base-1`, `base-2`, ... */
  function Suffixed(base: string, k: nat): string {
    if k == 0 then base else base + ['-'] + Decimal(k)
  }

  lemma {:induction false} DecimalInjective(m: nat, n: nat)
    requires Decimal(m) == Decimal(n)
    ensures m == n
  {
    var a, b := Decimal(m), Decimal(n);
    assert a[|a| - 1] == Digit(m % 10) && b[|b| - 1] == Digit(n % 10);
    assert m % 10 == n % 10;
    if m >= 10 && n >= 10 {
      assert a[..|a| - 1] == Decimal(m / 10) && b[..|b| - 1] == Decimal(n / 10);
      DecimalInjective(m / 10, n / 10);
    }
  }

  lemma SuffixedInjective(base: string, j: nat, k: nat)
    requires Suffixed(base, j) == Suffixed(base, k)
    ensures j == k
  {
    if j > 0 && k > 0 {
      assert Suffixed(base, j)[|base| + 1..] == Decimal(j);
      assert Suffixed(base, k)[|base| + 1..] == Decimal(k);
      DecimalInjective(j, k);
    }
  }

  ghost function Tried(base: string, n: nat): set<string> {
    set k | 0 <= k < n :: Suffixed(base, k)
  }

  lemma TriedNext(base: string, n: nat)
    ensures Tried(base, n + 1) == Tried(base, n) + {Suffixed(base, n)}
  {
    forall s | s in Tried(base, n + 1) ensures s in Tried(base, n) + {Suffixed(base, n)} {
      var k :| 0 <= k < n + 1 && s == Suffixed(base, k);
    }
  }

  lemma NeverTried(base: string, n: nat)
    ensures Suffixed(base, n) !in Tried(base, n)
  {
    forall k | 0 <= k < n ensures Suffixed(base, k) != Suffixed(base, n) {
      if Suffixed(base, k) == Suffixed(base, n) {
        SuffixedInjective(base, k, n);
      }
    }
  }

  lemma {:induction false} TriedSize(base: string, n: nat)
    ensures |Tried(base, n)| == n
  {
    if n == 0 {
      assert Tried(base, 0) == {};
    } else {
      TriedSize(base, n - 1);
      TriedNext(base, n - 1);
      NeverTried(base, n - 1);
    }
  }

  /** Pigeonhole: the tried slugs that are all taken cannot outnumber the taken ones. */
  lemma TriedAtMost(base: string, n: nat, taken: set<string>)
    requires forall k :: 0 <= k < n ==> Suffixed(base, k) in taken
    ensures n <= |taken|
  {
    TriedSize(base, n);
    assert Tried(base, n) <= taken;
    assert taken == Tried(base, n) + (taken - Tried(base, n));
  }

  /** The slug is free, and every smaller suffix is taken. */
  predicate IsLeastFree(base: string, k: nat, taken: set<string>) {
    Suffixed(base, k) !in taken && forall j :: 0 <= j < k ==> Suffixed(base, j) in taken
  }

  /** The free slug with the least suffix, found after at most one more test than there are taken slugs. */
  ghost predicate FirstFree(base: string, slug: string, taken: set<string>) {
    exists k :: 0 <= k <= |taken| && IsLeastFree(base, k, taken) && slug == Suffixed(base, k)
  }

  /** The search ends after at most one more test than there are distinct existing slugs. */
  method GenerateUniquePropertySlug(base: string, existingSlugs: seq<string>) returns (slug: string)
    ensures slug !in existingSlugs && FirstFree(base, slug, set s | s in existingSlugs)
  {
    ghost var taken := set s | s in existingSlugs;
    slug := base;
    var counter := 1;
    while slug in existingSlugs
      invariant counter >= 1 && slug == Suffixed(base, counter - 1)
      invariant forall j :: 0 <= j < counter - 1 ==> Suffixed(base, j) in taken
      decreases |taken| + 1 - counter
    {
      TriedAtMost(base, counter, taken);
      slug := base + ['-'] + Decimal(counter);
      counter := counter + 1;
    }
    TriedAtMost(base, counter - 1, taken);
    assert IsLeastFree(base, counter - 1, taken);
  }

  /** The first free slug is the base itself whenever that is free, and otherwise the base, a dash and a counter. */
  lemma FirstFreeForm(base: string, slug: string, taken: set<string>)
    requires FirstFree(base, slug, taken)
    ensures base !in taken ==> slug == base
    ensures base in taken ==> exists k :: 1 <= k <= |taken| && slug == base + "-" + Decimal(k)
  {
    var k :| 0 <= k <= |taken| && IsLeastFree(base, k, taken) && slug == Suffixed(base, k);
    assert base == Suffixed(base, 0);
    if k > 0 {
      assert slug == base + "-" + Decimal(k);
    }
  }

  /** Rows with a slug have pairwise different ones. */
  ghost predicate SlugsUnique(slugs: seq<Option<string>>) {
    forall i, j :: 0 <= i < j < |slugs| && slugs[i].Some? && slugs[j].Some? ==> slugs[i] != slugs[j]
  }

  /** Every slug in use is in the set. */
  ghost predicate Covers(taken: set<string>, slugs: seq<Option<string>>) {
    forall i :: 0 <= i < |slugs| && slugs[i].Some? ==> slugs[i].value in taken
  }

  ghost predicate Derived(base: string, slug: string) {
    exists k :: slug == Suffixed(base, k)
  }

  ghost function Used(slugs: seq<Option<string>>): set<string> {
    if slugs == [] then {}
    else Used(slugs[..|slugs| - 1]) + (if slugs[|slugs| - 1].Some? then {slugs[|slugs| - 1].value} else {})
  }

  lemma {:induction false} UsedIs(slugs: seq<Option<string>>, slug: string)
    ensures slug in Used(slugs) <==> Some(slug) in slugs
  {
    if slugs != [] {
      UsedIs(slugs[..|slugs| - 1], slug);
      assert slugs == slugs[..|slugs| - 1] + [slugs[|slugs| - 1]];
    }
  }

  /**
   The first `n` rows have the slugs that allocating in order gives them: the first free one,
   given the slugs that were there and those of the rows before.
   */
  ghost predicate Allocated(bases: seq<string>, before: seq<Option<string>>, slugs: seq<Option<string>>, n: nat)
    requires n <= |slugs| == |bases| == |before|
  {
    n > 0 ==>
      && Allocated(bases, before, slugs, n - 1)
      && (before[n - 1].None? ==>
            slugs[n - 1].Some? && FirstFree(bases[n - 1], slugs[n - 1].value, Used(before) + Used(slugs[..n - 1])))
  }

  /** Later rows do not matter. */
  lemma {:induction false} AllocatedKept(bases: seq<string>, before: seq<Option<string>>, was: seq<Option<string>>,
                                         slugs: seq<Option<string>>, n: nat)
    requires n <= |slugs| == |was| == |bases| == |before| && was[..n] == slugs[..n]
    requires Allocated(bases, before, was, n)
    ensures Allocated(bases, before, slugs, n)
  {
    if n > 0 {
      assert was[..n][..n - 1] == was[..n - 1] && slugs[..n][..n - 1] == slugs[..n - 1];
      assert was[..n][n - 1] == was[n - 1] && slugs[..n][n - 1] == slugs[n - 1];
      AllocatedKept(bases, before, was, slugs, n - 1);
    }
  }

  /** One more row, which took the first free slug if it had none. */
  lemma OneMoreAllocated(bases: seq<string>, before: seq<Option<string>>, was: seq<Option<string>>,
                         slugs: seq<Option<string>>, n: nat)
    requires n < |slugs| == |was| == |bases| == |before| && was[..n] == slugs[..n] && Allocated(bases, before, was, n)
    requires if before[n].None? then
               slugs[n].Some? && FirstFree(bases[n], slugs[n].value, Used(before) + Used(slugs[..n]))
             else slugs[n] == before[n]
    ensures Allocated(bases, before, slugs, n + 1)
    ensures Used(before) + Used(slugs[..n + 1]) == Used(before) + Used(slugs[..n]) + {slugs[n].value}
    ensures before[n].Some? ==> slugs[n].value in Used(before)
  {
    AllocatedKept(bases, before, was, slugs, n);
    assert slugs[..n + 1][..n] == slugs[..n];
    UsedIs(before, slugs[n].value);
  }

  lemma UniqueAfter(slugs: seq<Option<string>>, n: nat, slug: string, taken: set<string>)
    requires n < |slugs| && SlugsUnique(slugs) && Covers(taken, slugs) && slug !in taken
    ensures SlugsUnique(slugs[n := Some(slug)])
  {
  }

  /** How many rows have no slug. */
  ghost function Missing(slugs: seq<Option<string>>): nat {
    if slugs == [] then 0 else Missing(slugs[..|slugs| - 1]) + (if slugs[|slugs| - 1].None? then 1 else 0)
  }

  lemma MissingPush(was: seq<Option<string>>, slugs: seq<Option<string>>, n: nat)
    requires n < |slugs| == |was| && was[..n] == slugs[..n]
    ensures Missing(slugs[..n + 1]) == Missing(was[..n]) + (if slugs[n].None? then 1 else 0)
  {
    assert slugs[..n + 1][..n] == slugs[..n];
  }

  class PropertyTable {
    const bases: seq<string>
    // No write fails.
    const calm: bool
    var slugs: seq<Option<string>>

    constructor (bases: seq<string>, slugs: seq<Option<string>>, calm: bool)
      requires |bases| == |slugs|
      ensures this.bases == bases && this.slugs == slugs && this.calm == calm
    {
      this.bases, this.slugs, this.calm := bases, slugs, calm;
    }

    /** The same search, against a growing set. */
    method FreeSlug(base: string, existingSlugs: set<string>) returns (slug: string)
      ensures slug !in existingSlugs && FirstFree(base, slug, existingSlugs)
    {
      slug := base;
      var counter := 1;
      while slug in existingSlugs
        invariant counter >= 1 && slug == Suffixed(base, counter - 1)
        invariant forall j :: 0 <= j < counter - 1 ==> Suffixed(base, j) in existingSlugs
        decreases |existingSlugs| + 1 - counter
      {
        TriedAtMost(base, counter, existingSlugs);
        slug := base + ['-'] + Decimal(counter);
        counter := counter + 1;
      }
      TriedAtMost(base, counter - 1, existingSlugs);
      assert IsLeastFree(base, counter - 1, existingSlugs);
    }

    /** One row: find a slug, reserve it, write it; a write that reports an error may have happened. */
    method AssignSlug(n: nat, existingSlugs: set<string>)
      returns (taken: set<string>, ok: bool, ghost written: bool)
      requires |bases| == |slugs| && n < |slugs| && slugs[n].None? && SlugsUnique(slugs) && Covers(existingSlugs, slugs)
      modifies this`slugs
      ensures |slugs| == |bases| && SlugsUnique(slugs) && Covers(taken, slugs)
      ensures (calm ==> ok) && (ok ==> written)
      ensures if written then slugs == old(slugs)[n := slugs[n]] && slugs[n].Some? else slugs == old(slugs)
      ensures written ==>
        FirstFree(bases[n], slugs[n].value, existingSlugs) && taken == existingSlugs + {slugs[n].value}
      ensures written ==> Derived(bases[n], slugs[n].value)
    {
      var slug := FreeSlug(bases[n], existingSlugs);
      taken := existingSlugs + {slug};
      ok := *;
      ok := ok || calm;
      var effect := *;
      written := ok || effect;
      if ok || effect {
        UniqueAfter(slugs, n, slug, existingSlugs);
        slugs := slugs[n := Some(slug)];
      }
    }

    /** The state after the first `n` rows of a backfill that began with the slugs `before`. */
    ghost predicate Progress(before: seq<Option<string>>, n: nat, existingSlugs: set<string>, updated: nat,
                             errors: nat, lost: nat)
      reads this
    {
      && n <= |bases| == |slugs| == |before| && SlugsUnique(slugs) && Covers(existingSlugs, slugs)
      && (forall i :: n <= i < |slugs| ==> slugs[i] == before[i])
      && (forall i :: 0 <= i < |slugs| && before[i].Some? ==> slugs[i] == before[i])
      && (forall i :: 0 <= i < |slugs| && before[i].None? && slugs[i].Some? ==> Derived(bases[i], slugs[i].value))
      && (calm ==> errors == 0)
      && errors == Missing(slugs[..n]) + lost && updated + errors == Missing(before[..n])
      && (errors == 0 ==>
            existingSlugs == Used(before) + Used(slugs[..n]) && Allocated(bases, before, slugs, n))
    }

    /** One turn of the loop. */
    method BackfillRow(n: nat, existingSlugs: set<string>, updated: nat, errors: nat, ghost lost: nat,
                       ghost before: seq<Option<string>>)
      returns (taken: set<string>, updated': nat, errors': nat, ghost lost': nat)
      requires n < |bases| && Progress(before, n, existingSlugs, updated, errors, lost)
      modifies this`slugs
      ensures Progress(before, n + 1, taken, updated', errors', lost')
    {
      taken, updated', errors', lost' := existingSlugs, updated, errors, lost;
      ghost var was := slugs;
      if slugs[n].None? {
        var ok;
        ghost var written;
        taken, ok, written := AssignSlug(n, existingSlugs);
        if ok {
          updated' := updated + 1;
        } else {
          errors', lost' := errors + 1, lost + if written then 1 else 0;
        }
      }
      assert was[..n] == slugs[..n];
      MissingPush(was, slugs, n);
      MissingPush(before, before, n);
      if errors' == 0 {
        OneMoreAllocated(bases, before, was, slugs, n);
      }
    }

    /**
     Give every row without a slug one, different from each other and from all that were
     there. An update that fails is counted; `lost` of them took effect all the same. Without
     errors every row gets the first free slug, given the rows before it.
     */
    method BackfillSlugs() returns (updated: nat, errors: nat, ghost lost: nat)
      requires |bases| == |slugs| && SlugsUnique(slugs)
      modifies this`slugs
      ensures |slugs| == |bases| && SlugsUnique(slugs)
      ensures forall i :: 0 <= i < |slugs| && old(slugs)[i].Some? ==> slugs[i] == old(slugs)[i]
      ensures forall i :: 0 <= i < |slugs| && old(slugs)[i].None? && slugs[i].Some? ==>
        Derived(bases[i], slugs[i].value)
      ensures errors == Missing(slugs) + lost && updated + errors == Missing(old(slugs))
      ensures errors == 0 ==> Allocated(bases, old(slugs), slugs, |bases|)
      ensures calm ==> errors == 0
    {
      var existingSlugs := set i | 0 <= i < |slugs| && slugs[i].Some? :: slugs[i].value;
      updated, errors, lost := 0, 0, 0;
      ghost var before := slugs;
      forall slug ensures slug in existingSlugs <==> slug in Used(before) {
        UsedIs(before, slug);
      }
      var n := 0;
      while n < |bases|
        invariant Progress(before, n, existingSlugs, updated, errors, lost)
      {
        existingSlugs, updated, errors, lost := BackfillRow(n, existingSlugs, updated, errors, lost, before);
        n := n + 1;
      }
      assert slugs[..n] == slugs && before[..n] == before;
    }
  }
}
