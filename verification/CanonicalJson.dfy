/**
 The canonical form of a JSON value, with object keys sorted at every depth, that the
 configuration hash is taken of (packages/portal-config/src/classification.ts). The key
 comparison is any total order.
 */
module CanonicalJson {

  datatype Entry = Entry(key: string, value: Json)

  datatype Json =
    | Null
    | Bool(b: bool)
    | Num(n: real)
    | Str(s: string)
    | Arr(items: seq<Json>)
    | Obj(entries: seq<Entry>)

  type KeyOrder = (string, string) -> bool

  ghost predicate TotalOrder(le: KeyOrder) {
    && (forall a, b :: le(a, b) || le(b, a))
    && (forall a, b :: le(a, b) && le(b, a) ==> a == b)
    && (forall a, b, c :: le(a, b) && le(b, c) ==> le(a, c))
  }

  predicate UniqueKeys(es: seq<Entry>) {
    forall i, j :: 0 <= i < j < |es| ==> es[i].key != es[j].key
  }

  /** An object has one entry per key, at every depth. */
  predicate WellFormed(j: Json) {
    match j
    case Arr(xs) => forall i :: 0 <= i < |xs| ==> WellFormed(xs[i])
    case Obj(es) => UniqueKeys(es) && forall i :: 0 <= i < |es| ==> WellFormed(es[i].value)
    case _ => true
  }

  function Keys(es: seq<Entry>): set<string> {
    set e | e in es :: e.key
  }

  // ------------------------------------------------------------------- canonical

  function Insert(le: KeyOrder, e: Entry, es: seq<Entry>): (r: seq<Entry>)
    ensures multiset(r) == multiset([e] + es)
  {
    if es == [] || le(e.key, es[0].key) then [e] + es
    else
      assert es == [es[0]] + es[1..];
      [es[0]] + Insert(le, e, es[1..])
  }

  function SortByKey(le: KeyOrder, es: seq<Entry>): (r: seq<Entry>)
    ensures multiset(r) == multiset(es) && |r| == |es|
  {
    if es == [] then []
    else
      assert es == [es[0]] + es[1..];
      var r := Insert(le, es[0], SortByKey(le, es[1..]));
      assert |multiset(r)| == |multiset(es)|;
      r
  }

  function Canonical(le: KeyOrder, j: Json): Json {
    match j
    case Arr(xs) => Arr(seq(|xs|, i requires 0 <= i < |xs| => Canonical(le, xs[i])))
    case Obj(es) =>
      var sorted := SortByKey(le, es);
      Obj(seq(|sorted|, i requires 0 <= i < |sorted| =>
        assert sorted[i] in multiset(es);
        Entry(sorted[i].key, Canonical(le, sorted[i].value))))
    case _ => j
  }

  // ------------------------------------------------------------------- the sort

  predicate Sorted(le: KeyOrder, es: seq<Entry>) {
    forall i, j :: 0 <= i < j < |es| ==> le(es[i].key, es[j].key)
  }

  lemma {:induction false} InsertSorted(le: KeyOrder, e: Entry, es: seq<Entry>)
    requires TotalOrder(le) && Sorted(le, es)
    ensures Sorted(le, Insert(le, e, es))
  {
    if es == [] || le(e.key, es[0].key) {
    } else {
      InsertSorted(le, e, es[1..]);
      var rest := Insert(le, e, es[1..]);
      forall k | 0 <= k < |rest| ensures le(es[0].key, rest[k].key) {
        assert rest[k] in multiset([e] + es[1..]);
      }
    }
  }

  lemma {:induction false} SortSorted(le: KeyOrder, es: seq<Entry>)
    requires TotalOrder(le)
    ensures Sorted(le, SortByKey(le, es))
  {
    if es != [] {
      SortSorted(le, es[1..]);
      InsertSorted(le, es[0], SortByKey(le, es[1..]));
    }
  }

  lemma SameElements(a: seq<Entry>, b: seq<Entry>, e: Entry)
    requires multiset(a) == multiset(b)
    ensures e in a <==> e in b
  {
    assert e in a <==> e in multiset(a);
  }

  lemma SortKeys(le: KeyOrder, es: seq<Entry>)
    ensures Keys(SortByKey(le, es)) == Keys(es)
  {
    forall e ensures e in SortByKey(le, es) <==> e in es {
      SameElements(SortByKey(le, es), es, e);
    }
  }

  lemma UniquePush(front: seq<Entry>, last: Entry)
    ensures UniqueKeys(front + [last]) <==> UniqueKeys(front) && last.key !in Keys(front)
  {
    var es := front + [last];
    if UniqueKeys(es) {
      forall i, j | 0 <= i < j < |front| ensures front[i].key != front[j].key {
        assert es[i] == front[i] && es[j] == front[j];
      }
      forall e | e in front ensures e.key != last.key {
        var i :| 0 <= i < |front| && front[i] == e;
        assert es[i] == e && es[|front|] == last;
      }
    }
    if UniqueKeys(front) && last.key !in Keys(front) {
      forall i, j | 0 <= i < j < |es| ensures es[i].key != es[j].key {
        assert es[i] == front[i] && es[i] in front;
      }
    }
  }

  /** Reordering entries keeps their keys pairwise distinct: distinctness is counted. */
  lemma {:induction false} UniqueByCount(es: seq<Entry>)
    ensures UniqueKeys(es) <==> |Keys(es)| == |es|
    ensures |Keys(es)| <= |es|
  {
    if es == [] {
      assert Keys(es) == {};
    } else {
      var front, last := es[..|es| - 1], es[|es| - 1];
      UniqueByCount(front);
      UniquePush(front, last);
      assert es == front + [last];
      assert Keys(es) == Keys(front) + {last.key};
    }
  }

  lemma SortUnique(le: KeyOrder, es: seq<Entry>)
    requires UniqueKeys(es)
    ensures UniqueKeys(SortByKey(le, es))
  {
    UniqueByCount(es);
    SortKeys(le, es);
    UniqueByCount(SortByKey(le, es));
  }

  /** A strictly sorted list is determined by its set of keys. */
  lemma {:induction false} SortedKeysDetermined(le: KeyOrder, a: seq<Entry>, b: seq<Entry>)
    requires TotalOrder(le) && Sorted(le, a) && Sorted(le, b) && UniqueKeys(a) && UniqueKeys(b)
    requires Keys(a) == Keys(b)
    ensures |a| == |b| && forall i :: 0 <= i < |a| ==> a[i].key == b[i].key
  {
    UniqueByCount(a);
    UniqueByCount(b);
    if a != [] {
      assert a[0].key in Keys(b) && b[0].key in Keys(a);
      assert le(a[0].key, b[0].key) && le(b[0].key, a[0].key);
      TailKeys(a);
      TailKeys(b);
      SortedKeysDetermined(le, a[1..], b[1..]);
    }
  }

  lemma TailKeys(a: seq<Entry>)
    requires a != [] && UniqueKeys(a)
    ensures Keys(a[1..]) == Keys(a) - {a[0].key}
  {
    assert a == [a[0]] + a[1..];
  }

  lemma {:induction false} SortIdentity(le: KeyOrder, es: seq<Entry>)
    requires Sorted(le, es)
    ensures SortByKey(le, es) == es
  {
    if es != [] {
      SortIdentity(le, es[1..]);
    }
  }

  // ------------------------------------------------------------------ equivalence

  /** Equal but for the order of object keys, at any depth; array order counts. */
  predicate SameUpToKeyOrder(a: Json, b: Json) {
    match (a, b)
    case (Arr(xs), Arr(ys)) => |xs| == |ys| && forall i :: 0 <= i < |xs| ==> SameUpToKeyOrder(xs[i], ys[i])
    case (Obj(es), Obj(fs)) =>
      && Keys(es) == Keys(fs)
      && forall i, j :: 0 <= i < |es| && 0 <= j < |fs| && es[i].key == fs[j].key ==>
        SameUpToKeyOrder(es[i].value, fs[j].value)
    case _ => a == b
  }

  lemma SortedEntry(le: KeyOrder, es: seq<Entry>, i: nat) returns (k: nat)
    requires i < |es|
    ensures k < |SortByKey(le, es)| && SortByKey(le, es)[k] == es[i]
  {
    SameElements(SortByKey(le, es), es, es[i]);
    k :| 0 <= k < |SortByKey(le, es)| && SortByKey(le, es)[k] == es[i];
  }

  lemma UnsortedEntry(le: KeyOrder, es: seq<Entry>, k: nat) returns (i: nat)
    requires k < |es|
    ensures i < |es| && SortByKey(le, es)[k] == es[i]
  {
    var e := SortByKey(le, es)[k];
    SameElements(SortByKey(le, es), es, e);
    i :| 0 <= i < |es| && es[i] == e;
  }

  /** The k-th entry of a canonical object. */
  lemma CanonicalEntry(le: KeyOrder, es: seq<Entry>, k: nat)
    requires k < |es|
    ensures |Canonical(le, Obj(es)).entries| == |es|
    ensures Canonical(le, Obj(es)).entries[k]
      == Entry(SortByKey(le, es)[k].key, Canonical(le, SortByKey(le, es)[k].value))
  {
  }

  /** Objects with equal canonical forms have equal keys, position by position. */
  lemma EqualFormsSameKeys(le: KeyOrder, es: seq<Entry>, fs: seq<Entry>)
    requires Canonical(le, Obj(es)) == Canonical(le, Obj(fs))
    ensures |es| == |fs| && Keys(es) == Keys(fs)
    ensures forall k :: 0 <= k < |es| ==> SortByKey(le, es)[k].key == SortByKey(le, fs)[k].key
  {
    var se, sf := SortByKey(le, es), SortByKey(le, fs);
    assert |Canonical(le, Obj(es)).entries| == |es| && |Canonical(le, Obj(fs)).entries| == |fs|;
    forall k | 0 <= k < |es| ensures se[k].key == sf[k].key {
      CanonicalEntry(le, es, k);
      CanonicalEntry(le, fs, k);
    }
    SamePositionsSameKeys(se, sf);
    SortKeys(le, es);
    SortKeys(le, fs);
  }

  /** Equal keys of two such objects carry values with equal canonical forms. */
  lemma EqualFormsSameValues(le: KeyOrder, es: seq<Entry>, fs: seq<Entry>, i: nat, j: nat)
    requires UniqueKeys(fs) && Canonical(le, Obj(es)) == Canonical(le, Obj(fs))
    requires i < |es| && j < |fs| && es[i].key == fs[j].key
    ensures Canonical(le, es[i].value) == Canonical(le, fs[j].value)
  {
    EqualFormsSameKeys(le, es, fs);
    SortUnique(le, fs);
    var k := SortedEntry(le, es, i);
    var m := SortedEntry(le, fs, j);
    var sf := SortByKey(le, fs);
    assert sf[k].key == sf[m].key;
    assert k == m;
    CanonicalEntry(le, es, k);
    CanonicalEntry(le, fs, k);
  }

  lemma {:induction false} EqualFormsAreSame(le: KeyOrder, a: Json, b: Json)
    requires WellFormed(a) && WellFormed(b) && Canonical(le, a) == Canonical(le, b)
    ensures SameUpToKeyOrder(a, b)
    decreases a
  {
    match (a, b)
    case (Arr(xs), Arr(ys)) =>
      var cx, cy := Canonical(le, a).items, Canonical(le, b).items;
      forall i | 0 <= i < |xs| ensures SameUpToKeyOrder(xs[i], ys[i]) {
        assert cx[i] == cy[i];
        EqualFormsAreSame(le, xs[i], ys[i]);
      }
    case (Obj(es), Obj(fs)) =>
      EqualFormsSameKeys(le, es, fs);
      forall i, j | 0 <= i < |es| && 0 <= j < |fs| && es[i].key == fs[j].key
        ensures SameUpToKeyOrder(es[i].value, fs[j].value)
      {
        EqualFormsSameValues(le, es, fs, i, j);
        EqualFormsAreSame(le, es[i].value, fs[j].value);
      }
    case _ =>
  }

  lemma SamePositionsSameKeys(a: seq<Entry>, b: seq<Entry>)
    requires |a| == |b| && forall k :: 0 <= k < |a| ==> a[k].key == b[k].key
    ensures Keys(a) == Keys(b)
  {
    forall key ensures key in Keys(a) <==> key in Keys(b) {
      if key in Keys(a) {
        var k :| 0 <= k < |a| && a[k].key == key;
        assert b[k] in b;
      }
      if key in Keys(b) {
        var k :| 0 <= k < |b| && b[k].key == key;
        assert a[k] in a;
      }
    }
  }

  /** Sorting two objects with the same keys puts equal keys at equal positions. */
  lemma SameKeysSamePositions(le: KeyOrder, es: seq<Entry>, fs: seq<Entry>)
    requires TotalOrder(le) && UniqueKeys(es) && UniqueKeys(fs) && Keys(es) == Keys(fs)
    ensures |es| == |fs|
    ensures forall k :: 0 <= k < |es| ==> SortByKey(le, es)[k].key == SortByKey(le, fs)[k].key
  {
    SortKeys(le, es);
    SortKeys(le, fs);
    SortUnique(le, es);
    SortUnique(le, fs);
    SortSorted(le, es);
    SortSorted(le, fs);
    SortedKeysDetermined(le, SortByKey(le, es), SortByKey(le, fs));
  }

  lemma {:induction false} SameHaveEqualForms(le: KeyOrder, a: Json, b: Json)
    requires TotalOrder(le) && WellFormed(a) && WellFormed(b) && SameUpToKeyOrder(a, b)
    ensures Canonical(le, a) == Canonical(le, b)
    decreases a
  {
    match (a, b)
    case (Arr(xs), Arr(ys)) =>
      var cx, cy := Canonical(le, a).items, Canonical(le, b).items;
      forall i | 0 <= i < |xs| ensures cx[i] == cy[i] {
        SameHaveEqualForms(le, xs[i], ys[i]);
      }
      assert cx == cy;
    case (Obj(es), Obj(fs)) =>
      SameKeysSamePositions(le, es, fs);
      var ce, cf := Canonical(le, a).entries, Canonical(le, b).entries;
      assert |ce| == |es| && |cf| == |fs|;
      forall k | 0 <= k < |es| ensures ce[k] == cf[k] {
        var i := UnsortedEntry(le, es, k);
        var j := UnsortedEntry(le, fs, k);
        SameHaveEqualForms(le, es[i].value, fs[j].value);
        CanonicalEntry(le, es, k);
        CanonicalEntry(le, fs, k);
      }
      assert ce == cf;
    case _ =>
  }

  /** Two values have the same canonical form exactly when they differ only in key order. */
  lemma CanonicalDecides(le: KeyOrder, a: Json, b: Json)
    requires TotalOrder(le) && WellFormed(a) && WellFormed(b)
    ensures Canonical(le, a) == Canonical(le, b) <==> SameUpToKeyOrder(a, b)
  {
    if Canonical(le, a) == Canonical(le, b) {
      EqualFormsAreSame(le, a, b);
    }
    if SameUpToKeyOrder(a, b) {
      SameHaveEqualForms(le, a, b);
    }
  }

  /** The entries of a canonical object are sorted and stay put when sorted again. */
  lemma CanonicalSorted(le: KeyOrder, es: seq<Entry>)
    requires TotalOrder(le) && UniqueKeys(es)
    ensures UniqueKeys(Canonical(le, Obj(es)).entries)
    ensures SortByKey(le, Canonical(le, Obj(es)).entries) == Canonical(le, Obj(es)).entries
  {
    var se, c := SortByKey(le, es), Canonical(le, Obj(es)).entries;
    SortSorted(le, es);
    SortUnique(le, es);
    assert |c| == |se|;
    forall k | 0 <= k < |c| ensures c[k].key == se[k].key {
      CanonicalEntry(le, es, k);
    }
    SortIdentity(le, c);
  }

  /** A canonical form is its own canonical form, and still a well-formed value. */
  lemma {:induction false} CanonicalIdempotent(le: KeyOrder, j: Json)
    requires TotalOrder(le) && WellFormed(j)
    ensures Canonical(le, Canonical(le, j)) == Canonical(le, j)
    ensures WellFormed(Canonical(le, j))
  {
    match j
    case Arr(xs) =>
      var c, cc := Canonical(le, j).items, Canonical(le, Canonical(le, j)).items;
      forall i | 0 <= i < |xs| ensures cc[i] == c[i] && WellFormed(c[i]) {
        CanonicalIdempotent(le, xs[i]);
      }
      assert cc == c;
    case Obj(es) =>
      CanonicalSorted(le, es);
      var c := Canonical(le, j).entries;
      var cc := Canonical(le, Obj(c)).entries;
      assert |cc| == |c| == |es|;
      forall k | 0 <= k < |es| ensures cc[k] == c[k] && WellFormed(c[k].value) {
        var i := UnsortedEntry(le, es, k);
        CanonicalIdempotent(le, es[i].value);
        CanonicalEntry(le, es, k);
        CanonicalEntry(le, c, k);
      }
      assert cc == c;
    case _ =>
  }
}
