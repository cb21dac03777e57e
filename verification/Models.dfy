/** Listing the vendor's models: a map, whose iteration order Go leaves open, becomes a list sorted
    by model type. */
module Models {

  datatype Info = Info(name: string, version: string, stage: string, runId: string, inputs: seq<string>)
  datatype Model = Model(modelType: string, info: Info)

  // ---- Go's order on strings ----

  predicate Less(a: string, b: string) {
    b != "" && (a == "" || a[0] < b[0] || (a[0] == b[0] && Less(a[1..], b[1..])))
  }

  lemma {:induction false} LessIsTotal(a: string, b: string)
    ensures Less(a, b) || Less(b, a) || a == b
    ensures !(Less(a, b) && Less(b, a)) && !Less(a, a)
  {
    if a != "" && b != "" {
      LessIsTotal(a[1..], b[1..]);
      LessIsTotal(a[1..], a[1..]);
      assert a == [a[0]] + a[1..] && b == [b[0]] + b[1..];
    } else if a != "" {
      LessIsTotal(a[1..], a[1..]);
    }
  }

  lemma {:induction false} LessIsTransitive(a: string, b: string, c: string)
    requires Less(a, b) && Less(b, c)
    ensures Less(a, c)
  {
    if a != "" && a[0] == b[0] && b[0] == c[0] {
      LessIsTransitive(a[1..], b[1..], c[1..]);
    }
  }

  /** Text order: at the first difference the smaller character decides, and a text comes after its
      own beginnings. */
  lemma {:induction false} LessIff(a: string, b: string)
    ensures Less(a, b) <==>
              exists k: nat :: k <= |a| && k < |b| && a[..k] == b[..k] && (k == |a| || a[k] < b[k])
  {
    if a != "" && b != "" && a[0] == b[0] {
      LessIff(a[1..], b[1..]);
      if Less(a[1..], b[1..]) {
        var j: nat :| j <= |a[1..]| && j < |b[1..]| && a[1..][..j] == b[1..][..j]
                      && (j == |a[1..]| || a[1..][j] < b[1..][j]);
        assert a[..j + 1] == [a[0]] + a[1..][..j] && b[..j + 1] == [b[0]] + b[1..][..j];
      }
      if k: nat :| k <= |a| && k < |b| && a[..k] == b[..k] && (k == |a| || a[k] < b[k]) {
        assert k > 0;
        assert a[1..][..k - 1] == a[..k][1..] && b[1..][..k - 1] == b[..k][1..];
      }
    } else if Less(a, b) {
      assert a[..0] == b[..0];
    } else if k: nat :| k <= |a| && k < |b| && a[..k] == b[..k] && (k == |a| || a[k] < b[k]) {
      SameBeginning(a, b, k);
      assert false;
    }
  }

  lemma SameBeginning(a: string, b: string, k: nat)
    requires k <= |a| && k <= |b| && a[..k] == b[..k]
    ensures k > 0 ==> a[0] == b[0]
  {
    assert k > 0 ==> a[..k][0] == b[..k][0];
  }

  // ---- sort.Slice, by model type ----

  ghost predicate StrictlySorted(ms: seq<Model>) {
    forall i, j | 0 <= i < j < |ms| :: Less(ms[i].modelType, ms[j].modelType)
  }

  function Elements(ms: seq<Model>): set<Model> {
    set m | m in ms
  }

  ghost predicate DistinctTypes(ms: seq<Model>) {
    forall i, j | 0 <= i < j < |ms| :: ms[i].modelType != ms[j].modelType
  }

  /** Where `m` goes in a sorted list. */
  function InsertSorted(ms: seq<Model>, m: Model): seq<Model> {
    if ms == [] || Less(m.modelType, ms[0].modelType) then [m] + ms
    else [ms[0]] + InsertSorted(ms[1..], m)
  }

  lemma {:induction false} InsertKeepsOrder(ms: seq<Model>, m: Model)
    requires StrictlySorted(ms) && forall x | x in ms :: x.modelType != m.modelType
    ensures StrictlySorted(InsertSorted(ms, m))
    ensures Elements(InsertSorted(ms, m)) == Elements(ms) + {m}
    ensures |InsertSorted(ms, m)| == |ms| + 1
  {
    if ms != [] {
      LessIsTotal(m.modelType, ms[0].modelType);
      if Less(m.modelType, ms[0].modelType) {
        forall j | 0 < j < |ms| ensures Less(m.modelType, ms[j].modelType) {
          LessIsTransitive(m.modelType, ms[0].modelType, ms[j].modelType);
        }
      } else {
        var rest := InsertSorted(ms[1..], m);
        InsertKeepsOrder(ms[1..], m);
        forall x | x in rest ensures Less(ms[0].modelType, x.modelType) {
          assert x in Elements(rest);
        }
        assert ms == [ms[0]] + ms[1..];
      }
    }
  }

  /** A set of models with distinct types has one strictly sorted list: position by position, the
      smaller of two first elements would be missing from the other list. */
  lemma {:induction false} SortedListIsUnique(xs: seq<Model>, ys: seq<Model>)
    requires StrictlySorted(xs) && StrictlySorted(ys) && Elements(xs) == Elements(ys)
    ensures xs == ys
    decreases |xs|
  {
    assert xs != [] ==> xs[0] in Elements(ys);
    assert ys != [] ==> ys[0] in Elements(xs);
    if xs != [] && ys != [] {
      HeadsAgree(xs, ys);
      TailElements(xs);
      TailElements(ys);
      SortedListIsUnique(xs[1..], ys[1..]);
      assert xs == [xs[0]] + xs[1..] && ys == [ys[0]] + ys[1..];
    }
  }

  lemma HeadsAgree(xs: seq<Model>, ys: seq<Model>)
    requires StrictlySorted(xs) && StrictlySorted(ys) && Elements(xs) == Elements(ys)
    requires xs != [] && ys != []
    ensures xs[0] == ys[0]
  {
    assert xs[0] in Elements(ys) && ys[0] in Elements(xs);
    var i :| 0 <= i < |ys| && ys[i] == xs[0];
    var j :| 0 <= j < |xs| && xs[j] == ys[0];
    LessIsTotal(xs[0].modelType, ys[0].modelType);
  }

  lemma TailElements(xs: seq<Model>)
    requires StrictlySorted(xs) && xs != []
    ensures Elements(xs[1..]) == Elements(xs) - {xs[0]}
    ensures StrictlySorted(xs[1..])
  {
    LessIsTotal(xs[0].modelType, xs[0].modelType);
    forall m | m in Elements(xs) && m != xs[0] ensures m in Elements(xs[1..]) {
      var i :| 0 <= i < |xs| && xs[i] == m;
      assert xs[1..][i - 1] == m;
    }
    forall m | m in Elements(xs[1..]) ensures m in Elements(xs) && m != xs[0] {
      var i :| 0 <= i < |xs| - 1 && xs[1..][i] == m;
      assert xs[i + 1] == m;
    }
  }

  /** The library's sort, which the types being distinct makes deterministic. */
  method SortByType(ms: seq<Model>) returns (sorted: seq<Model>)
    requires DistinctTypes(ms)
    ensures StrictlySorted(sorted) && Elements(sorted) == Elements(ms) && |sorted| == |ms|
  {
    sorted := [];
    for i := 0 to |ms|
      invariant StrictlySorted(sorted) && |sorted| == i
      invariant Elements(sorted) == Elements(ms[..i])
    {
      forall x | x in sorted ensures x.modelType != ms[i].modelType {
        assert x in Elements(sorted);
      }
      InsertKeepsOrder(sorted, ms[i]);
      assert ms[..i + 1] == ms[..i] + [ms[i]];
      sorted := InsertSorted(sorted, ms[i]);
    }
    assert ms[..|ms|] == ms;
  }

  // ---- ListModels ----

  ghost predicate IsOrderOf(order: seq<string>, loaded: map<string, Info>) {
    && (forall i, j | 0 <= i < j < |order| :: order[i] != order[j])
    && (set t | t in order) == loaded.Keys
  }

  /** What the listing must be: one entry per loaded model, sorted by type. */
  ghost predicate Lists(ms: seq<Model>, loaded: map<string, Info>) {
    && StrictlySorted(ms)
    && Elements(ms) == set t | t in loaded :: Model(t, loaded[t])
  }

  /** `order` is the order in which this run happens to iterate over the map. */
  method ListModels(loaded: map<string, Info>, order: seq<string>) returns (models: seq<Model>)
    requires IsOrderOf(order, loaded)
    ensures Lists(models, loaded)
    ensures |models| == |loaded|
  {
    var collected: seq<Model> := [];
    for i := 0 to |order|
      invariant |collected| == i
      invariant forall j | 0 <= j < i :: order[j] in loaded && collected[j] == Model(order[j], loaded[order[j]])
    {
      assert order[i] in set t | t in order;
      collected := collected + [Model(order[i], loaded[order[i]])];
    }
    models := SortByType(collected);
    CollectedIsAll(loaded, order, collected);
    SizeOfOrder(order);
  }

  lemma CollectedIsAll(loaded: map<string, Info>, order: seq<string>, collected: seq<Model>)
    requires IsOrderOf(order, loaded) && |collected| == |order|
    requires forall j | 0 <= j < |order| :: order[j] in loaded && collected[j] == Model(order[j], loaded[order[j]])
    ensures Elements(collected) == set t | t in loaded :: Model(t, loaded[t])
  {
    forall t | t in loaded ensures Model(t, loaded[t]) in Elements(collected) {
      assert t in set x | x in order;
      var j :| 0 <= j < |order| && order[j] == t;
      assert collected[j] == Model(t, loaded[t]);
    }
  }

  lemma {:induction false} SizeOfOrder(order: seq<string>)
    requires forall i, j | 0 <= i < j < |order| :: order[i] != order[j]
    ensures |set t | t in order| == |order|
  {
    if order != [] {
      SizeOfOrder(order[1..]);
      assert (set t | t in order) == (set t | t in order[1..]) + {order[0]};
    }
  }

  /** The answer is the same for every iteration order. */
  lemma ListingIsUnique(loaded: map<string, Info>, xs: seq<Model>, ys: seq<Model>)
    requires Lists(xs, loaded) && Lists(ys, loaded)
    ensures xs == ys
  {
    SortedListIsUnique(xs, ys);
  }
}
