/** `ModelItem::applyFilters($query, $parameters)`: every registered filter narrows the
    query in registration order, and the titles of the filters that report a truthy one
    are collected in that order. */
module Filters {
  import opened Php
  import opened ModelItem

  /** `Filter::filter($query, $parameters)`: the query state after the filter has
      narrowed it, and the title it reports (null when it is inactive). Filter
      internals are not part of this model. */
  type FilterRun<-Flt, !Q> = (Flt, Q, PhpValue) -> (Q, PhpValue)

  /** The query state once each filter of `fs` has run, in order, starting from `q`. */
  function FinalQuery<Flt, Q>(fs: seq<Flt>, run: FilterRun<Flt, Q>, q: Q, params: PhpValue): Q
    decreases |fs|
  {
    if fs == [] then q
    else FinalQuery(fs[1..], run, run(fs[0], q, params).0, params)
  }

  /** The title each filter of `fs` reports, in order, each seeing the query as the
      filters before it left it. */
  function Reports<Flt, Q>(fs: seq<Flt>, run: FilterRun<Flt, Q>, q: Q, params: PhpValue): (r: seq<PhpValue>)
    ensures |r| == |fs|
    decreases |fs|
  {
    if fs == [] then []
    else [run(fs[0], q, params).1] + Reports(fs[1..], run, run(fs[0], q, params).0, params)
  }

  /** The truthy values of `vs`, in their order. */
  function KeepTruthy(vs: seq<PhpValue>): (r: seq<PhpValue>)
    ensures |r| <= |vs|
    ensures forall v :: v in r <==> v in vs && Truthy(v)
    decreases |vs|
  {
    if vs == [] then []
    else if Truthy(vs[0]) then [vs[0]] + KeepTruthy(vs[1..])
    else KeepTruthy(vs[1..])
  }

  /** Keeping the truthy values of a concatenation keeps those of each part, in order. */
  lemma {:induction false} KeepTruthyConcat(a: seq<PhpValue>, b: seq<PhpValue>)
    ensures KeepTruthy(a + b) == KeepTruthy(a) + KeepTruthy(b)
    decreases |a|
  {
    if a == [] {
      assert a + b == b;
    } else {
      assert (a + b)[0] == a[0];
      assert (a + b)[1..] == a[1..] + b;
      KeepTruthyConcat(a[1..], b);
    }
  }

  /** Running `a + b` is running `a`, then running `b` on the query `a` left. */
  lemma {:induction false} RunConcat<Flt, Q>(a: seq<Flt>, b: seq<Flt>, run: FilterRun<Flt, Q>, q: Q, params: PhpValue)
    ensures FinalQuery(a + b, run, q, params) == FinalQuery(b, run, FinalQuery(a, run, q, params), params)
    ensures Reports(a + b, run, q, params)
            == Reports(a, run, q, params) + Reports(b, run, FinalQuery(a, run, q, params), params)
    decreases |a|
  {
    if a == [] {
      assert a + b == b;
    } else {
      assert (a + b)[0] == a[0];
      assert (a + b)[1..] == a[1..] + b;
      RunConcat(a[1..], b, run, run(a[0], q, params).0, params);
    }
  }

  /** The `i`-th report is what the `i`-th filter returns when called once on the query
      the filters before it produced. */
  lemma ReportAt<Flt, Q>(fs: seq<Flt>, run: FilterRun<Flt, Q>, q: Q, params: PhpValue, i: nat)
    requires i < |fs|
    ensures Reports(fs, run, q, params)[i] == run(fs[i], FinalQuery(fs[..i], run, q, params), params).1
  {
    assert fs == fs[..i] + fs[i..];
    RunConcat(fs[..i], fs[i..], run, q, params);
  }

  /** The titles `applyFilters` returns for a filter list `a + b` are those for `a`
      followed by those for `b` run on the query `a` left. */
  lemma TitlesConcat<Flt, Q>(a: seq<Flt>, b: seq<Flt>, run: FilterRun<Flt, Q>, q: Q, params: PhpValue)
    ensures KeepTruthy(Reports(a + b, run, q, params))
            == KeepTruthy(Reports(a, run, q, params))
               + KeepTruthy(Reports(b, run, FinalQuery(a, run, q, params), params))
  {
    RunConcat(a, b, run, q, params);
    KeepTruthyConcat(Reports(a, run, q, params), Reports(b, run, FinalQuery(a, run, q, params), params));
  }

  /** One more filter: the query it leaves, and its title kept exactly when truthy. */
  lemma StepOnce<Flt, Q>(fs: seq<Flt>, i: nat, run: FilterRun<Flt, Q>, q: Q, params: PhpValue)
    requires i < |fs|
    ensures var (next, title) := run(fs[i], FinalQuery(fs[..i], run, q, params), params);
      && FinalQuery(fs[..i + 1], run, q, params) == next
      && KeepTruthy(Reports(fs[..i + 1], run, q, params))
         == KeepTruthy(Reports(fs[..i], run, q, params)) + (if Truthy(title) then [title] else [])
  {
    var narrowed := FinalQuery(fs[..i], run, q, params);
    var title := run(fs[i], narrowed, params).1;
    assert fs[..i + 1] == fs[..i] + [fs[i]];
    RunConcat(fs[..i], [fs[i]], run, q, params);
    assert Reports([fs[i]], run, narrowed, params) == [title];
    KeepTruthyConcat(Reports(fs[..i], run, q, params), [title]);
    assert KeepTruthy([title]) == if Truthy(title) then [title] else [];
  }

  /** `applyFilters`: the `foreach` over the registered filters. The titles are the
      truthy reports in registration order, never more than there are filters, and
      the query has been narrowed by every filter, reporting or not. */
  method ApplyFilters<Col, Flt, Q>(d: Descriptor<Col, Flt>, run: FilterRun<Flt, Q>, query: Q, params: PhpValue)
    returns (titles: seq<PhpValue>, narrowed: Q)
    ensures titles == KeepTruthy(Reports(d.filters, run, query, params))
    ensures narrowed == FinalQuery(d.filters, run, query, params)
    ensures |titles| <= |d.filters|
    ensures forall t :: t in titles ==> Truthy(t)
  {
    titles := [];
    narrowed := query;
    var i := 0;
    while i < |d.filters|
      invariant 0 <= i <= |d.filters|
      invariant narrowed == FinalQuery(d.filters[..i], run, query, params)
      invariant titles == KeepTruthy(Reports(d.filters[..i], run, query, params))
    {
      var (next, title) := run(d.filters[i], narrowed, params);
      StepOnce(d.filters, i, run, query, params);
      narrowed := next;
      if Truthy(title) {
        titles := titles + [title];
      }
      i := i + 1;
    }
    assert d.filters[..i] == d.filters;
  }
}
