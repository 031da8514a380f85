/** The fork-join helpers: one goroutine per element, finishing in any order. `order` lists the
    elements by completion; the results must not depend on it. */
module ForkJoin {
  import opened Sequences
  import opened Wrappers

  /** One error by itself, or several wrapped together. */
  datatype Aggregate<+E> = Single(error: E) | Multi(errors: seq<E>)

  /** Every index below n exactly once. */
  ghost predicate IsOrder(order: seq<nat>, n: nat) {
    && |order| == n
    && (forall i :: 0 <= i < n ==> order[i] < n)
    && DuplicateFree(order)
  }

  // ---------- The sequential meaning ----------

  function NonNil<E>(errs: seq<Option<E>>): seq<E> {
    if errs == [] then []
    else NonNil(errs[..|errs| - 1]) + match errs[|errs| - 1] case Some(e) => [e] case None => []
  }

  function AggregateOf<E>(errors: seq<E>): Option<Aggregate<E>> {
    if errors == [] then None else if |errors| == 1 then Some(Single(errors[0])) else Some(Multi(errors))
  }

  /** The errors of applying f, in input order. */
  function Errors<T, U, E>(input: seq<T>, f: T -> Result<U, E>): seq<E> {
    if input == [] then []
    else Errors(input[..|input| - 1], f) + match f(input[|input| - 1]) case Failure(e) => [e] case Success(_) => []
  }

  /** A single error stands by itself; more are kept in their order. */
  ghost predicate IsAggregateOf<E>(a: Aggregate<E>, errors: seq<E>) {
    if |errors| == 1 then a == Single(errors[0]) else a == Multi(errors)
  }

  /** Applying f to every element in turn. */
  function Values<T, U, E>(input: seq<T>, f: T -> Result<U, E>): (r: seq<U>)
    requires forall x :: x in input ==> f(x).Success?
    ensures |r| == |input|
  {
    seq(|input|, i requires 0 <= i < |input| => f(input[i]).value)
  }

  /** The kept values of a filtering f, in input order. */
  function Kept<T, U, E>(input: seq<T>, f: T -> Result<Option<U>, E>): seq<U> {
    if input == [] then []
    else
      Kept(input[..|input| - 1], f) +
      match f(input[|input| - 1])
      case Success(Some(v)) => [v]
      case _ => []
  }

  // ---------- Picking in order ----------

  /** r holds what chosen gives for the elements it gives something for, and at where these stand,
      in order. */
  ghost predicate Picks<T, U>(from: seq<T>, chosen: T -> Option<U>, at: seq<nat>, r: seq<U>) {
    && |at| == |r|
    && (forall k :: 0 <= k < |at| ==> at[k] < |from| && chosen(from[at[k]]) == Some(r[k]))
    && (forall k, l :: 0 <= k < l < |at| ==> at[k] < at[l])
    && (forall i :: 0 <= i < |from| ==> (i in at <==> chosen(from[i]).Some?))
  }

  lemma PicksGrow<T, U>(from: seq<T>, chosen: T -> Option<U>, at: seq<nat>, r: seq<U>, last: T)
    requires Picks(from, chosen, at, r)
    ensures chosen(last).None? ==> Picks(from + [last], chosen, at, r)
    ensures chosen(last).Some? ==> Picks(from + [last], chosen, at + [|from|], r + [chosen(last).value])
  {
    var more := from + [last];
    forall i | 0 <= i < |more|
      ensures chosen(more[i]).Some? <==> i in at || (i == |from| && chosen(last).Some?)
    {
      assert i < |from| ==> more[i] == from[i];
    }
  }

  /** The errors of a map are those of the failing elements, in their order. */
  lemma {:induction false} ErrorsArePicked<T, U, E>(input: seq<T>, f: T -> Result<U, E>) returns (at: seq<nat>)
    ensures Picks(input, x => if f(x).Failure? then Some(f(x).error) else None, at, Errors(input, f))
  {
    var chosen := x => if f(x).Failure? then Some(f(x).error) else None;
    at := [];
    if input != [] {
      var front, last := input[..|input| - 1], input[|input| - 1];
      at := ErrorsArePicked(front, f);
      assert input == front + [last];
      PicksGrow(front, chosen, at, Errors(front, f), last);
      at := at + if f(last).Failure? then [|front|] else [];
    }
  }

  /** What a filtering map keeps are the values it gave, in the order of their elements. */
  lemma {:induction false} KeptArePicked<T, U, E>(input: seq<T>, f: T -> Result<Option<U>, E>) returns (at: seq<nat>)
    ensures Picks(input, x => if f(x).Success? then f(x).value else None, at, Kept(input, f))
  {
    var chosen := x => if f(x).Success? then f(x).value else None;
    at := [];
    if input != [] {
      var front, last := input[..|input| - 1], input[|input| - 1];
      at := KeptArePicked(front, f);
      assert input == front + [last];
      PicksGrow(front, chosen, at, Kept(front, f), last);
      at := at + if f(last).Success? && f(last).value.Some? then [|front|] else [];
    }
  }

  /** Aggregating skips the empty slots and keeps the order of the others. */
  lemma {:induction false} NonNilArePicked<E>(errs: seq<Option<E>>) returns (at: seq<nat>)
    ensures Picks(errs, e => e, at, NonNil(errs))
  {
    at := [];
    if errs != [] {
      var front, last := errs[..|errs| - 1], errs[|errs| - 1];
      at := NonNilArePicked(front);
      assert errs == front + [last];
      PicksGrow(front, e => e, at, NonNil(front), last);
      at := at + if last.Some? then [|front|] else [];
    }
  }

  // ---------- Map ----------

  method AggregateErrors<E>(errs: seq<Option<E>>) returns (r: Option<Aggregate<E>>)
    ensures r == AggregateOf(NonNil(errs))
    ensures r.None? <==> NonNil(errs) == []
    ensures r.Some? ==> IsAggregateOf(r.value, NonNil(errs))
  {
    var nonNil: seq<E> := [];
    for i := 0 to |errs|
      invariant nonNil == NonNil(errs[..i])
    {
      assert errs[..i + 1][..i] == errs[..i];
      if errs[i].Some? {
        nonNil := nonNil + [errs[i].value];
      }
    }
    assert errs[..|errs|] == errs;
    if |nonNil| == 0 {
      return None;
    }
    if |nonNil| == 1 {
      return Some(Single(nonNil[0]));
    }
    return Some(Multi(nonNil));
  }

  /** What goroutine i leaves in the error slots. */
  function ErrorOf<T, U, E>(f: T -> Result<U, E>, x: T): Option<E> {
    match f(x) case Failure(e) => Some(e) case Success(_) => None
  }

  lemma {:induction false} SlotsHoldErrors<T, U, E>(input: seq<T>, f: T -> Result<U, E>, errs: seq<Option<E>>)
    requires |errs| == |input| && forall i :: 0 <= i < |input| ==> errs[i] == ErrorOf(f, input[i])
    ensures NonNil(errs) == Errors(input, f)
    ensures Errors(input, f) == [] <==> forall x :: x in input ==> f(x).Success?
  {
    if input != [] {
      var n := |input| - 1;
      SlotsHoldErrors(input[..n], f, errs[..n]);
      assert input == input[..n] + [input[n]];
    }
  }

  /** An order without repetition that is as long as the range covers the range. */
  lemma {:induction false} OrderCovers(order: seq<nat>, n: nat, x: nat)
    requires IsOrder(order, n) && x < n
    ensures x in order
  {
    var seen := set i | 0 <= i < n :: order[i];
    DistinctCount(order, n);
    RangeCount(n);
    if x !in order {
      assert seen <= Range(n) - {x};
      SubsetCount(seen, Range(n) - {x});
      assert false;
    }
  }

  ghost function Range(n: nat): (r: set<nat>)
    ensures forall i: nat :: i in r <==> i < n
  {
    if n == 0 then {} else Range(n - 1) + {n - 1}
  }

  lemma {:induction false} RangeCount(n: nat)
    ensures |Range(n)| == n
  {
    if n > 0 {
      RangeCount(n - 1);
    }
  }

  lemma {:induction false} DistinctCount(order: seq<nat>, n: nat)
    requires n <= |order| && forall i, j :: 0 <= i < j < n ==> order[i] != order[j]
    ensures |(set i | 0 <= i < n :: order[i])| == n
  {
    if n > 0 {
      DistinctCount(order, n - 1);
      var front, all := set i | 0 <= i < n - 1 :: order[i], set i | 0 <= i < n :: order[i];
      assert all == front + {order[n - 1]};
    }
  }

  lemma {:induction false} SubsetCount(a: set<nat>, b: set<nat>)
    requires a <= b
    ensures |a| <= |b|
  {
    if a != {} {
      var x :| x in a;
      SubsetCount(a - {x}, b - {x});
    }
  }

  /** Map: for every completion order, the sequential map, or the aggregate of all errors in
      input order. */
  method Map<T, U(0), E>(input: seq<T>, f: T -> Result<U, E>, order: seq<nat>) returns (r: Result<seq<U>, Aggregate<E>>)
    requires IsOrder(order, |input|)
    ensures r.Success? <==> forall x :: x in input ==> f(x).Success?
    ensures r.Success? ==> r.value == Values(input, f)
    ensures r.Success? ==>
      |r.value| == |input| && forall i :: 0 <= i < |input| ==> f(input[i]) == Success(r.value[i])
    ensures r.Failure? ==> Some(r.error) == AggregateOf(Errors(input, f)) && IsAggregateOf(r.error, Errors(input, f))
  {
    if |input| == 0 {
      return Success([]);
    }
    var results := new U[|input|];
    var errs := new Option<E>[|input|](_ => None);
    for k := 0 to |order|
      invariant forall j :: 0 <= j < k ==> errs[order[j]] == ErrorOf(f, input[order[j]])
      invariant forall j :: 0 <= j < k && f(input[order[j]]).Success? ==> results[order[j]] == f(input[order[j]]).value
      invariant forall j :: k <= j < |order| ==> errs[order[j]] == None
    {
      var i := order[k];
      match f(input[i]) {
        case Failure(e) => errs[i] := Some(e);
        case Success(v) => results[i] := v;
      }
    }
    forall i | 0 <= i < |input|
      ensures errs[i] == ErrorOf(f, input[i]) && (f(input[i]).Success? ==> results[i] == f(input[i]).value)
    {
      OrderCovers(order, |input|, i);
    }
    SlotsHoldErrors(input, f, errs[..]);
    var aggregated := AggregateErrors(errs[..]);
    if aggregated.Some? {
      return Failure(aggregated.value);
    }
    return Success(results[..]);
  }

  // ---------- FilterMap ----------

  /** What one element adds to the error channel. */
  function ErrorItems<T, U, E>(f: T -> Result<U, E>, x: T): seq<E> {
    match f(x) case Failure(e) => [e] case Success(_) => []
  }

  ghost predicate Indices<T>(input: seq<T>, order: seq<nat>) {
    forall i :: 0 <= i < |order| ==> order[i] < |input|
  }

  /** The errors in completion order. */
  function ErrorsInOrder<T, U, E>(input: seq<T>, f: T -> Result<U, E>, order: seq<nat>): seq<E>
    requires Indices(input, order)
  {
    if order == [] then []
    else ErrorsInOrder(input, f, order[..|order| - 1]) + ErrorItems(f, input[order[|order| - 1]])
  }

  lemma ErrorsSnoc<T, U, E>(input: seq<T>, f: T -> Result<U, E>, order: seq<nat>, i: nat)
    requires Indices(input, order) && i < |input|
    ensures ErrorsInOrder(input, f, order + [i]) == ErrorsInOrder(input, f, order) + ErrorItems(f, input[i])
  {
    assert (order + [i])[..|order|] == order;
  }

  lemma RemoveAtOfSnoc(front: seq<nat>, last: nat, p: nat)
    requires p < |front|
    ensures RemoveAt(front + [last], p) == RemoveAt(front, p) + [last]
  {
  }

  lemma {:induction false} ErrorsWithoutOne<T, U, E>(input: seq<T>, f: T -> Result<U, E>, order: seq<nat>, p: nat)
    requires p < |order| && Indices(input, order)
    ensures Indices(input, RemoveAt(order, p))
    ensures multiset(ErrorsInOrder(input, f, order)) ==
      multiset(ErrorsInOrder(input, f, RemoveAt(order, p))) + multiset(ErrorItems(f, input[order[p]]))
  {
    var front, last := order[..|order| - 1], order[|order| - 1];
    assert order == front + [last];
    ErrorsSnoc(input, f, front, last);
    if p == |front| {
      assert RemoveAt(order, p) == front;
    } else {
      ErrorsWithoutOne(input, f, front, p);
      RemoveAtOfSnoc(front, last, p);
      ErrorsSnoc(input, f, RemoveAt(front, p), last);
      MoveToEnd(ErrorsInOrder(input, f, front), ErrorsInOrder(input, f, RemoveAt(front, p)),
                ErrorItems(f, input[order[p]]), ErrorItems(f, input[last]));
    }
  }

  lemma MoveToEnd<E>(a: seq<E>, b: seq<E>, moved: seq<E>, last: seq<E>)
    requires multiset(a) == multiset(b) + multiset(moved)
    ensures multiset(a + last) == multiset(b + last) + multiset(moved)
  {
  }

  /** The last index of the range is somewhere in an order; without it, an order of the rest is
      left. */
  lemma OrderOfRest(order: seq<nat>, n: nat) returns (p: nat)
    requires n > 0 && IsOrder(order, n)
    ensures p < n && order[p] == n - 1 && IsOrder(RemoveAt(order, p), n - 1)
  {
    OrderCovers(order, n, n - 1);
    p :| 0 <= p < n && order[p] == n - 1;
    var rest := RemoveAt(order, p);
    forall i | 0 <= i < n - 1 ensures rest[i] < n - 1 {
      var at := if i < p then i else i + 1;
      assert rest[i] == order[at] && order[at] < n;
      assert at < p || p < at;
    }
  }

  lemma ErrorsOfPrefix<T, U, E>(input: seq<T>, f: T -> Result<U, E>, n: nat)
    requires 0 < n <= |input|
    ensures multiset(Errors(input[..n], f)) == multiset(Errors(input[..n - 1], f)) +
      multiset(ErrorItems(f, input[n - 1]))
  {
    assert input[..n][..n - 1] == input[..n - 1];
  }

  /** Taking the last index out of an order takes its errors out of those that arrive. */
  lemma TakeOutLast<T, U, E>(input: seq<T>, f: T -> Result<U, E>, order: seq<nat>, n: nat) returns (rest: seq<nat>)
    requires 0 < n <= |input| && IsOrder(order, n)
    ensures IsOrder(rest, n - 1)
    ensures multiset(ErrorsInOrder(input, f, order)) ==
      multiset(ErrorsInOrder(input, f, rest)) + multiset(ErrorItems(f, input[n - 1]))
  {
    var p := OrderOfRest(order, n);
    ErrorsWithoutOne(input, f, order, p);
    rest := RemoveAt(order, p);
  }

  /** Whatever the completion order, the same errors arrive. */
  lemma {:induction false} SameErrorsInAnyOrder<T, U, E>(input: seq<T>, f: T -> Result<U, E>, order: seq<nat>, n: nat)
    requires n <= |input| && IsOrder(order, n)
    ensures multiset(ErrorsInOrder(input, f, order)) == multiset(Errors(input[..n], f))
    decreases n
  {
    if n == 0 {
      assert order == [] && input[..n] == [];
    } else {
      var rest := TakeOutLast(input, f, order, n);
      SameErrorsInAnyOrder(input, f, rest, n - 1);
      ErrorsOfPrefix(input, f, n);
    }
  }

  /** A full error channel or an empty one tells whether every element succeeded. */
  lemma ErrorsTellFailure<T, U, E>(input: seq<T>, f: T -> Result<U, E>, order: seq<nat>)
    requires IsOrder(order, |input|)
    ensures multiset(ErrorsInOrder(input, f, order)) == multiset(Errors(input, f))
    ensures ErrorsInOrder(input, f, order) == [] <==> forall x :: x in input ==> f(x).Success?
  {
    SameErrorsInAnyOrder(input, f, order, |input|);
    assert input[..|input|] == input;
    NoErrorsIffAllSucceed(input, f);
    var sent, expected := ErrorsInOrder(input, f, order), Errors(input, f);
    assert |multiset(sent)| == |sent| && |multiset(expected)| == |expected|;
  }

  /** What the goroutines leave in the result channel when element i is done for every i in done. */
  ghost predicate ResultsSent<T, U, E>(input: seq<T>, f: T -> Result<Option<U>, E>, done: seq<nat>,
                                       channel: seq<(nat, U)>) {
    && (forall c :: c in channel ==> c.0 in done && c.0 < |input| && f(input[c.0]) == Success(Some(c.1)))
    && (forall i :: i in done && i < |input| && f(input[i]).Success? && f(input[i]).value.Some? ==>
          (i, f(input[i]).value.value) in channel)
  }

  /** The goroutines, each sending to one of the two channels as it finishes. */
  method SendAll<T, U, E>(input: seq<T>, f: T -> Result<Option<U>, E>, order: seq<nat>)
    returns (resultsChan: seq<(nat, U)>, errsChan: seq<E>)
    requires IsOrder(order, |input|)
    ensures errsChan == ErrorsInOrder(input, f, order)
    ensures ResultsSent(input, f, order, resultsChan)
  {
    resultsChan, errsChan := [], [];
    for k := 0 to |order|
      invariant errsChan == ErrorsInOrder(input, f, order[..k])
      invariant ResultsSent(input, f, order[..k], resultsChan)
    {
      assert order[..k + 1][..k] == order[..k];
      assert order[..k + 1] == order[..k] + [order[k]];
      var i := order[k];
      match f(input[i]) {
        case Failure(e) => errsChan := errsChan + [e];
        case Success(Some(v)) => resultsChan := resultsChan + [(i, v)];
        case Success(None) =>
      }
    }
    assert order[..|order|] == order;
  }

  /** FilterMap: for every completion order, exactly the sequentially kept values in input order,
      or, if anything failed, an aggregate of exactly the sequential errors in some order. */
  method FilterMap<T, U, E>(input: seq<T>, f: T -> Result<Option<U>, E>, order: seq<nat>)
      returns (r: Result<seq<U>, Aggregate<E>>)
    requires IsOrder(order, |input|)
    ensures r.Success? <==> forall x :: x in input ==> f(x).Success?
    ensures r.Success? ==> r.value == Kept(input, f)
    ensures r.Failure? ==>
      exists errors :: IsAggregateOf(r.error, errors) && multiset(errors) == multiset(Errors(input, f))
  {
    if |input| == 0 {
      return Success([]);
    }
    var resultsChan, errsChan := SendAll(input, f, order);
    ErrorsTellFailure(input, f, order);
    if |errsChan| > 0 {
      var slots := seq(|errsChan|, i requires 0 <= i < |errsChan| => Some(errsChan[i]));
      NonNilOfSomes(errsChan);
      var aggregated := AggregateErrors(slots);
      assert IsAggregateOf(aggregated.value, errsChan);
      return Failure(aggregated.value);
    }
    var byIndex := ByIndex(resultsChan);
    var results := CollectInOrder(input, f, order, resultsChan, byIndex);
    return Success(results);
  }

  lemma {:induction false} NoErrorsIffAllSucceed<T, U, E>(input: seq<T>, f: T -> Result<U, E>)
    ensures Errors(input, f) == [] <==> forall x :: x in input ==> f(x).Success?
  {
    if input != [] {
      NoErrorsIffAllSucceed(input[..|input| - 1], f);
      assert input == input[..|input| - 1] + [input[|input| - 1]];
    }
  }

  lemma {:induction false} NonNilOfSomes<E>(errors: seq<E>)
    ensures NonNil(seq(|errors|, i requires 0 <= i < |errors| => Some(errors[i]))) == errors
  {
    var slots := seq(|errors|, i requires 0 <= i < |errors| => Some(errors[i]));
    if errors != [] {
      var front := errors[..|errors| - 1];
      NonNilOfSomes(front);
      assert slots[..|errors| - 1] == seq(|front|, i requires 0 <= i < |front| => Some(front[i]));
    }
  }

  /** The loop filling resultsMap. */
  method ByIndex<U>(channel: seq<(nat, U)>) returns (m: map<nat, U>)
    ensures forall i :: i in m <==> exists c :: c in channel && c.0 == i
    ensures forall i :: i in m ==> (i, m[i]) in channel
  {
    m := map[];
    for k := 0 to |channel|
      invariant forall i :: i in m <==> exists c :: c in channel[..k] && c.0 == i
      invariant forall i :: i in m ==> (i, m[i]) in channel[..k]
    {
      assert channel[..k + 1] == channel[..k] + [channel[k]];
      m := m[channel[k].0 := channel[k].1];
    }
    assert channel[..|channel|] == channel;
  }

  method CollectInOrder<T, U, E>(input: seq<T>, f: T -> Result<Option<U>, E>, ghost order: seq<nat>,
                                 ghost channel: seq<(nat, U)>, byIndex: map<nat, U>) returns (results: seq<U>)
    requires IsOrder(order, |input|)
    requires ResultsSent(input, f, order, channel)
    requires forall i :: i in byIndex <==> exists c :: c in channel && c.0 == i
    requires forall i :: i in byIndex ==> (i, byIndex[i]) in channel
    ensures results == Kept(input, f)
  {
    results := [];
    for i := 0 to |input|
      invariant results == Kept(input[..i], f)
    {
      assert input[..i + 1][..i] == input[..i];
      OrderCovers(order, |input|, i);
      if i in byIndex {
        results := results + [byIndex[i]];
      }
    }
    assert input[..|input|] == input;
  }
}
