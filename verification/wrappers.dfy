/** Failure-carrying values: the model's stand-in for Rust's `Option` and for
    the `panic!`/`unwrap` paths of the puzzle programs. */
module Wrappers {

  datatype Option<+T> = None | Some(value: T) {

    /** The wrapped value, or `default` when there is none (`unwrap_or`). */
    function GetOr(default: T): T {
      match this
      case Some(v) => v
      case None => default
    }
  }

  /** `Ok(value)` or `Err(error)`; an `Err` stands for a panic or an error
      return of the original program. */
  datatype Result<+T, +E> = Ok(value: T) | Err(error: E)

  /** `f` applied to every element and the results collected, as
      `map(..).collect::<Option<Vec<_>>>()` would: `None` as soon as one
      element fails. */
  function MapAll<A, B>(xs: seq<A>, f: A -> Option<B>): (r: Option<seq<B>>)
    ensures r.Some? <==> forall i :: 0 <= i < |xs| ==> f(xs[i]).Some?
    ensures r.Some? ==> |r.value| == |xs| && forall i :: 0 <= i < |xs| ==> f(xs[i]) == Some(r.value[i])
  {
    if xs == [] then Some([])
    else
      var init := xs[..|xs| - 1];
      assert forall i :: 0 <= i < |init| ==> init[i] == xs[i];
      match (MapAll(init, f), f(xs[|xs| - 1]))
      case (Some(ys), Some(y)) => Some(ys + [y])
      case _ => None
  }

  /** One more element that maps successfully extends the collected
      results. */
  lemma MapAllSnoc<A, B>(xs: seq<A>, x: A, f: A -> Option<B>, ys: seq<B>, y: B)
    requires MapAll(xs, f) == Some(ys) && f(x) == Some(y)
    ensures MapAll(xs + [x], f) == Some(ys + [y])
  {
    assert (xs + [x])[..|xs|] == xs;
  }

  /** The same, for the prefixes of one sequence that a loop walks
      through. */
  lemma MapAllPrefix<A, B>(xs: seq<A>, k: nat, f: A -> Option<B>, ys: seq<B>, y: B)
    requires k < |xs| && MapAll(xs[..k], f) == Some(ys) && f(xs[k]) == Some(y)
    ensures MapAll(xs[..k + 1], f) == Some(ys + [y])
  {
    MapAllSnoc(xs[..k], xs[k], f, ys, y);
    assert xs[..k] + [xs[k]] == xs[..k + 1];
  }

  /** Elements that each map to the matching entry of `ys` collect to
      `ys`. */
  lemma MapAllEach<A, B>(xs: seq<A>, f: A -> Option<B>, ys: seq<B>)
    requires |xs| == |ys| && forall i :: 0 <= i < |xs| ==> f(xs[i]) == Some(ys[i])
    ensures MapAll(xs, f) == Some(ys)
  {
    var r := MapAll(xs, f);
    assert r.Some?;
    assert r.value == ys;
  }

  /** The map that results from inserting the entries in order, as a loop
      of `HashMap::insert` calls builds it: a later value for a key
      replaces an earlier one. */
  function InsertAll<K, V>(entries: seq<(K, V)>): map<K, V> {
    if entries == [] then map[]
    else
      var last := entries[|entries| - 1];
      InsertAll(entries[..|entries| - 1])[last.0 := last.1]
  }

  /** Inserting one more entry. */
  lemma InsertAllSnoc<K, V>(entries: seq<(K, V)>, k: K, v: V)
    ensures InsertAll(entries + [(k, v)]) == InsertAll(entries)[k := v]
  {
    assert (entries + [(k, v)])[..|entries|] == entries;
  }

  /** The keys of the map are exactly the keys of the entries. */
  lemma {:induction false} InsertAllKeys<K, V>(entries: seq<(K, V)>)
    ensures InsertAll(entries).Keys == set i | 0 <= i < |entries| :: entries[i].0
  {
    if entries != [] {
      var init := entries[..|entries| - 1];
      InsertAllKeys(init);
      assert forall i :: 0 <= i < |init| ==> init[i] == entries[i];
    }
  }

  /** A key's value is the one of its last entry. */
  lemma {:induction false} InsertAllLast<K, V>(entries: seq<(K, V)>, i: nat)
    requires i < |entries|
    requires forall j :: i < j < |entries| ==> entries[j].0 != entries[i].0
    ensures entries[i].0 in InsertAll(entries) && InsertAll(entries)[entries[i].0] == entries[i].1
    decreases |entries|
  {
    var init := entries[..|entries| - 1];
    if i < |entries| - 1 {
      assert init[i] == entries[i];
      InsertAllLast(init, i);
    }
  }

  /** The loop that parses item after item and pushes each result, giving
      up on the first failure: it computes `MapAll`. */
  method CollectAll<A, B>(xs: seq<A>, f: A -> Option<B>) returns (r: Option<seq<B>>)
    ensures r == MapAll(xs, f)
  {
    var collected: seq<B> := [];
    for k := 0 to |xs|
      invariant MapAll(xs[..k], f) == Some(collected)
    {
      var item := f(xs[k]);
      if item.None? {
        return None;
      }
      MapAllPrefix(xs, k, f, collected, item.value);
      collected := collected + [item.value];
    }
    assert xs[..|xs|] == xs;
    r := Some(collected);
  }
}
