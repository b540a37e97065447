/** Failure-carrying wrappers shared by the whole model.
    `Option` stands for the source's `T | null` / `T | undefined` values and
    `Result` for functions that throw an `Error` on bad input. */
module Common {

  datatype Option<+T> = None | Some(value: T) {

    /** The `??` operator: the carried value, or `default` when absent. */
    function GetOr(default: T): T {
      match this
      case Some(v) => v
      case None => default
    }
  }

  datatype Result<+T, +E> = Ok(value: T) | Err(error: E) {

    predicate IsFailure() {
      Err?
    }

    function PropagateFailure<U>(): Result<U, E>
      requires Err?
    {
      Err(error)
    }

    function Extract(): T
      requires Ok?
    {
      value
    }
  }

  /** The defined results of `f` over `xs`, in order: a map that drops the
      elements `f` rejects. */
  function FilterMap<A, B>(f: A -> Option<B>, xs: seq<A>): (r: seq<B>)
    ensures |r| <= |xs|
  {
    if xs == [] then []
    else (match f(xs[0]) case Some(y) => [y] case None => []) + FilterMap(f, xs[1..])
  }

  /** Every result comes from an element `f` accepts, every element `f`
      accepts gives a result, and nothing is left exactly when `f` accepts
      nothing. */
  lemma {:induction false} FilterMapMembers<A, B>(f: A -> Option<B>, xs: seq<A>)
    ensures var r := FilterMap(f, xs);
      && (forall i :: 0 <= i < |r| ==> exists j :: 0 <= j < |xs| && f(xs[j]) == Some(r[i]))
      && (forall j :: 0 <= j < |xs| && f(xs[j]).Some? ==> f(xs[j]).value in r)
      && (r == [] <==> forall j :: 0 <= j < |xs| ==> f(xs[j]).None?)
  {
    if xs != [] {
      FilterMapMembers(f, xs[1..]);
      var head := match f(xs[0]) case Some(y) => [y] case None => [];
      var tail := FilterMap(f, xs[1..]);
      assert FilterMap(f, xs) == head + tail;
      assert forall j :: 1 <= j < |xs| ==> xs[j] == xs[1..][j - 1];
      assert forall i :: |head| <= i < |head + tail| ==> (head + tail)[i] == tail[i - |head|];
    }
  }

  /** A property every accepted value has holds of every result. */
  lemma FilterMapKeeps<A, B>(f: A -> Option<B>, xs: seq<A>, P: B -> bool)
    requires forall x :: f(x).Some? ==> P(f(x).value)
    ensures forall i :: 0 <= i < |FilterMap(f, xs)| ==> P(FilterMap(f, xs)[i])
  {
    var r := FilterMap(f, xs);
    FilterMapMembers(f, xs);
    forall i | 0 <= i < |r|
      ensures P(r[i])
    {
      var j :| 0 <= j < |xs| && f(xs[j]) == Some(r[i]);
    }
  }

  /** The first element is kept exactly when `f` accepts it. */
  lemma FilterMapCons<A, B>(f: A -> Option<B>, xs: seq<A>)
    requires |xs| > 0
    ensures f(xs[0]).Some? ==> FilterMap(f, xs) == [f(xs[0]).value] + FilterMap(f, xs[1..])
    ensures f(xs[0]).None? ==> FilterMap(f, xs) == FilterMap(f, xs[1..])
  {
  }

  /** When `f` accepts every element, the results are exactly its values. */
  lemma {:induction false} FilterMapAllAccepted<A, B>(f: A -> Option<B>, xs: seq<A>, ys: seq<B>)
    requires |xs| == |ys|
    requires forall i :: 0 <= i < |xs| ==> f(xs[i]) == Some(ys[i])
    ensures FilterMap(f, xs) == ys
  {
    if xs != [] {
      FilterMapAllAccepted(f, xs[1..], ys[1..]);
      FilterMapCons(f, xs);
    }
  }

  /** A non-empty sequence is its front followed by its last element. */
  lemma FrontLast<T>(s: seq<T>)
    requires s != []
    ensures s[..|s| - 1] + [s[|s| - 1]] == s
  {
  }

  /** One more element adds its image, if it has one, at the end. */
  lemma FilterMapSnoc<A, B>(f: A -> Option<B>, xs: seq<A>, x: A)
    ensures FilterMap(f, xs + [x]) == FilterMap(f, xs) + match f(x) case Some(y) => [y] case None => []
  {
    FilterMapAppend(f, xs, [x]);
    FilterMapCons(f, [x]);
    assert [x][1..] == [];
  }

  /** Filtering keeps order: filtering two runs is filtering each in turn. */
  lemma {:induction false} FilterMapAppend<A, B>(f: A -> Option<B>, a: seq<A>, b: seq<A>)
    ensures FilterMap(f, a + b) == FilterMap(f, a) + FilterMap(f, b)
  {
    if a == [] {
      assert a + b == b;
    } else {
      assert (a + b)[0] == a[0];
      assert (a + b)[1..] == a[1..] + b;
      FilterMapAppend(f, a[1..], b);
    }
  }
}
