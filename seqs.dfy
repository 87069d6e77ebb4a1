/**
 * Two list shapes the tokenizer is built from: applying a function to every
 * element (a comprehension over the matches) and keeping the present values of
 * a list of options (the `if` that drops the matches with an empty name).
 */
module Seqs {
  import opened Wrappers

  /** `f` applied to every element of `xs`, in order. */
  function Map<A, B>(f: A -> B, xs: seq<A>): (ys: seq<B>)
    ensures |ys| == |xs|
    ensures forall i :: 0 <= i < |xs| ==> ys[i] == f(xs[i])
  {
    seq(|xs|, i requires 0 <= i < |xs| => f(xs[i]))
  }

  lemma MapAppend<A, B>(f: A -> B, xs: seq<A>, ys: seq<A>)
    ensures Map(f, xs + ys) == Map(f, xs) + Map(f, ys)
  {
    assert forall i :: 0 <= i < |xs| ==> (xs + ys)[i] == xs[i];
    assert forall i :: |xs| <= i < |xs| + |ys| ==> (xs + ys)[i] == ys[i - |xs|];
  }

  /** The values of the `Some` entries of `os`, in order; the `None` entries are dropped. */
  function Values<T>(os: seq<Option<T>>): (vs: seq<T>)
    ensures |vs| <= |os|
  {
    if os == [] then []
    else (if os[0].Some? then [os[0].value] else []) + Values(os[1..])
  }

  lemma {:induction false} ValuesAppend<T>(os: seq<Option<T>>, ps: seq<Option<T>>)
    ensures Values(os + ps) == Values(os) + Values(ps)
  {
    if os == [] {
      assert os + ps == ps;
    } else {
      assert (os + ps)[0] == os[0];
      assert (os + ps)[1..] == os[1..] + ps;
      ValuesAppend(os[1..], ps);
    }
  }

  /** Every value kept comes from a `Some` entry of the list. */
  lemma {:induction false} ValuesFromSomes<T>(os: seq<Option<T>>)
    ensures forall i :: 0 <= i < |Values(os)| ==> Some(Values(os)[i]) in os
  {
    if os != [] {
      ValuesFromSomes(os[1..]);
      var head := if os[0].Some? then [os[0].value] else [];
      assert Values(os) == head + Values(os[1..]);
      forall i | 0 <= i < |Values(os)| ensures Some(Values(os)[i]) in os {
        if i >= |head| {
          var k :| 0 <= k < |os[1..]| && os[1..][k] == Some(Values(os[1..])[i - |head|]);
          assert os[k + 1] == os[1..][k];
        }
      }
    }
  }

  /** A list without `None` entries keeps all its values. */
  lemma {:induction false} ValuesOfSomes<T>(os: seq<Option<T>>)
    requires forall i :: 0 <= i < |os| ==> os[i].Some?
    ensures |Values(os)| == |os|
    ensures forall i :: 0 <= i < |os| ==> Values(os)[i] == os[i].value
  {
    if os != [] {
      ValuesOfSomes(os[1..]);
    }
  }
}
