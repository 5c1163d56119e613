/** Sequence facts shared by the queue, broker and protocol models. */
module Sequences {

  /** The elements of q that satisfy p, in order. */
  function Filter<T>(p: T -> bool, q: seq<T>): (r: seq<T>)
    ensures forall x :: x in r ==> x in q && p(x)
    ensures forall x :: x in q && p(x) ==> x in r
  {
    if q == [] then []
    else if p(q[0]) then [q[0]] + Filter(p, q[1..])
    else Filter(p, q[1..])
  }

  lemma FilterFirst<T>(p: T -> bool, q: seq<T>)
    requires q != []
    ensures Filter(p, q) == (if p(q[0]) then [q[0]] else []) + Filter(p, q[1..])
  {
  }

  lemma TailConcat<T>(a: seq<T>, b: seq<T>)
    requires a != []
    ensures (a + b)[0] == a[0] && (a + b)[1..] == a[1..] + b
  {
  }

  lemma Regroup<T>(a: seq<T>, b: seq<T>, c: seq<T>)
    ensures (a + b) + c == a + (b + c)
  {
  }

  lemma {:induction false} FilterConcat<T>(p: T -> bool, a: seq<T>, b: seq<T>)
    ensures Filter(p, a + b) == Filter(p, a) + Filter(p, b)
  {
    if a == [] {
      assert a + b == b;
    } else {
      hide Filter;
      FilterConcat(p, a[1..], b);
      FilterFirst(p, a + b);
      FilterFirst(p, a);
      TailConcat(a, b);
      Regroup(if p(a[0]) then [a[0]] else [], Filter(p, a[1..]), Filter(p, b));
    }
  }

  lemma FilterAppend<T>(p: T -> bool, a: seq<T>, x: T)
    ensures Filter(p, a + [x]) == if p(x) then Filter(p, a) + [x] else Filter(p, a)
  {
    FilterConcat(p, a, [x]);
  }

  function RemoveAt<T>(q: seq<T>, k: nat): (r: seq<T>)
    requires k < |q|
    ensures |r| == |q| - 1
  {
    q[..k] + q[k + 1..]
  }

  /** Removing the first match at k takes it off the front of the matches; removing a non-match changes nothing. */
  lemma {:induction false} FilterRemoveAt<T>(p: T -> bool, q: seq<T>, k: nat)
    requires k < |q|
    requires p(q[k]) ==> forall j :: 0 <= j < k ==> !p(q[j])
    ensures Filter(p, q) == (if p(q[k]) then [q[k]] else []) + Filter(p, RemoveAt(q, k))
  {
    if k == 0 {
      assert RemoveAt(q, k) == q[1..];
    } else {
      FilterRemoveAt(p, q[1..], k - 1);
      assert RemoveAt(q, k)[1..] == RemoveAt(q[1..], k - 1);
      FilterFirst(p, q);
      FilterFirst(p, RemoveAt(q, k));
    }
  }

  lemma NoneMatch<T>(f: T -> bool)
    ensures Filter(f, []) == []
  {
  }

  /** Moving the first match from one sequence to the end of another keeps the matches of both together. */
  lemma MovedAcross<T>(f: T -> bool, done: seq<T>, box: seq<T>, k: nat)
    requires k < |box|
    requires Filter(f, box) == (if f(box[k]) then [box[k]] else []) + Filter(f, RemoveAt(box, k))
    ensures Filter(f, done + [box[k]]) + Filter(f, RemoveAt(box, k)) == Filter(f, done) + Filter(f, box)
  {
    hide Filter, RemoveAt;
    FilterAppend(f, done, box[k]);
    Regroup(Filter(f, done), if f(box[k]) then [box[k]] else [], Filter(f, RemoveAt(box, k)));
  }

  lemma RemoveAtMultiset<T>(q: seq<T>, k: nat)
    requires k < |q|
    ensures multiset(q) == multiset(RemoveAt(q, k)) + multiset{q[k]}
  {
    assert q == q[..k] + ([q[k]] + q[k + 1..]);
  }

  lemma MultisetCancel<T>(a: multiset<T>, b: multiset<T>, x: T)
    requires a + multiset{x} == b + multiset{x}
    ensures a == b
  {
    assert a == a + multiset{x} - multiset{x};
    assert b == b + multiset{x} - multiset{x};
  }

  /** What is done and what is left make up all; so they do after some of it was done and more came. */
  lemma SumsShift<T>(done: multiset<T>, left: multiset<T>, all: multiset<T>,
                     taken: multiset<T>, left': multiset<T>, more: multiset<T>)
    requires done + left == all && taken + left' == left + more
    ensures (done + taken) + left' == all + more
  {
    assert (done + taken) + left' == done + (taken + left');
    assert done + (left + more) == (done + left) + more;
  }

  ghost predicate NoDuplicates<T>(q: seq<T>) {
    forall i, j :: 0 <= i < j < |q| ==> q[i] != q[j]
  }

  lemma RemoveAtNoDuplicates<T>(q: seq<T>, k: nat)
    requires k < |q| && NoDuplicates(q)
    ensures NoDuplicates(RemoveAt(q, k))
    ensures forall x :: x in RemoveAt(q, k) <==> x in q && x != q[k]
  {
  }
}
