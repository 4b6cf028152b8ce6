/** Generic sequence operations standing for the JavaScript array methods the
    source uses: `filter`, `findIndex`, `splice`, and the forEach-and-push loop
    that keeps the elements a validator accepts. */
module Seqs {
  import opened Wrappers

  /** The elements `f` accepts, converted, in input order: the result of
      `xs.forEach(x => { const y = f(x); if (y) out.push(y); })`. */
  function KeepSome<A, B>(xs: seq<A>, f: A -> Option<B>): (r: seq<B>)
    ensures |r| <= |xs|
  {
    if |xs| == 0 then []
    else
      var last := f(xs[|xs| - 1]);
      KeepSome(xs[..|xs| - 1], f) + (if last.Some? then [last.value] else [])
  }

  /** Keeping survivors distributes over concatenation: the survivors of a
      prefix come first, so the input order is kept. */
  lemma {:induction false} KeepSomeAppend<A, B>(xs: seq<A>, ys: seq<A>, f: A -> Option<B>)
    ensures KeepSome(xs + ys, f) == KeepSome(xs, f) + KeepSome(ys, f)
  {
    if |ys| == 0 {
      assert xs + ys == xs;
    } else {
      var zs := xs + ys;
      assert zs[..|zs| - 1] == xs + ys[..|ys| - 1];
      assert zs[|zs| - 1] == ys[|ys| - 1];
      KeepSomeAppend(xs, ys[..|ys| - 1], f);
    }
  }

  /** An output element is exactly the conversion of some accepted input. */
  lemma {:induction false} KeepSomeMember<A, B>(xs: seq<A>, f: A -> Option<B>, y: B)
    ensures y in KeepSome(xs, f) <==> exists i :: 0 <= i < |xs| && f(xs[i]) == Some(y)
  {
    if |xs| > 0 {
      var init := xs[..|xs| - 1];
      KeepSomeMember(init, f, y);
      if exists i :: 0 <= i < |xs| && f(xs[i]) == Some(y) {
        var i :| 0 <= i < |xs| && f(xs[i]) == Some(y);
        if i < |xs| - 1 {
          assert init[i] == xs[i];
        }
      }
      if exists i :: 0 <= i < |init| && f(init[i]) == Some(y) {
        var i :| 0 <= i < |init| && f(init[i]) == Some(y);
        assert xs[i] == init[i];
      }
    }
  }

  /** One more step of the forEach-and-push loop. */
  lemma KeepSomeStep<A, B>(xs: seq<A>, i: nat, f: A -> Option<B>)
    requires i < |xs|
    ensures KeepSome(xs[..i + 1], f) == KeepSome(xs[..i], f) + (if f(xs[i]).Some? then [f(xs[i]).value] else [])
  {
    assert xs[..i + 1][..i] == xs[..i];
  }

  /** Nothing is dropped when every element is accepted. */
  lemma {:induction false} KeepSomeAll<A, B>(xs: seq<A>, f: A -> Option<B>)
    requires forall i :: 0 <= i < |xs| ==> f(xs[i]).Some?
    ensures |KeepSome(xs, f)| == |xs|
    ensures forall i :: 0 <= i < |xs| ==> KeepSome(xs, f)[i] == f(xs[i]).value
  {
    if |xs| > 0 {
      KeepSomeAll(xs[..|xs| - 1], f);
    }
  }

  /** `xs.filter(p)`. */
  function Filter<A>(xs: seq<A>, p: A -> bool): (r: seq<A>)
    ensures |r| <= |xs|
    ensures forall i :: 0 <= i < |r| ==> r[i] in xs && p(r[i])
    ensures forall i :: 0 <= i < |xs| && p(xs[i]) ==> xs[i] in r
  {
    if |xs| == 0 then []
    else (if p(xs[0]) then [xs[0]] else []) + Filter(xs[1..], p)
  }

  /** `idx` lists, in increasing order, exactly the positions of `xs` whose
      element satisfies `p`, and `r` holds those elements in that order. */
  ghost predicate PositionsOf<A>(idx: seq<nat>, r: seq<A>, xs: seq<A>, p: A -> bool) {
    && |idx| == |r|
    && (forall k :: 0 <= k < |idx| ==> idx[k] < |xs| && r[k] == xs[idx[k]])
    && (forall k, l :: 0 <= k < l < |idx| ==> idx[k] < idx[l])
    && (forall i :: 0 <= i < |xs| ==> (p(xs[i]) <==> i in idx))
  }

  /** `r` is the elements of `xs` that satisfy `p`, each once, in their
      original order. */
  ghost predicate KeptInOrder<A>(r: seq<A>, xs: seq<A>, p: A -> bool) {
    exists idx :: PositionsOf(idx, r, xs, p)
  }

  /** Every position moved one place to the right. */
  function Shifted(idx: seq<nat>): (r: seq<nat>)
    ensures |r| == |idx|
    ensures forall k :: 0 <= k < |idx| ==> r[k] == idx[k] + 1
  {
    seq(|idx|, k requires 0 <= k < |idx| => idx[k] + 1)
  }

  /** The positions `Filter` keeps, in increasing order. */
  function FilterPositions<A>(xs: seq<A>, p: A -> bool): seq<nat>
    decreases |xs|
  {
    if |xs| == 0 then []
    else (if p(xs[0]) then [0] else []) + Shifted(FilterPositions(xs[1..], p))
  }

  /** Putting an element in front of the input shifts the kept positions and
      adds position 0 exactly when the element is kept. */
  lemma PositionsCons<A>(x: A, xs: seq<A>, p: A -> bool, rest: seq<nat>, t: seq<A>)
    requires PositionsOf(rest, t, xs, p)
    ensures PositionsOf((if p(x) then [0] else []) + Shifted(rest),
                        (if p(x) then [x] else []) + t, [x] + xs, p)
  {
    var head: seq<nat> := if p(x) then [0] else [];
    ConsPicks(x, xs, head, (if p(x) then [x] else []), rest, t);
    ConsIncreasing(head, rest);
    ConsMembers(x, xs, p, head, rest);
  }

  lemma ConsPicks<A>(x: A, xs: seq<A>, head: seq<nat>, h: seq<A>, rest: seq<nat>, t: seq<A>)
    requires (head == [] && h == []) || (head == [0] && h == [x])
    requires |rest| == |t|
    requires forall k :: 0 <= k < |rest| ==> rest[k] < |xs| && t[k] == xs[rest[k]]
    ensures var idx := head + Shifted(rest);
      forall k :: 0 <= k < |idx| ==> idx[k] < |[x] + xs| && (h + t)[k] == ([x] + xs)[idx[k]]
  {
    var idx := head + Shifted(rest);
    forall k | 0 <= k < |idx|
      ensures idx[k] < |[x] + xs| && (h + t)[k] == ([x] + xs)[idx[k]]
    {
      if k >= |head| {
        assert idx[k] == rest[k - |head|] + 1;
        assert (h + t)[k] == t[k - |head|];
      }
    }
  }

  lemma ConsIncreasing(head: seq<nat>, rest: seq<nat>)
    requires head == [] || head == [0]
    requires forall k, l :: 0 <= k < l < |rest| ==> rest[k] < rest[l]
    ensures var idx := head + Shifted(rest);
      forall k, l :: 0 <= k < l < |idx| ==> idx[k] < idx[l]
  {
    var idx := head + Shifted(rest);
    forall k, l | 0 <= k < l < |idx|
      ensures idx[k] < idx[l]
    {
      if k >= |head| {
        assert idx[k] == rest[k - |head|] + 1;
      }
      assert idx[l] == rest[l - |head|] + 1;
    }
  }

  lemma ConsMembers<A>(x: A, xs: seq<A>, p: A -> bool, head: seq<nat>, rest: seq<nat>)
    requires head == (if p(x) then [0] else [])
    requires forall i :: 0 <= i < |xs| ==> (p(xs[i]) <==> i in rest)
    ensures var idx := head + Shifted(rest);
      forall i :: 0 <= i < |[x] + xs| ==> (p(([x] + xs)[i]) <==> i in idx)
  {
    var idx := head + Shifted(rest);
    var ys := [x] + xs;
    forall i | 0 <= i < |ys|
      ensures p(ys[i]) <==> i in idx
    {
      if i > 0 {
        assert ys[i] == xs[i - 1];
        if i - 1 in rest {
          var k :| 0 <= k < |rest| && rest[k] == i - 1;
          assert idx[|head| + k] == i;
        }
        if i in idx {
          var k :| 0 <= k < |idx| && idx[k] == i;
          assert k >= |head|;
          assert rest[k - |head|] == i - 1;
        }
      } else if p(x) {
        assert idx[0] == 0;
      } else {
        assert forall k :: 0 <= k < |idx| ==> idx[k] > 0;
      }
    }
  }

  /** `xs.filter(p)` keeps the survivors in their original order. */
  lemma {:induction false} FilterInOrder<A>(xs: seq<A>, p: A -> bool)
    ensures PositionsOf(FilterPositions(xs, p), Filter(xs, p), xs, p)
    ensures KeptInOrder(Filter(xs, p), xs, p)
  {
    if |xs| > 0 {
      FilterInOrder(xs[1..], p);
      PositionsCons(xs[0], xs[1..], p, FilterPositions(xs[1..], p), Filter(xs[1..], p));
      assert [xs[0]] + xs[1..] == xs;
    }
  }

  /** `xs.filter(p)` holds exactly the elements of `xs` that satisfy `p`,
      in their original order. */
  lemma FilterKeeps<A>(xs: seq<A>, p: A -> bool)
    ensures forall x :: x in Filter(xs, p) <==> x in xs && p(x)
    ensures KeptInOrder(Filter(xs, p), xs, p)
  {
    FilterInOrder(xs, p);
    assert forall i :: 0 <= i < |xs| && p(xs[i]) ==> xs[i] in Filter(xs, p);
  }

  /** Filtering keeps a sequence free of duplicates. */
  lemma {:induction false} FilterSubsequence<A>(xs: seq<A>, p: A -> bool)
    requires forall i, j :: 0 <= i < j < |xs| ==> xs[i] != xs[j]
    ensures forall i, j :: 0 <= i < j < |Filter(xs, p)| ==> Filter(xs, p)[i] != Filter(xs, p)[j]
  {
    if |xs| > 0 {
      FilterSubsequence(xs[1..], p);
      var r := Filter(xs, p);
      var t := Filter(xs[1..], p);
      if p(xs[0]) {
        forall i, j | 0 <= i < j < |r| ensures r[i] != r[j] {
          if i == 0 {
            assert r[j] == t[j - 1] && t[j - 1] in xs[1..];
          } else {
            assert r[i] == t[i - 1] && r[j] == t[j - 1];
          }
        }
      }
    }
  }

  /** Filtering distributes over concatenation, so survivors keep their order. */
  lemma {:induction false} FilterAppend<A>(xs: seq<A>, ys: seq<A>, p: A -> bool)
    ensures Filter(xs + ys, p) == Filter(xs, p) + Filter(ys, p)
  {
    if |xs| == 0 {
      assert xs + ys == ys;
    } else {
      assert (xs + ys)[1..] == xs[1..] + ys;
      FilterAppend(xs[1..], ys, p);
    }
  }

  /** Filtering keeps everything when every element passes. */
  lemma {:induction false} FilterAll<A>(xs: seq<A>, p: A -> bool)
    requires forall i :: 0 <= i < |xs| ==> p(xs[i])
    ensures Filter(xs, p) == xs
  {
    if |xs| > 0 {
      FilterAll(xs[1..], p);
    }
  }

  /** `xs.findIndex(p)`, with -1 as `None`. */
  function FindIndex<A>(xs: seq<A>, p: A -> bool): (r: Option<nat>)
    ensures r.Some? ==> r.value < |xs| && p(xs[r.value]) && forall j :: 0 <= j < r.value ==> !p(xs[j])
    ensures r.None? ==> forall j :: 0 <= j < |xs| ==> !p(xs[j])
  {
    if |xs| == 0 then None
    else if p(xs[0]) then Some(0)
    else
      match FindIndex(xs[1..], p)
      case None => None
      case Some(i) => Some(i + 1)
  }

  /** The first index satisfying p is what `FindIndex` returns. */
  lemma {:induction false} FindIndexIs<A>(xs: seq<A>, p: A -> bool, k: nat)
    requires k < |xs| && p(xs[k]) && forall j :: 0 <= j < k ==> !p(xs[j])
    ensures FindIndex(xs, p) == Some(k)
  {
    if k > 0 {
      FindIndexIs(xs[1..], p, k - 1);
    }
  }

  /** `xs.find(p)`. */
  function Find<A>(xs: seq<A>, p: A -> bool): (r: Option<A>)
    ensures r.Some? <==> exists i :: 0 <= i < |xs| && p(xs[i])
    ensures r.Some? ==> r.value in xs && p(r.value)
  {
    match FindIndex(xs, p)
    case None => None
    case Some(i) => Some(xs[i])
  }

  /** `xs.splice(i, 1)`. */
  function RemoveAt<A>(xs: seq<A>, i: nat): (r: seq<A>)
    requires i < |xs|
    ensures |r| == |xs| - 1
    ensures multiset(r) + multiset{xs[i]} == multiset(xs)
  {
    assert xs == xs[..i] + [xs[i]] + xs[i + 1..];
    xs[..i] + xs[i + 1..]
  }

  /** `xs.splice(i, 0, x)`. */
  function InsertAt<A>(xs: seq<A>, i: nat, x: A): (r: seq<A>)
    requires i <= |xs|
    ensures |r| == |xs| + 1 && r[i] == x
    ensures r[..i] == xs[..i] && r[i + 1..] == xs[i..]
  {
    xs[..i] + [x] + xs[i..]
  }
}
