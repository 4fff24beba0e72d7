/** The stacking order of one surface's subsurfaces (libswc/subsurface.c) and the restacking of
    their views (libswc/compositor.c). */
module Stacking {
  import opened Linked

  type Id = nat

  ghost predicate Distinct(s: seq<Id>) {
    forall i, j | 0 <= i < j < |s| :: s[i] != s[j]
  }

  function Without(s: seq<Id>, x: Id): (r: seq<Id>)
    ensures forall y :: y in r <==> y in s && y != x
    ensures x !in s ==> r == s
  {
    if s == [] then [] else (if s[0] == x then [] else [s[0]]) + Without(s[1..], x)
  }

  predicate IsFirst(s: seq<Id>, x: Id, i: nat) {
    i < |s| && s[i] == x && forall k | 0 <= k < i :: s[k] != x
  }

  lemma {:induction false} HasFirst(s: seq<Id>, x: Id)
    requires x in s
    ensures exists i: nat :: IsFirst(s, x, i)
  {
    if s[0] == x {
      assert IsFirst(s, x, 0);
    } else {
      HasFirst(s[1..], x);
      var i: nat :| IsFirst(s[1..], x, i);
      assert IsFirst(s, x, i + 1) by {
        assert forall k | 0 < k < |s| :: s[k] == s[1..][k - 1];
      }
    }
  }

  function IndexOf(s: seq<Id>, x: Id): (i: nat)
    requires x in s
    ensures IsFirst(s, x, i)
  {
    HasFirst(s, x);
    var i :| 0 <= i < |s| && IsFirst(s, x, i);
    i
  }

  function InsertAt(s: seq<Id>, k: nat, x: Id): seq<Id>
    requires k <= |s|
  {
    s[..k] + [x] + s[k..]
  }

  /** Linking `x` on either side of `ref`, on the list `ref` is on. */
  function InsertBefore(s: seq<Id>, ref: Id, x: Id): seq<Id> {
    if ref in s then InsertAt(s, IndexOf(s, ref), x) else s
  }

  function InsertAfter(s: seq<Id>, ref: Id, x: Id): seq<Id> {
    if ref in s then InsertAt(s, IndexOf(s, ref) + 1, x) else s
  }

  // --------------------------------------------- the two pending lists

  /** Pending subsurfaces below and above their parent, both bottom to top; `current` is the order
      the last commit of the parent made effective. */
  datatype Lists = Lists(below: seq<Id>, above: seq<Id>)

  datatype State = State(parent: Id, pending: Lists, current: Lists)

  /** The one sequence the two lists stand for, bottom to top. */
  function Order(parent: Id, l: Lists): seq<Id> {
    l.below + [parent] + l.above
  }

  ghost predicate Valid(s: State) {
    Distinct(Order(s.parent, s.pending))
  }

  predicate ValidSibling(s: State, x: Id, sibling: Id) {
    sibling != x && sibling in Order(s.parent, s.pending)
  }

  function Unlink(l: Lists, x: Id): Lists {
    Lists(Without(l.below, x), Without(l.above, x))
  }

  function PlaceAbove(s: State, x: Id, sibling: Id): State {
    if !ValidSibling(s, x, sibling) then s
    else
      var l := Unlink(s.pending, x);
      s.(pending := if sibling == s.parent then l.(above := [x] + l.above)
                    else Lists(InsertAfter(l.below, sibling, x), InsertAfter(l.above, sibling, x)))
  }

  function PlaceBelow(s: State, x: Id, sibling: Id): State {
    if !ValidSibling(s, x, sibling) then s
    else
      var l := Unlink(s.pending, x);
      s.(pending := if sibling == s.parent then l.(below := l.below + [x])
                    else Lists(InsertBefore(l.below, sibling, x), InsertBefore(l.above, sibling, x)))
  }

  function AddChild(s: State, x: Id): State {
    s.(pending := s.pending.(above := s.pending.above + [x]))
  }

  function RemoveChild(s: State, x: Id): State {
    State(s.parent, Unlink(s.pending, x), Unlink(s.current, x))
  }

  function ParentCommit(s: State): State {
    s.(current := s.pending)
  }

  lemma {:induction false} WithoutConcat(a: seq<Id>, b: seq<Id>, x: Id)
    ensures Without(a + b, x) == Without(a, x) + Without(b, x)
  {
    if a == [] {
      assert a + b == b;
    } else {
      assert (a + b)[1..] == a[1..] + b;
      WithoutConcat(a[1..], b, x);
    }
  }

  lemma {:induction false} WithoutDistinct(s: seq<Id>, x: Id)
    requires Distinct(s)
    ensures Distinct(Without(s, x))
  {
    if s != [] {
      WithoutDistinct(s[1..], x);
      var rest := Without(s[1..], x);
      assert s[0] !in s[1..];
      if s[0] != x {
        assert forall j | 0 < j <= |rest| :: ([s[0]] + rest)[j] == rest[j - 1] && rest[j - 1] in rest;
      }
    }
  }

  /** `ref` occurs, and `x` is the very next element. */
  ghost predicate RightAfter(s: seq<Id>, ref: Id, x: Id) {
    exists i :: 0 <= i < |s| - 1 && s[i] == ref && s[i + 1] == x
  }

  /** The protocol's place_above and place_below: the order of everything else is unchanged and `x`
      is directly above `lower`, or directly below `upper`. */
  ghost predicate MovedAbove(was: seq<Id>, now: seq<Id>, x: Id, lower: Id) {
    Without(now, x) == Without(was, x) && RightAfter(now, lower, x)
  }

  ghost predicate MovedBelow(was: seq<Id>, now: seq<Id>, x: Id, upper: Id) {
    Without(now, x) == Without(was, x) && RightAfter(now, x, upper)
  }

  lemma {:induction false} SplitAt(s: seq<Id>, x: Id) returns (pre: seq<Id>, post: seq<Id>)
    requires x in s
    ensures s == pre + [x] + post && x !in pre
  {
    if s[0] == x {
      pre, post := [], s[1..];
    } else {
      pre, post := SplitAt(s[1..], x);
      pre := [s[0]] + pre;
    }
  }

  lemma IndexAt(pre: seq<Id>, ref: Id, post: seq<Id>)
    requires ref !in pre
    ensures ref in pre + [ref] + post && IndexOf(pre + [ref] + post, ref) == |pre|
  {
    assert IsFirst(pre + [ref] + post, ref, |pre|);
  }

  lemma InsertAfterAt(pre: seq<Id>, ref: Id, post: seq<Id>, x: Id)
    requires ref !in pre
    ensures InsertAfter(pre + [ref] + post, ref, x) == pre + [ref, x] + post
  {
    IndexAt(pre, ref, post);
  }

  lemma InsertBeforeAt(pre: seq<Id>, ref: Id, post: seq<Id>, x: Id)
    requires ref !in pre
    ensures InsertBefore(pre + [ref] + post, ref, x) == pre + [x, ref] + post
  {
    IndexAt(pre, ref, post);
  }

  lemma WithoutMiddle(pre: seq<Id>, mid: seq<Id>, post: seq<Id>, x: Id)
    requires x !in pre && x !in post
    ensures Without(pre + mid + post, x) == pre + Without(mid, x) + post
  {
    WithoutConcat(pre + mid, post, x);
    WithoutConcat(pre, mid, x);
  }

  lemma WithoutPair(ref: Id, x: Id)
    requires ref != x
    ensures Without([ref, x], x) == [ref] && Without([x, ref], x) == [ref]
  {
    WithoutConcat([ref], [x], x);
    WithoutConcat([x], [ref], x);
    assert [ref] + [x] == [ref, x] && [x] + [ref] == [x, ref];
  }

  lemma PairNext(pre: seq<Id>, p: Id, q: Id, post: seq<Id>)
    ensures RightAfter(pre + [p, q] + post, p, q)
  {
    var s := pre + [p, q] + post;
    assert s[|pre|] == p && s[|pre| + 1] == q;
  }

  lemma InsertAfterSpec(s: seq<Id>, ref: Id, x: Id)
    requires x !in s && ref != x && ref in s
    ensures Without(InsertAfter(s, ref, x), x) == s
    ensures RightAfter(InsertAfter(s, ref, x), ref, x)
  {
    var pre, post := SplitAt(s, ref);
    InsertAfterAt(pre, ref, post, x);
    WithoutMiddle(pre, [ref, x], post, x);
    WithoutPair(ref, x);
    PairNext(pre, ref, x, post);
  }

  lemma InsertBeforeSpec(s: seq<Id>, ref: Id, x: Id)
    requires x !in s && ref != x && ref in s
    ensures Without(InsertBefore(s, ref, x), x) == s
    ensures RightAfter(InsertBefore(s, ref, x), x, ref)
  {
    var pre, post := SplitAt(s, ref);
    InsertBeforeAt(pre, ref, post, x);
    WithoutMiddle(pre, [x, ref], post, x);
    WithoutPair(ref, x);
    PairNext(pre, x, ref, post);
  }

  function Elements(s: seq<Id>): (r: set<Id>) {
    set x | x in s
  }

  lemma DistinctInsert(s: seq<Id>, k: nat, x: Id)
    requires Distinct(s) && k <= |s| && x !in s
    ensures Distinct(s[..k] + [x] + s[k..])
  {
    var t := s[..k] + [x] + s[k..];
    forall i, j | 0 <= i < j < |t| ensures t[i] != t[j] {
      assert t[i] == if i < k then s[i] else if i == k then x else s[i - 1];
      assert t[j] == if j < k then s[j] else if j == k then x else s[j - 1];
    }
  }

  lemma DistinctCons(pre: seq<Id>, mid: seq<Id>, post: seq<Id>, x: Id)
    requires Distinct(pre + mid + post) && x !in pre && x !in mid && x !in post
    ensures Distinct(pre + (mid + [x]) + post) && Distinct(pre + ([x] + mid) + post)
  {
    var s := pre + mid + post;
    DistinctInsert(s, |pre| + |mid|, x);
    DistinctInsert(s, |pre|, x);
    assert s[..|pre| + |mid|] + [x] + s[|pre| + |mid|..] == pre + (mid + [x]) + post;
    assert s[..|pre|] + [x] + s[|pre|..] == pre + ([x] + mid) + post;
  }

  lemma InsertDistinct(s: seq<Id>, ref: Id, x: Id)
    requires Distinct(s) && ref in s && x !in s
    ensures Distinct(InsertAfter(s, ref, x)) && Distinct(InsertBefore(s, ref, x))
    ensures Elements(InsertAfter(s, ref, x)) == Elements(InsertBefore(s, ref, x)) == Elements(s) + {x}
  {
    var pre, post := SplitAt(s, ref);
    InsertAfterAt(pre, ref, post, x);
    InsertBeforeAt(pre, ref, post, x);
    DistinctCons(pre, [ref], post, x);
    assert [ref] + [x] == [ref, x] && [x] + [ref] == [x, ref];
  }

  lemma WithoutOrder(parent: Id, l: Lists, x: Id)
    requires x != parent
    ensures Without(Order(parent, l), x) == Order(parent, Unlink(l, x))
  {
    WithoutConcat(l.below + [parent], l.above, x);
    WithoutConcat(l.below, [parent], x);
  }

  lemma IndexConcat(a: seq<Id>, b: seq<Id>, ref: Id)
    requires ref in a || ref in b
    ensures IndexOf(a + b, ref) == if ref in a then IndexOf(a, ref) else |a| + IndexOf(b, ref)
  {
    if ref in a {
      assert IsFirst(a + b, ref, IndexOf(a, ref));
    } else {
      assert IsFirst(a + b, ref, |a| + IndexOf(b, ref));
    }
  }

  lemma InsertAtLeft(a: seq<Id>, b: seq<Id>, k: nat, x: Id)
    requires k <= |a|
    ensures InsertAt(a + b, k, x) == InsertAt(a, k, x) + b
  {
    assert (a + b)[..k] == a[..k] && (a + b)[k..] == a[k..] + b;
  }

  lemma InsertLeft(a: seq<Id>, b: seq<Id>, ref: Id, x: Id)
    requires ref in a
    ensures InsertAfter(a + b, ref, x) == InsertAfter(a, ref, x) + b
    ensures InsertBefore(a + b, ref, x) == InsertBefore(a, ref, x) + b
  {
    IndexConcat(a, b, ref);
    var k := IndexOf(a, ref);
    InsertAtLeft(a, b, k, x);
    InsertAtLeft(a, b, k + 1, x);
  }

  lemma InsertAfterRight(a: seq<Id>, b: seq<Id>, ref: Id, x: Id)
    requires ref !in a && ref in b
    ensures InsertAfter(a + b, ref, x) == a + InsertAfter(b, ref, x)
  {
    var pre, post := SplitAt(b, ref);
    InsertAfterAt(pre, ref, post, x);
    InsertAfterAt(a + pre, ref, post, x);
    assert a + b == a + pre + [ref] + post;
    assert a + (pre + [ref, x] + post) == a + pre + [ref, x] + post;
  }

  lemma InsertBeforeRight(a: seq<Id>, b: seq<Id>, ref: Id, x: Id)
    requires ref !in a && ref in b
    ensures InsertBefore(a + b, ref, x) == a + InsertBefore(b, ref, x)
  {
    var pre, post := SplitAt(b, ref);
    InsertBeforeAt(pre, ref, post, x);
    InsertBeforeAt(a + pre, ref, post, x);
    assert a + b == a + pre + [ref] + post;
    assert a + (pre + [x, ref] + post) == a + pre + [x, ref] + post;
  }

  lemma DistinctParts(parent: Id, l: Lists)
    requires Distinct(Order(parent, l))
    ensures Distinct(l.below) && Distinct(l.above) && parent !in l.below && parent !in l.above
    ensures forall x | x in l.below :: x !in l.above
  {
    var o, n := Order(parent, l), |l.below|;
    assert forall i | 0 <= i < n :: o[i] == l.below[i];
    assert forall j | 0 <= j < |l.above| :: o[n + 1 + j] == l.above[j];
    assert o[n] == parent;
  }

  lemma OrderAssoc(below: seq<Id>, p: Id, above: seq<Id>)
    ensures below + ([p] + above) == Order(p, Lists(below, above))
  {
  }

  /** Inserting next to the sibling on whichever list it is on, or at the inner end of a list for the
      parent, is inserting next to it in the one sequence. */
  lemma InsertAfterInOrder(p: Id, l: Lists, sibling: Id, x: Id)
    requires Distinct(Order(p, l)) && sibling in Order(p, l)
    ensures InsertAfter(Order(p, l), sibling, x)
         == if sibling == p then Order(p, l.(above := [x] + l.above))
            else Order(p, Lists(InsertAfter(l.below, sibling, x), InsertAfter(l.above, sibling, x)))
  {
    DistinctParts(p, l);
    if sibling == p {
      InsertAfterAt(l.below, p, l.above, x);
    } else if sibling in l.below {
      InsertLeft(l.below, [p] + l.above, sibling, x);
      OrderAssoc(l.below, p, l.above);
      OrderAssoc(InsertAfter(l.below, sibling, x), p, l.above);
    } else {
      InsertAfterRight(l.below + [p], l.above, sibling, x);
    }
  }

  lemma InsertBeforeInOrder(p: Id, l: Lists, sibling: Id, x: Id)
    requires Distinct(Order(p, l)) && sibling in Order(p, l)
    ensures InsertBefore(Order(p, l), sibling, x)
         == if sibling == p then Order(p, l.(below := l.below + [x]))
            else Order(p, Lists(InsertBefore(l.below, sibling, x), InsertBefore(l.above, sibling, x)))
  {
    DistinctParts(p, l);
    if sibling == p {
      InsertBeforeAt(l.below, p, l.above, x);
    } else if sibling in l.below {
      InsertLeft(l.below, [p] + l.above, sibling, x);
      OrderAssoc(l.below, p, l.above);
      OrderAssoc(InsertBefore(l.below, sibling, x), p, l.above);
    } else {
      InsertBeforeRight(l.below + [p], l.above, sibling, x);
    }
  }

  lemma UnlinkedDistinct(s: State, x: Id)
    requires Valid(s) && x != s.parent
    ensures Distinct(Order(s.parent, Unlink(s.pending, x)))
    ensures Order(s.parent, Unlink(s.pending, x)) == Without(Order(s.parent, s.pending), x)
  {
    WithoutOrder(s.parent, s.pending, x);
    WithoutDistinct(Order(s.parent, s.pending), x);
  }

  /** place_above moves one subsurface of the single bottom-to-top order directly above the sibling,
      whichever lists the two are on, and nothing else; an invalid sibling changes nothing. */
  lemma PlaceAboveRefines(s: State, x: Id, sibling: Id)
    requires Valid(s) && x != s.parent && x in Order(s.parent, s.pending)
    ensures Valid(PlaceAbove(s, x, sibling))
    ensures forall y :: y in Order(s.parent, PlaceAbove(s, x, sibling).pending) <==> y in Order(s.parent, s.pending)
    ensures var was, now := Order(s.parent, s.pending), Order(s.parent, PlaceAbove(s, x, sibling).pending);
      if ValidSibling(s, x, sibling) then MovedAbove(was, now, x, sibling) else now == was
  {
    if ValidSibling(s, x, sibling) {
      UnlinkedDistinct(s, x);
      var rest := Order(s.parent, Unlink(s.pending, x));
      InsertAfterInOrder(s.parent, Unlink(s.pending, x), sibling, x);
      InsertAfterSpec(rest, sibling, x);
      InsertDistinct(rest, sibling, x);
      assert forall y :: y in Elements(rest) + {x} <==> y in Order(s.parent, s.pending);
    }
  }

  lemma PlaceBelowRefines(s: State, x: Id, sibling: Id)
    requires Valid(s) && x != s.parent && x in Order(s.parent, s.pending)
    ensures Valid(PlaceBelow(s, x, sibling))
    ensures forall y :: y in Order(s.parent, PlaceBelow(s, x, sibling).pending) <==> y in Order(s.parent, s.pending)
    ensures var was, now := Order(s.parent, s.pending), Order(s.parent, PlaceBelow(s, x, sibling).pending);
      if ValidSibling(s, x, sibling) then MovedBelow(was, now, x, sibling) else now == was
  {
    if ValidSibling(s, x, sibling) {
      UnlinkedDistinct(s, x);
      var rest := Order(s.parent, Unlink(s.pending, x));
      InsertBeforeInOrder(s.parent, Unlink(s.pending, x), sibling, x);
      InsertBeforeSpec(rest, sibling, x);
      InsertDistinct(rest, sibling, x);
      assert forall y :: y in Elements(rest) + {x} <==> y in Order(s.parent, s.pending);
    }
  }

  // -------------------------------------------------- the global view list

  /** compositor_view_restack on the list of views, topmost first. Already being in place is a no-op. */
  function Restack(views: seq<Id>, view: Id, sibling: Id, above: bool): seq<Id> {
    if view == sibling then views
    else if above then InsertBefore(Without(views, view), sibling, view)
    else InsertAfter(Without(views, view), sibling, view)
  }

  /** Children below the parent, nearest first, each directly under the one before it. */
  function RestackBelow(views: seq<Id>, reference: Id, nearestFirst: seq<Id>): seq<Id>
    decreases |nearestFirst|
  {
    if nearestFirst == [] then views
    else RestackBelow(Restack(views, nearestFirst[0], reference, false), nearestFirst[0], nearestFirst[1..])
  }

  function RestackAbove(views: seq<Id>, reference: Id, nearestFirst: seq<Id>): seq<Id>
    decreases |nearestFirst|
  {
    if nearestFirst == [] then views
    else RestackAbove(Restack(views, nearestFirst[0], reference, true), nearestFirst[0], nearestFirst[1..])
  }

  function RestackChildren(views: seq<Id>, parent: Id, l: Lists): seq<Id> {
    RestackAbove(RestackBelow(views, parent, Reverse(l.below)), parent, l.above)
  }

  function Except(s: seq<Id>, xs: set<Id>): (r: seq<Id>)
    ensures forall y :: y in r <==> y in s && y !in xs
  {
    if s == [] then [] else (if s[0] in xs then [] else [s[0]]) + Except(s[1..], xs)
  }

  lemma {:induction false} ExceptConcat(a: seq<Id>, b: seq<Id>, xs: set<Id>)
    ensures Except(a + b, xs) == Except(a, xs) + Except(b, xs)
  {
    if a == [] {
      assert a + b == b;
    } else {
      assert (a + b)[1..] == a[1..] + b;
      ExceptConcat(a[1..], b, xs);
    }
  }

  lemma ExceptOne(x: Id, xs: set<Id>)
    ensures Except([x], xs) == if x in xs then [] else [x]
  {
    assert [x][1..] == [];
  }

  lemma {:induction false} ExceptTwice(s: seq<Id>, xs: set<Id>, ys: set<Id>)
    ensures Except(Except(s, xs), ys) == Except(s, xs + ys)
  {
    if s != [] {
      ExceptTwice(s[1..], xs, ys);
      var head, rest := if s[0] in xs then [] else [s[0]], Except(s[1..], xs);
      ExceptConcat(head, rest, ys);
      if s[0] !in xs { ExceptOne(s[0], ys); }
    }
  }

  lemma {:induction false} WithoutIsExcept(s: seq<Id>, x: Id)
    ensures Without(s, x) == Except(s, {x})
  {
    if s != [] { WithoutIsExcept(s[1..], x); }
  }

  lemma WithoutThenExcept(s: seq<Id>, children: seq<Id>)
    requires children != []
    ensures Except(Without(s, children[0]), Elements(children[1..])) == Except(s, Elements(children))
  {
    WithoutIsExcept(s, children[0]);
    ExceptTwice(s, {children[0]}, Elements(children[1..]));
    assert {children[0]} + Elements(children[1..]) == Elements(children) by {
      forall x | x in children ensures x == children[0] || x in children[1..] {
        var i :| 0 <= i < |children| && children[i] == x;
        if i > 0 { assert children[1..][i - 1] == x; }
      }
    }
  }

  lemma {:induction false} ExceptNone(s: seq<Id>)
    ensures Except(s, {}) == s
  {
    if s != [] { ExceptNone(s[1..]); }
  }

  /** `run` has no repeats, none of it is on either side, and the children still to be placed are
      distinct and not in it. */
  ghost predicate Around(pre: seq<Id>, run: seq<Id>, post: seq<Id>, children: seq<Id>) {
    && run != []
    && Distinct(run)
    && Distinct(children)
    && (forall x | x in run :: x !in pre && x !in post && x !in children)
  }

  lemma Extend(pre: seq<Id>, run: seq<Id>, post: seq<Id>, children: seq<Id>)
    requires Around(pre, run, post, children) && children != []
    ensures Around(Without(pre, children[0]), run + [children[0]], Without(post, children[0]), children[1..])
    ensures Around(Without(pre, children[0]), [children[0]] + run, Without(post, children[0]), children[1..])
  {
    var c, rest := children[0], children[1..];
    forall i | 0 <= i < |rest| ensures rest[i] != c && rest[i] !in run {
      assert rest[i] == children[i + 1];
    }
    var down, up := run + [c], [c] + run;
    assert forall i | 0 <= i < |run| :: down[i] == run[i] && up[i + 1] == run[i] && run[i] != c by {
      assert c in children;
      forall i | 0 <= i < |run| ensures run[i] != c { assert run[i] in run; }
    }
  }

  lemma WithoutAround(pre: seq<Id>, run: seq<Id>, post: seq<Id>, c: Id)
    requires c !in run
    ensures Without(pre + run + post, c) == Without(pre, c) + run + Without(post, c)
  {
    WithoutConcat(pre + run, post, c);
    WithoutConcat(pre, run, c);
  }

  lemma UnderLast(pre: seq<Id>, run: seq<Id>, post: seq<Id>, c: Id)
    requires run != [] && Distinct(run) && run[|run| - 1] !in pre
    ensures InsertAfter(pre + run + post, run[|run| - 1], c) == pre + (run + [c]) + post
  {
    var init, last := run[..|run| - 1], run[|run| - 1];
    InsertAfterAt(pre + init, last, post, c);
    assert pre + init + [last] + post == pre + run + post;
    assert pre + init + [last, c] + post == pre + (run + [c]) + post;
  }

  lemma OverFirst(pre: seq<Id>, run: seq<Id>, post: seq<Id>, c: Id)
    requires run != [] && run[0] !in pre
    ensures InsertBefore(pre + run + post, run[0], c) == pre + ([c] + run) + post
  {
    var first, tail := run[0], run[1..];
    InsertBeforeAt(pre, first, tail + post, c);
    assert pre + [first] + (tail + post) == pre + run + post;
    assert pre + [c, first] + (tail + post) == pre + ([c] + run) + post;
  }

  lemma PlaceUnder(pre: seq<Id>, run: seq<Id>, post: seq<Id>, c: Id)
    requires run != [] && Distinct(run) && c !in run && run[|run| - 1] !in pre
    ensures Restack(pre + run + post, c, run[|run| - 1], false) == Without(pre, c) + (run + [c]) + Without(post, c)
  {
    WithoutAround(pre, run, post, c);
    UnderLast(Without(pre, c), run, Without(post, c), c);
  }

  lemma PlaceOver(pre: seq<Id>, run: seq<Id>, post: seq<Id>, c: Id)
    requires run != [] && c !in run && run[0] !in pre
    ensures Restack(pre + run + post, c, run[0], true) == Without(pre, c) + ([c] + run) + Without(post, c)
  {
    WithoutAround(pre, run, post, c);
    OverFirst(Without(pre, c), run, Without(post, c), c);
  }

  lemma NextChild(run: seq<Id>, children: seq<Id>)
    requires children != []
    ensures (run + [children[0]]) + children[1..] == run + children
    ensures Reverse(children[1..]) + ([children[0]] + run) == Reverse(children) + run
  {
  }

  /** What is left on one side of the run once `children` are gone from it. */
  function Side(s: seq<Id>, children: seq<Id>): seq<Id> {
    Except(s, Elements(children))
  }

  lemma SideOfNone(s: seq<Id>)
    ensures Side(s, []) == s
  {
    assert Elements([]) == {};
    ExceptNone(s);
  }

  /** Restacking the children below leaves them directly under the run, in order; everything else
      keeps its relative order on its own side. */
  lemma {:induction false} RestackBelowRun(pre: seq<Id>, run: seq<Id>, post: seq<Id>, children: seq<Id>)
    requires Around(pre, run, post, children)
    ensures RestackBelow(pre + run + post, run[|run| - 1], children)
         == Side(pre, children) + (run + children) + Side(post, children)
    decreases |children|
  {
    if children == [] {
      SideOfNone(pre);
      SideOfNone(post);
      assert run + children == run;
    } else {
      var c := children[0];
      var pre', run', post' := Without(pre, c), run + [c], Without(post, c);
      PlaceUnder(pre, run, post, c);
      Extend(pre, run, post, children);
      RestackBelowRun(pre', run', post', children[1..]);
      WithoutThenExcept(pre, children);
      WithoutThenExcept(post, children);
      NextChild(run, children);
    }
  }

  lemma {:induction false} RestackAboveRun(pre: seq<Id>, run: seq<Id>, post: seq<Id>, children: seq<Id>)
    requires Around(pre, run, post, children)
    ensures RestackAbove(pre + run + post, run[0], children)
         == Side(pre, children) + (Reverse(children) + run) + Side(post, children)
    decreases |children|
  {
    if children == [] {
      SideOfNone(pre);
      SideOfNone(post);
      assert Reverse(children) + run == run;
    } else {
      var c := children[0];
      var pre', run', post' := Without(pre, c), [c] + run, Without(post, c);
      PlaceOver(pre, run, post, c);
      Extend(pre, run, post, children);
      RestackAboveRun(pre', run', post', children[1..]);
      WithoutThenExcept(pre, children);
      WithoutThenExcept(post, children);
      NextChild(run, children);
    }
  }

  /** The children that have a view, in order. */
  function Seen(s: seq<Id>, viewed: set<Id>): (r: seq<Id>)
    ensures forall x :: x in r <==> x in s && x in viewed
  {
    if s == [] then [] else (if s[0] in viewed then [s[0]] else []) + Seen(s[1..], viewed)
  }

  function SeenLists(l: Lists, viewed: set<Id>): Lists {
    Lists(Seen(l.below, viewed), Seen(l.above, viewed))
  }

  lemma {:induction false} SeenConcat(a: seq<Id>, b: seq<Id>, viewed: set<Id>)
    ensures Seen(a + b, viewed) == Seen(a, viewed) + Seen(b, viewed)
  {
    if a == [] {
      assert a + b == b;
    } else {
      assert (a + b)[1..] == a[1..] + b;
      SeenConcat(a[1..], b, viewed);
    }
  }

  lemma {:induction false} SeenDistinct(s: seq<Id>, viewed: set<Id>)
    requires Distinct(s)
    ensures Distinct(Seen(s, viewed))
  {
    if s != [] {
      SeenDistinct(s[1..], viewed);
      var rest := Seen(s[1..], viewed);
      assert s[0] !in s[1..];
      if s[0] in viewed {
        assert forall j | 0 < j <= |rest| :: ([s[0]] + rest)[j] == rest[j - 1] && rest[j - 1] in rest;
      }
    }
  }

  lemma SeenOrder(parent: Id, l: Lists, viewed: set<Id>)
    requires parent in viewed
    ensures Seen(Order(parent, l), viewed) == Order(parent, SeenLists(l, viewed))
  {
    SeenConcat(l.below + [parent], l.above, viewed);
    SeenConcat(l.below, [parent], viewed);
    assert Seen([parent], viewed) == [parent] by { assert [parent][1..] == []; }
  }

  lemma DistinctReverse(s: seq<Id>)
    requires Distinct(s)
    ensures Distinct(Reverse(s)) && Elements(Reverse(s)) == Elements(s)
  {
    forall x | x in s ensures x in Reverse(s) {
      var i :| 0 <= i < |s| && s[i] == x;
      assert Reverse(s)[|s| - 1 - i] == x;
    }
  }

  lemma DistinctSides(pre: seq<Id>, x: Id, post: seq<Id>)
    requires Distinct(pre + [x] + post)
    ensures x !in pre && x !in post
  {
    var s := pre + [x] + post;
    assert s[|pre|] == x;
    assert forall i | 0 <= i < |pre| :: s[i] == pre[i];
    assert forall j | 0 <= j < |post| :: s[|pre| + 1 + j] == post[j];
  }

  /** After a commit the parent and its children are one contiguous run of the view list, standing
      where the parent stood, in exactly the stacking order (the list is topmost first). */
  lemma ChildrenContiguous(views: seq<Id>, parent: Id, l: Lists) returns (pre: seq<Id>, post: seq<Id>)
    requires Distinct(views) && parent in views && Distinct(Order(parent, l))
    ensures views == pre + [parent] + post
    ensures RestackChildren(views, parent, l)
         == Except(pre, Elements(l.below + l.above)) + Reverse(Order(parent, l)) + Except(post,
             Elements(l.below + l.above))
  {
    pre, post := SplitAt(views, parent);
    DistinctSides(pre, parent, post);
    DistinctParts(parent, l);
    DistinctReverse(l.below);
    var b := Reverse(l.below);
    assert Around(pre, [parent], post, b);
    RestackBelowRun(pre, [parent], post, b);
    var run := [parent] + b;
    var pre', post' := Side(pre, b), Side(post, b);
    assert Around(pre', run, post', l.above) by {
      assert forall i | 0 < i < |run| :: run[i] == b[i - 1] && run[i] in b;
    }
    RestackAboveRun(pre', run, post', l.above);
    ExceptTwice(pre, Elements(b), Elements(l.above));
    ExceptTwice(post, Elements(b), Elements(l.above));
    assert Elements(b) + Elements(l.above) == Elements(l.below + l.above);
    ReverseOrder(parent, l);
  }

  lemma ReverseOrder(parent: Id, l: Lists)
    ensures Reverse(Order(parent, l)) == Reverse(l.above) + ([parent] + Reverse(l.below))
  {
  }

  lemma {:induction false} ExceptAll(s: seq<Id>, xs: set<Id>)
    requires forall x | x in s :: x in xs
    ensures Except(s, xs) == []
  {
    if s != [] { ExceptAll(s[1..], xs); }
  }

  lemma {:induction false} ExceptUnion(s: seq<Id>, xs: set<Id>, ys: set<Id>)
    requires xs <= ys
    ensures Except(Except(s, xs), ys) == Except(s, ys)
  {
    ExceptTwice(s, xs, ys);
    assert xs + ys == ys;
  }

  /** Every view that is not in the run keeps its place relative to the others. */
  lemma OthersKeepOrder(views: seq<Id>, parent: Id, l: Lists)
    requires Distinct(views) && parent in views && Distinct(Order(parent, l))
    ensures Except(RestackChildren(views, parent, l), Elements(Order(parent, l)))
        == Except(views, Elements(Order(parent, l)))
  {
    var pre, post := ChildrenContiguous(views, parent, l);
    var all, kids, run := Elements(Order(parent, l)), Elements(l.below + l.above), Reverse(Order(parent, l));
    ExceptConcat(Except(pre, kids) + run, Except(post, kids), all);
    ExceptConcat(Except(pre, kids), run, all);
    DistinctReverse(Order(parent, l));
    ExceptAll(run, all);
    ExceptUnion(pre, kids, all);
    ExceptUnion(post, kids, all);
    ExceptConcat(pre + [parent], post, all);
    ExceptConcat(pre, [parent], all);
    ExceptAll([parent], all);
  }

  /** What a commit of the parent does to the view list. The views of the parent and of those children
      that have one become one contiguous run, where the parent's view stood, in the pending order, and
      every other view keeps its place relative to the others. */
  lemma CommitMakesRun(s: State, views: seq<Id>, viewed: set<Id>) returns (pre: seq<Id>, post: seq<Id>)
    requires Valid(s) && Distinct(views) && viewed <= Elements(views) && s.parent in viewed
    ensures views == pre + [s.parent] + post
    ensures var run, l := Seen(Order(s.parent, s.pending), viewed), SeenLists(ParentCommit(s).current, viewed);
      var now := RestackChildren(views, s.parent, l);
      && now == Except(pre, Elements(l.below + l.above)) + Reverse(run) + Except(post, Elements(l.below + l.above))
      && Except(now, Elements(run)) == Except(views, Elements(run))
  {
    var l := SeenLists(s.pending, viewed);
    SeenOrder(s.parent, s.pending, viewed);
    SeenDistinct(Order(s.parent, s.pending), viewed);
    pre, post := ChildrenContiguous(views, s.parent, l);
    OthersKeepOrder(views, s.parent, l);
  }

  // ------------------------------------------------------------------ runs

  datatype Event =
    | Adds(x: Id)
    | Removes(x: Id)
    | PlacesAbove(x: Id, sibling: Id)
    | PlacesBelow(x: Id, sibling: Id)
    | ParentCommits

  predicate IsChild(s: State, x: Id) {
    x in s.pending.below || x in s.pending.above
  }

  /** A surface that already has the role, or is the parent itself, is refused; only a child of this
      parent can be placed. */
  function Step(s: State, e: Event): State {
    match e
    case Adds(x) => if x == s.parent || IsChild(s, x) then s else AddChild(s, x)
    case Removes(x) => if IsChild(s, x) then RemoveChild(s, x) else s
    case PlacesAbove(x, sibling) => if IsChild(s, x) then PlaceAbove(s, x, sibling) else s
    case PlacesBelow(x, sibling) => if IsChild(s, x) then PlaceBelow(s, x, sibling) else s
    case ParentCommits => ParentCommit(s)
  }

  function Run(s: State, events: seq<Event>): State
    decreases |events|
  {
    if events == [] then s else Run(Step(s, events[0]), events[1..])
  }

  function Gone(events: seq<Event>): (r: set<Id>) {
    set e | e in events && e.Removes? :: e.x
  }

  lemma RestackDistinct(views: seq<Id>, view: Id, sibling: Id, above: bool)
    requires Distinct(views) && view in views && sibling in views
    ensures Distinct(Restack(views, view, sibling, above))
    ensures Elements(Restack(views, view, sibling, above)) == Elements(views)
  {
    if view != sibling {
      WithoutDistinct(views, view);
      InsertDistinct(Without(views, view), sibling, view);
      assert Elements(Without(views, view)) + {view} == Elements(views);
    }
  }

  lemma RemoveKeepsValid(s: State, x: Id)
    requires Valid(s) && x != s.parent
    ensures Valid(RemoveChild(s, x))
  {
    UnlinkedDistinct(s, x);
  }

  lemma StepKeepsValid(s: State, e: Event)
    requires Valid(s)
    ensures Valid(Step(s, e)) && Step(s, e).parent == s.parent
  {
    DistinctParts(s.parent, s.pending);
    match e
    case Adds(x) =>
      if !(x == s.parent || IsChild(s, x)) {
        var o := Order(s.parent, s.pending);
        DistinctInsert(o, |o|, x);
        assert o[..|o|] + [x] + o[|o|..] == Order(s.parent, AddChild(s, x).pending);
      }
    case Removes(x) => if IsChild(s, x) { RemoveKeepsValid(s, x); }
    case PlacesAbove(x, sibling) => if IsChild(s, x) { PlaceAboveRefines(s, x, sibling); }
    case PlacesBelow(x, sibling) => if IsChild(s, x) { PlaceBelowRefines(s, x, sibling); }
    case ParentCommits =>
  }

  lemma {:induction false} RunKeepsValid(s: State, events: seq<Event>)
    requires Valid(s)
    ensures Valid(Run(s, events)) && Run(s, events).parent == s.parent
    decreases |events|
  {
    if events != [] {
      StepKeepsValid(s, events[0]);
      RunKeepsValid(Step(s, events[0]), events[1..]);
    }
  }

  /** A surface without subsurfaces satisfies everything that is kept. */
  lemma InitialValid(parent: Id)
    ensures var s := State(parent, Lists([], []), Lists([], [])); Valid(s) && Nested(s)
  {
  }

  /** Whether `x` has the role after these events, by the last one that gave or took it. */
  function HasRole(was: bool, events: seq<Event>, x: Id): bool
    decreases |events|
  {
    if events == [] then was
    else
      var e := events[0];
      HasRole(if e == Adds(x) then true else if e == Removes(x) then false else was, events[1..], x)
  }

  lemma StepChildren(s: State, e: Event, x: Id)
    requires Valid(s) && x != s.parent
    ensures IsChild(Step(s, e), x) <==> if e == Adds(x) then true else if e == Removes(x) then false else IsChild(s, x)
  {
    if e.PlacesAbove? && IsChild(s, e.x) {
      DistinctParts(s.parent, s.pending);
      PlaceAboveRefines(s, e.x, e.sibling);
      InOrderIsChild(s, x);
      InOrderIsChild(Step(s, e), x);
    }
    if e.PlacesBelow? && IsChild(s, e.x) {
      DistinctParts(s.parent, s.pending);
      PlaceBelowRefines(s, e.x, e.sibling);
      InOrderIsChild(s, x);
      InOrderIsChild(Step(s, e), x);
    }
  }

  lemma InOrderIsChild(s: State, x: Id)
    requires x != s.parent
    ensures x in Order(s.parent, s.pending) <==> IsChild(s, x)
  {
  }

  /** Placing never loses or adds a child: whatever the run, the order holds the parent and exactly the
      surfaces that still have the role, each once. */
  lemma {:induction false} OrderHoldsChildren(s: State, events: seq<Event>, x: Id)
    requires Valid(s) && x != s.parent
    ensures Valid(Run(s, events)) && Run(s, events).parent == s.parent
    ensures x in Order(s.parent, Run(s, events).pending) <==> HasRole(IsChild(s, x), events, x)
    decreases |events|
  {
    if events != [] {
      StepKeepsValid(s, events[0]);
      StepChildren(s, events[0], x);
      OrderHoldsChildren(Step(s, events[0]), events[1..], x);
    }
  }

  /** Another surface next to which one may be placed, by the requests alone: the parent, or a surface that has the
      role. */
  predicate GoodSibling(parent: Id, events: seq<Event>, x: Id, sibling: Id) {
    sibling != x && (sibling == parent || HasRole(false, events, sibling))
  }

  const NONE := Lists([], [])

  lemma PlacedFrom(parent: Id, events: seq<Event>, x: Id)
    requires x != parent && HasRole(false, events, x)
    ensures var s := Run(State(parent, NONE, NONE), events);
      && Valid(s) && s.parent == parent && IsChild(s, x) && x in Order(parent, s.pending)
      && forall y | y != parent :: y in Order(parent, s.pending) <==> HasRole(false, events, y)
  {
    var s0 := State(parent, NONE, NONE);
    forall y | y != parent
      ensures Valid(Run(s0, events)) && Run(s0, events).parent == parent
      ensures y in Order(parent, Run(s0, events).pending) <==> HasRole(false, events, y)
    {
      OrderHoldsChildren(s0, events, y);
    }
    InOrderIsChild(Run(s0, events), x);
  }

  /** place_above after any requests: next to another surface that is the parent or has the role, the surface comes
      to lie directly above it and nothing else moves; otherwise nothing happens. */
  lemma PlaceAboveExactly(parent: Id, events: seq<Event>, x: Id, sibling: Id)
    requires x != parent && HasRole(false, events, x)
    ensures var s := Run(State(parent, NONE, NONE), events);
      var t := Step(s, PlacesAbove(x, sibling));
      if GoodSibling(parent, events, x, sibling) then
        t == s.(pending := t.pending)
        && MovedAbove(Order(parent, s.pending), Order(parent, t.pending), x, sibling)
      else t == s
  {
    PlacedFrom(parent, events, x);
    PlaceAboveRefines(Run(State(parent, NONE, NONE), events), x, sibling);
  }

  /** The same for place_below. */
  lemma PlaceBelowExactly(parent: Id, events: seq<Event>, x: Id, sibling: Id)
    requires x != parent && HasRole(false, events, x)
    ensures var s := Run(State(parent, NONE, NONE), events);
      var t := Step(s, PlacesBelow(x, sibling));
      if GoodSibling(parent, events, x, sibling) then
        t == s.(pending := t.pending)
        && MovedBelow(Order(parent, s.pending), Order(parent, t.pending), x, sibling)
      else t == s
  {
    PlacedFrom(parent, events, x);
    PlaceBelowRefines(Run(State(parent, NONE, NONE), events), x, sibling);
  }

  /** A new subsurface comes on top; one that goes takes nobody along, in either order. */
  lemma AddedAndRemoved(s: State, x: Id)
    requires Valid(s) && x != s.parent
    ensures !IsChild(s, x) ==>
      Order(s.parent, Step(s, Adds(x)).pending) == Order(s.parent, s.pending) + [x]
      && Step(s, Adds(x)).current == s.current
    ensures IsChild(s, x) ==>
      var t := Step(s, Removes(x));
      && Order(s.parent, t.pending) == Without(Order(s.parent, s.pending), x)
      && Order(s.parent, t.current) == Without(Order(s.parent, s.current), x)
  {
    WithoutOrder(s.parent, s.pending, x);
    WithoutOrder(s.parent, s.current, x);
  }

  /** Every child in effect still has the role, so it is on a pending list too. */
  ghost predicate Nested(s: State) {
    forall x | x in s.current.below || x in s.current.above :: IsChild(s, x)
  }

  lemma StepKeepsNested(s: State, e: Event)
    requires Valid(s) && Nested(s)
    ensures Nested(Step(s, e))
  {
    DistinctParts(s.parent, s.pending);
    match e
    case PlacesAbove(x, sibling) =>
      if IsChild(s, x) {
        PlaceAboveRefines(s, x, sibling);
        DistinctParts(s.parent, Step(s, e).pending);
        assert forall y | y != s.parent :: IsChild(s, y) <==> y in Order(s.parent, s.pending);
      }
    case PlacesBelow(x, sibling) =>
      if IsChild(s, x) {
        PlaceBelowRefines(s, x, sibling);
        DistinctParts(s.parent, Step(s, e).pending);
        assert forall y | y != s.parent :: IsChild(s, y) <==> y in Order(s.parent, s.pending);
      }
    case Adds(x) =>
    case Removes(x) =>
    case ParentCommits =>
  }

  lemma {:induction false} ExceptAbsent(s: seq<Id>, x: Id, gone: set<Id>)
    requires x !in s
    ensures Except(s, {x} + gone) == Except(s, gone)
  {
    if s != [] { ExceptAbsent(s[1..], x, gone); }
  }

  lemma UnlinkThenExcept(s: seq<Id>, x: Id, gone: set<Id>)
    ensures Except(Without(s, x), gone) == Except(s, {x} + gone)
  {
    WithoutIsExcept(s, x);
    ExceptTwice(s, {x}, gone);
  }

  function ExceptLists(l: Lists, gone: set<Id>): Lists {
    Lists(Except(l.below, gone), Except(l.above, gone))
  }

  lemma StepThenExcept(s: State, e: Event, gone: set<Id>)
    requires Nested(s) && !e.ParentCommits?
    ensures ExceptLists(Step(s, e).current, gone)
         == ExceptLists(s.current, (if e.Removes? then {e.x} else {}) + gone)
  {
    if e.Removes? {
      if IsChild(s, e.x) {
        UnlinkThenExcept(s.current.below, e.x, gone);
        UnlinkThenExcept(s.current.above, e.x, gone);
      } else {
        ExceptAbsent(s.current.below, e.x, gone);
        ExceptAbsent(s.current.above, e.x, gone);
      }
    } else {
      assert {} + gone == gone;
    }
  }

  lemma GoneCons(events: seq<Event>)
    requires events != []
    ensures Gone(events) == (if events[0].Removes? then {events[0].x} else {}) + Gone(events[1..])
  {
    var e, rest := events[0], events[1..];
    assert forall d :: d in events <==> d == e || d in rest by {
      assert events == [e] + rest;
    }
  }

  /** Double buffering over whole runs: between two commits of the parent the order in effect is the
      one the last commit took, less the children that lost the role since, whatever was added or
      placed meanwhile. */
  lemma {:induction false} OnlyCommitApplies(s: State, events: seq<Event>)
    requires Valid(s) && Nested(s) && ParentCommits !in events
    ensures Run(s, events).current == ExceptLists(s.current, Gone(events))
    decreases |events|
  {
    if events == [] {
      assert Gone(events) == {};
      ExceptNone(s.current.below);
      ExceptNone(s.current.above);
    } else {
      StepKeepsValid(s, events[0]);
      StepKeepsNested(s, events[0]);
      OnlyCommitApplies(Step(s, events[0]), events[1..]);
      StepThenExcept(s, events[0], Gone(events[1..]));
      GoneCons(events);
    }
  }
}

/** The same lists as fields, changed link by link. */
module StackingObject {
  import opened Linked
  import opened Stacking

  class SurfaceStack {
    const parent: Id
    var pendingBelow: seq<Id>
    var pendingAbove: seq<Id>
    var currentBelow: seq<Id>
    var currentAbove: seq<Id>
    /** All views of the compositor, topmost first, and the surfaces that have one. */
    var views: seq<Id>
    var viewed: set<Id>

    ghost function Model(): State
      reads this
    {
      State(parent, Lists(pendingBelow, pendingAbove), Lists(currentBelow, currentAbove))
    }

    ghost predicate Linked()
      reads this
    {
      Distinct(views) && viewed <= Elements(views)
    }

    constructor (surface: Id)
      ensures parent == surface && Model() == State(surface, Lists([], []), Lists([], []))
      ensures Linked() && views == [] && viewed == {}
    {
      parent := surface;
      pendingBelow, pendingAbove, currentBelow, currentAbove := [], [], [], [];
      views, viewed := [], {};
    }

    /** Searches both pending lists for the sibling. */
    method IsValidSibling(x: Id, sibling: Id) returns (ok: bool)
      ensures ok == ValidSibling(Model(), x, sibling)
      ensures ok <==> sibling != x && (sibling == parent || sibling in pendingBelow || sibling in pendingAbove)
    {
      if sibling == x { return false; }
      if sibling == parent { return true; }
      for i := 0 to |pendingBelow|
        invariant sibling !in pendingBelow[..i]
      {
        if pendingBelow[i] == sibling { return true; }
      }
      for i := 0 to |pendingAbove|
        invariant sibling !in pendingAbove[..i]
      {
        if pendingAbove[i] == sibling { return true; }
      }
      return false;
    }

    method PlaceAboveSibling(x: Id, sibling: Id)
      modifies `pendingBelow, `pendingAbove
      ensures Model() == PlaceAbove(old(Model()), x, sibling)
    {
      var ok := IsValidSibling(x, sibling);
      if !ok { return; }
      pendingBelow, pendingAbove := Without(pendingBelow, x), Without(pendingAbove, x);
      if sibling == parent {
        pendingAbove := [x] + pendingAbove;
      } else {
        pendingBelow, pendingAbove := InsertAfter(pendingBelow, sibling, x), InsertAfter(pendingAbove, sibling, x);
      }
    }

    method PlaceBelowSibling(x: Id, sibling: Id)
      modifies `pendingBelow, `pendingAbove
      ensures Model() == PlaceBelow(old(Model()), x, sibling)
    {
      var ok := IsValidSibling(x, sibling);
      if !ok { return; }
      pendingBelow, pendingAbove := Without(pendingBelow, x), Without(pendingAbove, x);
      if sibling == parent {
        pendingBelow := pendingBelow + [x];
      } else {
        pendingBelow, pendingAbove := InsertBefore(pendingBelow, sibling, x), InsertBefore(pendingAbove, sibling, x);
      }
    }

    /** compositor_view_restack: returns early when the view already is the neighbour asked for. */
    method RestackView(view: Id, sibling: Id, above: bool)
      requires Linked() && view in views && sibling in views
      modifies `views
      ensures views == Restack(old(views), view, sibling, above)
      ensures Linked() && Elements(views) == old(Elements(views))
    {
      RestackDistinct(views, view, sibling, above);
      if view == sibling { return; }
      var i := IndexOf(view);
      if above {
        if i + 1 < |views| && views[i + 1] == sibling {
          InPlace(views, i);
          return;
        }
        views := InsertBefore(Without(views, view), sibling, view);
      } else {
        if i > 0 && views[i - 1] == sibling {
          InPlace(views, i - 1);
          return;
        }
        views := InsertAfter(Without(views, view), sibling, view);
      }
    }

    method IndexOf(view: Id) returns (i: nat)
      requires view in views
      ensures i < |views| && views[i] == view
    {
      i := 0;
      while views[i] != view
        invariant i < |views| && view in views[i..]
        decreases |views| - i
      {
        i := i + 1;
      }
    }

    /** The pending order becomes current, then the views of the children are moved next to the
        parent's view, each next to the one before it. */
    method Commit()
      requires Linked() && Distinct(Order(parent, Lists(pendingBelow, pendingAbove)))
      modifies `currentBelow, `currentAbove, `views
      ensures Model() == ParentCommit(old(Model()))
      ensures Linked()
      ensures views == if parent in viewed then RestackChildren(old(views), parent, SeenLists(Model().current, viewed))
                       else old(views)
    {
      currentBelow, currentAbove := [], [];
      for i := 0 to |pendingBelow|
        invariant currentBelow == pendingBelow[..i] && currentAbove == [] && views == old(views)
      {
        currentBelow := currentBelow + [pendingBelow[i]];
      }
      assert currentBelow == pendingBelow;
      for i := 0 to |pendingAbove|
        invariant currentAbove == pendingAbove[..i] && currentBelow == pendingBelow && views == old(views)
      {
        currentAbove := currentAbove + [pendingAbove[i]];
      }
      assert currentAbove == pendingAbove;
      if parent in viewed {
        RestackChildViews();
      }
    }

    method RestackChildViews()
      requires Linked() && parent in viewed
      modifies `views
      ensures Linked()
      ensures views == RestackChildren(old(views), parent, SeenLists(Model().current, viewed))
    {
      RestackViewsBelow();
      RestackViewsAbove();
    }

    /** Walks the children below from the nearest one down. */
    method RestackViewsBelow()
      requires Linked() && parent in viewed
      modifies `views
      ensures Linked()
      ensures views == RestackBelow(old(views), parent, Reverse(Seen(currentBelow, viewed)))
    {
      var reference := parent;
      var i := |currentBelow|;
      assert currentBelow[..i] == currentBelow;
      while i > 0
        invariant i <= |currentBelow| && Linked() && reference in viewed
        invariant RestackBelow(views, reference, Reverse(Seen(currentBelow[..i], viewed)))
               == old(RestackBelow(views, parent, Reverse(Seen(currentBelow, viewed))))
      {
        i := i - 1;
        SeenLast(currentBelow, i, viewed);
        if currentBelow[i] in viewed {
          RestackView(currentBelow[i], reference, false);
          reference := currentBelow[i];
        }
      }
    }

    method RestackViewsAbove()
      requires Linked() && parent in viewed
      modifies `views
      ensures Linked()
      ensures views == RestackAbove(old(views), parent, Seen(currentAbove, viewed))
    {
      var reference := parent;
      var i := 0;
      while i < |currentAbove|
        invariant i <= |currentAbove| && Linked() && reference in viewed
        invariant RestackAbove(views, reference, Seen(currentAbove[i..], viewed))
               == old(RestackAbove(views, parent, Seen(currentAbove, viewed)))
      {
        SeenFirst(currentAbove, i, viewed);
        if currentAbove[i] in viewed {
          RestackView(currentAbove[i], reference, true);
          reference := currentAbove[i];
        }
        i := i + 1;
      }
    }
  }

  lemma InPlace(views: seq<Id>, i: nat)
    requires Distinct(views) && i + 1 < |views|
    ensures Restack(views, views[i], views[i + 1], true) == views
    ensures Restack(views, views[i + 1], views[i], false) == views
  {
    assert views[..i] + [views[i], views[i + 1]] + views[i + 2..] == views;
    AlreadyThere(views[..i], views[i], views[i + 1], views[i + 2..]);
  }

  lemma SeenFirst(s: seq<Id>, i: nat, viewed: set<Id>)
    requires i < |s|
    ensures var r := Seen(s[i..], viewed);
      if s[i] in viewed then r != [] && r[0] == s[i] && r[1..] == Seen(s[i + 1..], viewed)
          else r == Seen(s[i + 1..], viewed)
  {
    assert s[i..][1..] == s[i + 1..];
  }

  lemma SeenLast(s: seq<Id>, i: nat, viewed: set<Id>)
    requires i < |s|
    ensures var r := Reverse(Seen(s[..i + 1], viewed));
      if s[i] in viewed then r != [] && r[0] == s[i] && r[1..] == Reverse(Seen(s[..i], viewed))
      else r == Reverse(Seen(s[..i], viewed))
  {
    assert s[..i + 1] == s[..i] + [s[i]];
    SeenConcat(s[..i], [s[i]], viewed);
    assert [s[i]][1..] == [];
    ReverseSnoc(Seen(s[..i], viewed), s[i]);
    assert Seen(s[..i], viewed) + [] == Seen(s[..i], viewed);
  }

  lemma AlreadyThere(pre: seq<Id>, upper: Id, lower: Id, post: seq<Id>)
    requires Distinct(pre + [upper, lower] + post)
    ensures Restack(pre + [upper, lower] + post, upper, lower, true) == pre + [upper, lower] + post
    ensures Restack(pre + [upper, lower] + post, lower, upper, false) == pre + [upper, lower] + post
  {
    var s := pre + [upper, lower] + post;
    assert pre + [upper] + ([lower] + post) == s && pre + [upper, lower] + post == (pre + [upper]) + [lower] + post;
    DistinctSides(pre, upper, [lower] + post);
    DistinctSides(pre + [upper], lower, post);
    WithoutMiddle(pre, [upper, lower], post, upper);
    WithoutMiddle(pre, [upper, lower], post, lower);
    WithoutPair(upper, lower);
    WithoutPair(lower, upper);
    InsertBeforeAt(pre, lower, post, upper);
    InsertAfterAt(pre, upper, post, lower);
  }
}
