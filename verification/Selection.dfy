/** What it means for one sequence to be the chosen elements of another, in their order. */
module Selection {

  /** The indices below `n` of the elements that are chosen. */
  function Chosen<T>(s: seq<T>, p: T -> bool, n: nat): set<nat> {
    set j | 0 <= j < n && j < |s| && p(s[j])
  }

  /** Element `i` comes after exactly as many as are chosen before it. */
  ghost predicate StandsAt<T, U>(s: seq<T>, out: seq<U>, p: T -> bool, f: T -> U, i: nat)
    requires i < |s|
  {
    |Chosen(s, p, i)| < |out| && out[|Chosen(s, p, i)|] == f(s[i])
  }

  /** `out` is what `f` makes of the chosen elements, in their order, each once, and nothing else. */
  ghost predicate Selects<T, U>(s: seq<T>, out: seq<U>, p: T -> bool, f: T -> U) {
    |out| == |Chosen(s, p, |s|)| && forall i :: i in Chosen(s, p, |s|) ==> StandsAt(s, out, p, f, i)
  }

  lemma SelectsNone<T, U>(p: T -> bool, f: T -> U)
    ensures Selects([], [], p, f)
  {
    assert Chosen([], p, 0) == {};
  }

  lemma ChosenGrows<T>(s: seq<T>, p: T -> bool, x: T)
    ensures Chosen(s + [x], p, |s| + 1) == Chosen(s, p, |s|) + if p(x) then {|s|} else {}
    ensures forall i: nat :: i <= |s| ==> Chosen(s + [x], p, i) == Chosen(s, p, i)
    ensures |s| !in Chosen(s, p, |s|)
  {
  }

  lemma SelectsOneMore<T, U>(s: seq<T>, out: seq<U>, p: T -> bool, f: T -> U, x: T)
    requires Selects(s, out, p, f)
    ensures Selects(s + [x], out + if p(x) then [f(x)] else [], p, f)
  {
    var all, more := s + [x], out + if p(x) then [f(x)] else [];
    ChosenGrows(s, p, x);
    forall i | i in Chosen(all, p, |all|) ensures StandsAt(all, more, p, f, i) {
      if i < |s| { assert StandsAt(s, out, p, f, i); }
    }
  }

  /** The same, with the element taken off the end. */
  lemma SelectsLast<T, U>(s: seq<T>, front: seq<U>, out: seq<U>, p: T -> bool, f: T -> U)
    requires s != [] && Selects(s[..|s| - 1], front, p, f)
    requires out == front + if p(s[|s| - 1]) then [f(s[|s| - 1])] else []
    ensures Selects(s, out, p, f)
  {
    SelectsOneMore(s[..|s| - 1], front, p, f, s[|s| - 1]);
    assert s == s[..|s| - 1] + [s[|s| - 1]];
  }

  /** Nothing else is the selection: two sequences that both are it are one. */
  lemma {:induction false} SelectionIsUnique<T, U>(s: seq<T>, a: seq<U>, b: seq<U>, p: T -> bool, f: T -> U)
    requires Selects(s, a, p, f) && Selects(s, b, p, f)
    ensures a == b
  {
    forall k | 0 <= k < |a| ensures a[k] == b[k] {
      var i := AtPosition(s, p, k, |s|);
      assert StandsAt(s, a, p, f, i) && StandsAt(s, b, p, f, i);
    }
  }

  lemma {:induction false} AtPosition<T>(s: seq<T>, p: T -> bool, k: nat, n: nat) returns (i: nat)
    requires k < |Chosen(s, p, n)| && n <= |s|
    ensures i < n && i in Chosen(s, p, |s|) && |Chosen(s, p, i)| == k
  {
    var below := Chosen(s, p, n - 1);
    if p(s[n - 1]) {
      assert Chosen(s, p, n) == below + {n - 1};
    } else {
      assert Chosen(s, p, n) == below;
    }
    if k < |below| {
      i := AtPosition(s, p, k, n - 1);
    } else {
      i := n - 1;
    }
  }
}
