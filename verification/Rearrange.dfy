/** Rearranging an array in place along the cycles of a permutation. */
module Rearrange {

  ghost predicate IsIndex(index: seq<nat>) {
    && (forall i :: 0 <= i < |index| ==> index[i] < |index|)
    && (forall i, j :: 0 <= i < j < |index| ==> index[i] != index[j])
  }

  /** Places in `todo` hold what they held; the others hold what they should, and their
      index says so. */
  ghost predicate Partly<T>(a0: seq<T>, index0: seq<nat>, a: seq<T>, index: seq<nat>, todo: set<nat>) {
    && |a| == |a0| == |index| == |index0| && IsIndex(index0)
    && (forall j :: j in todo ==> j < |a|)
    && (forall j {:trigger a[j]} {:trigger index[j]} :: j in todo ==> a[j] == a0[j] && index[j] == index0[j])
    && (forall j {:trigger a[j]} {:trigger index[j]} :: 0 <= j < |a| && j !in todo ==>
          a[j] == a0[index0[j]] && index[j] == j)
  }

  /** Along the index one stays in `todo`, except at `hole`. */
  ghost predicate Closed(index0: seq<nat>, todo: set<nat>, hole: int) {
    forall j {:trigger index0[j]} :: j in todo && j != hole && j < |index0| ==> index0[j] in todo
  }

  ghost function All(n: nat): (s: set<nat>)
    ensures forall j :: j in s <==> 0 <= j < n
  {
    if n == 0 then {} else All(n - 1) + {n - 1}
  }

  /** `rearrange_nodes_by_int_impl`: afterwards place `i` holds what place `index[i]` held. */
  method ByIndex<T>(a: array<T>, index: array<nat>)
    requires a as object != index as object && a.Length == index.Length && IsIndex(index[..])
    modifies a, index
    ensures forall i :: 0 <= i < a.Length ==> a[i] == old(a[index[i]]) && index[i] == i
  {
    hide Partly, Closed, IsIndex;
    ghost var a0, index0, todo := a[..], index[..], All(a.Length);
    Begin(a0, index0);
    var i := 0;
    while i < a.Length
      invariant 0 <= i <= a.Length && Partly(a0, index0, a[..], index[..], todo) && Closed(index0, todo, -1)
      invariant forall j :: j in todo ==> i <= j
    {
      if index[i] != i {
        todo := Cycle(a, index, i, a0, index0, todo);
      } else if i in todo {
        FixedPoint(a0, index0, a[..], index[..], todo, i);
        todo := todo - {i};
      }
      i := i + 1;
    }
    Finish(a0, index0, a[..], index[..], todo);
  }

  lemma Begin<T>(a0: seq<T>, index0: seq<nat>)
    requires |a0| == |index0| && IsIndex(index0)
    ensures Partly(a0, index0, a0, index0, All(|a0|)) && Closed(index0, All(|a0|), -1)
  {
  }

  lemma Finish<T>(a0: seq<T>, index0: seq<nat>, a: seq<T>, index: seq<nat>, todo: set<nat>)
    requires Partly(a0, index0, a, index, todo) && forall j :: j in todo ==> |a| <= j
    ensures |a| == |a0| == |index| == |index0|
    ensures forall i :: 0 <= i < |a| ==> index0[i] < |a0| && a[i] == a0[index0[i]] && index[i] == i
  {
  }

  lemma FixedPoint<T>(a0: seq<T>, index0: seq<nat>, a: seq<T>, index: seq<nat>, todo: set<nat>, i: nat)
    requires Partly(a0, index0, a, index, todo) && Closed(index0, todo, -1) && i in todo && index[i] == i
    ensures Partly(a0, index0, a, index, todo - {i}) && Closed(index0, todo - {i}, -1)
  {
    forall j | j in todo - {i} && j < |index0| ensures index0[j] in todo - {i} {
      assert index0[j] in todo && index0[i] == i;
      if j < i {
        assert index0[j] != index0[i];
      }
    }
  }

  /** Follows one cycle round, each place taking what the next one held. */
  method Cycle<T>(a: array<T>, index: array<nat>, i: nat, ghost a0: seq<T>, ghost index0: seq<nat>,
                  ghost todo0: set<nat>)
    returns (ghost todo: set<nat>)
    requires a as object != index as object && i < a.Length == index.Length && index[i] != i
    requires Partly(a0, index0, a[..], index[..], todo0) && Closed(index0, todo0, -1)
    modifies a, index
    ensures Partly(a0, index0, a[..], index[..], todo) && Closed(index0, todo, -1)
    ensures todo <= todo0 && i !in todo
  {
    hide Partly, Closed;
    todo := todo0;
    CycleStart(a0, index0, a[..], index[..], todo, i);
    var next := index[i];
    var tmp := a[next];
    while true
      invariant Partly(a0, index0, a[..], index[..], todo) && Closed(index0, todo, i)
      invariant todo <= todo0 && i in todo && next in todo && next < a.Length && i != next
      invariant |index0| == |a0| == a.Length && index0[i] < |a0| && tmp == a0[index0[i]]
      invariant Entered(index0, todo, i, next)
      decreases |todo|
    {
      ghost var s, t := a[..], index[..];
      StepInside(a0, index0, s, t, todo, i, next);
      var curr := next;
      next := index[next];
      a[curr] := a[next];
      index[curr] := curr;
      assert a[..] == s[curr := s[next]] && index[..] == t[curr := curr];
      todo := todo - {curr};
      if next == i {
        break;
      }
    }
    ghost var s, t := a[..], index[..];
    CycleEnd(a0, index0, s, t, todo, i);
    a[i] := tmp;
    index[i] := i;
    assert a[..] == s[i := tmp] && index[..] == t[i := i];
    todo := todo - {i};
  }

  /** Nothing left to do leads to `next` but what is behind: the index is one to one. */
  ghost predicate Entered(index0: seq<nat>, todo: set<nat>, i: nat, next: nat) {
    forall j {:trigger index0[j]} :: j in todo && j != i && j < |index0| ==> index0[j] != next
  }

  lemma CycleStart<T>(a0: seq<T>, index0: seq<nat>, a: seq<T>, index: seq<nat>, todo: set<nat>, i: nat)
    requires Partly(a0, index0, a, index, todo) && Closed(index0, todo, -1) && i < |a| && index[i] != i
    ensures |a0| == |a| == |index0| && index0[i] < |a0|
    ensures i in todo && index[i] in todo && index[i] < |a| && index[i] == index0[i] && a[index[i]] == a0[index0[i]]
    ensures Closed(index0, todo, i) && Entered(index0, todo, i, index[i])
  {
    forall j | j in todo && j != i && j < |index0| ensures index0[j] != index0[i] {
      if j < i {
        assert index0[j] != index0[i];
      }
    }
  }

  lemma StepInside<T>(a0: seq<T>, index0: seq<nat>, a: seq<T>, index: seq<nat>, todo: set<nat>, i: nat, curr: nat)
    requires Partly(a0, index0, a, index, todo) && Closed(index0, todo, i) && Entered(index0, todo, i, curr)
    requires i in todo && curr in todo && curr != i && curr < |a|
    ensures index[curr] < |a| && index[curr] in todo && index[curr] != curr
    ensures Partly(a0, index0, a[curr := a[index[curr]]], index[curr := curr], todo - {curr})
    ensures index[curr] != i ==> Closed(index0, todo - {curr}, i) && Entered(index0, todo - {curr}, i, index[curr])
    ensures index[curr] == i ==> Closed(index0, todo - {curr}, i) && Entered(index0, todo - {curr}, i, i)
  {
    var next := index[curr];
    assert next == index0[curr] && next in todo;
    forall j | j in todo - {curr} && j != i && j < |index0| ensures index0[j] in todo - {curr} && index0[j] != next {
      assert index0[j] in todo && index0[j] != curr;
      if j < curr {
        assert index0[j] != index0[curr];
      }
    }
  }

  /** The cycle is closed: its first place takes what the second held. */
  lemma CycleEnd<T>(a0: seq<T>, index0: seq<nat>, a: seq<T>, index: seq<nat>, todo: set<nat>, i: nat)
    requires Partly(a0, index0, a, index, todo) && Closed(index0, todo, i) && Entered(index0, todo, i, i) && i in todo
    ensures i < |a| && index0[i] < |a0|
    ensures Partly(a0, index0, a[i := a0[index0[i]]], index[i := i], todo - {i}) && Closed(index0, todo - {i}, -1)
  {
    forall j | j in todo - {i} && j < |index0| ensures index0[j] in todo - {i} {
      assert index0[j] in todo && index0[j] != i;
    }
  }
}
