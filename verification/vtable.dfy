/** `CppParser.SetMethodsWindowsOffset` (SharpGen.Platform/CppParser.cs):
    Visual C++ groups the overloads of a virtual method together and lays them
    out in reverse declaration order, at the place of the first overload. The
    list being reordered is modelled as the sequence of declaration slots
    0..n-1; `names[s]` is the name of the method declared in slot `s`. */
module Vtable {
  import opened Wrappers

  /** The name of the method in slot `x` (slots past the end have none). */
  function NameAt(names: seq<Option<string>>, x: nat): Option<string> {
    if x < |names| then names[x] else None
  }

  /** The slots of `xs` whose method is named `n`, in order. */
  function Same(names: seq<Option<string>>, n: Option<string>, xs: seq<nat>): (r: seq<nat>)
    ensures |r| <= |xs|
    decreases |xs|
  {
    if |xs| == 0 then []
    else
      var x := xs[|xs| - 1];
      Same(names, n, xs[..|xs| - 1]) + (if NameAt(names, x) == n then [x] else [])
  }

  /** The slots of `xs` whose method is not named `n`, in order. */
  function Others(names: seq<Option<string>>, n: Option<string>, xs: seq<nat>): (r: seq<nat>)
    ensures |r| <= |xs|
    decreases |xs|
  {
    if |xs| == 0 then []
    else
      var x := xs[|xs| - 1];
      Others(names, n, xs[..|xs| - 1]) + (if NameAt(names, x) == n then [] else [x])
  }

  function Reverse(s: seq<nat>): (r: seq<nat>)
    ensures |r| == |s|
    decreases |s|
  {
    if |s| == 0 then [] else [s[|s| - 1]] + Reverse(s[..|s| - 1])
  }

  /** The Visual C++ order: the overloads of the first method, latest first,
      then the order of the remaining methods. */
  function VtableOrder(names: seq<Option<string>>, xs: seq<nat>): (r: seq<nat>)
    decreases |xs|
  {
    if |xs| == 0 then []
    else
      var n := NameAt(names, xs[0]);
      OthersShorter(names, n, xs);
      Reverse(Same(names, n, xs)) + VtableOrder(names, Others(names, n, xs))
  }

  function Iota(n: nat): (r: seq<nat>)
    ensures |r| == n && forall i :: 0 <= i < n ==> r[i] == i
  {
    seq(n, i => i)
  }

  // ---------------------------------------------------------------------------
  // Facts about the pieces
  // ---------------------------------------------------------------------------

  lemma SameSnoc(names: seq<Option<string>>, n: Option<string>, xs: seq<nat>, x: nat)
    ensures Same(names, n, xs + [x]) == Same(names, n, xs) + (if NameAt(names, x) == n then [x] else [])
    ensures Others(names, n, xs + [x]) == Others(names, n, xs) + (if NameAt(names, x) == n then [] else [x])
  {
    assert (xs + [x])[..|xs|] == xs;
  }

  lemma ReverseSnoc(s: seq<nat>, x: nat)
    ensures Reverse(s + [x]) == [x] + Reverse(s)
  {
    assert (s + [x])[..|s|] == s;
  }

  lemma {:induction false} SplitSizes(names: seq<Option<string>>, n: Option<string>, xs: seq<nat>)
    ensures |Same(names, n, xs)| + |Others(names, n, xs)| == |xs|
    ensures multiset(Same(names, n, xs)) + multiset(Others(names, n, xs)) == multiset(xs)
    decreases |xs|
  {
    if |xs| > 0 {
      var p := xs[..|xs| - 1];
      var x := xs[|xs| - 1];
      SplitSizes(names, n, p);
      assert multiset(xs) == multiset(p) + multiset{x} by {
        assert xs == p + [x];
      }
      if NameAt(names, x) == n {
        AddToOne(Same(names, n, p), Others(names, n, p), p, x, Same(names, n, xs), Others(names, n, xs));
      } else {
        AddToOne(Others(names, n, p), Same(names, n, p), p, x, Others(names, n, xs), Same(names, n, xs));
      }
    }
  }

  /** Appending `x` to one of two pieces that split `p` splits `p + [x]`. */
  lemma AddToOne(A: seq<nat>, B: seq<nat>, p: seq<nat>, x: nat, A': seq<nat>, B': seq<nat>)
    requires |A| + |B| == |p| && multiset(A) + multiset(B) == multiset(p)
    requires A' == A + [x] && B' == B + []
    ensures |A'| + |B'| == |p| + 1 && |B'| + |A'| == |p| + 1
    ensures multiset(A') + multiset(B') == multiset(p) + multiset{x}
    ensures multiset(B') + multiset(A') == multiset(p) + multiset{x}
  {
    assert B + [] == B;
  }

  lemma {:induction false} OthersShorter(names: seq<Option<string>>, n: Option<string>, xs: seq<nat>)
    requires |xs| > 0 && NameAt(names, xs[0]) == n
    ensures |Others(names, n, xs)| < |xs|
    decreases |xs|
  {
    if |xs| > 1 {
      OthersShorter(names, n, xs[..|xs| - 1]);
    }
  }

  lemma {:induction false} SameNamed(names: seq<Option<string>>, n: Option<string>, xs: seq<nat>, k: nat)
    requires k < |Same(names, n, xs)|
    ensures NameAt(names, Same(names, n, xs)[k]) == n
    decreases |xs|
  {
    var p := xs[..|xs| - 1];
    if k < |Same(names, n, p)| {
      SameNamed(names, n, p, k);
    }
  }

  lemma {:induction false} OthersNotNamed(names: seq<Option<string>>, n: Option<string>, xs: seq<nat>)
    ensures forall k :: 0 <= k < |Others(names, n, xs)| ==> NameAt(names, Others(names, n, xs)[k]) != n
    decreases |xs|
  {
    if |xs| > 0 {
      OthersNotNamed(names, n, xs[..|xs| - 1]);
    }
  }

  lemma {:induction false} ReverseAt(s: seq<nat>, k: nat)
    requires k < |s|
    ensures Reverse(s)[k] == s[|s| - 1 - k]
    decreases |s|
  {
    if k > 0 {
      ReverseAt(s[..|s| - 1], k - 1);
    }
  }

  lemma {:induction false} ReverseMultiset(s: seq<nat>)
    ensures multiset(Reverse(s)) == multiset(s)
    decreases |s|
  {
    if |s| > 0 {
      ReverseMultiset(s[..|s| - 1]);
      assert s == s[..|s| - 1] + [s[|s| - 1]];
    }
  }

  // ---------------------------------------------------------------------------
  // Sequence surgery
  // ---------------------------------------------------------------------------

  /** `List.RemoveAt(j)`. */
  function RemoveAt(s: seq<nat>, j: nat): (r: seq<nat>)
    requires j < |s|
    ensures |r| == |s| - 1
  {
    s[..j] + s[j + 1..]
  }

  /** `List.Insert(p, x)`. */
  function InsertAt(s: seq<nat>, p: nat, x: nat): (r: seq<nat>)
    requires p <= |s|
    ensures |r| == |s| + 1
  {
    s[..p] + [x] + s[p..]
  }

  lemma RemoveMiddle(a: seq<nat>, x: nat, b: seq<nat>)
    ensures RemoveAt(a + [x] + b, |a|) == a + b
  {
    var s := a + [x] + b;
    assert s[..|a|] == a;
    assert s[|a| + 1..] == b;
  }

  lemma InsertMiddle(a: seq<nat>, x: nat, b: seq<nat>)
    ensures InsertAt(a + b, |a|, x) == a + [x] + b
  {
    var s := a + b;
    assert s[..|a|] == a;
    assert s[|a|..] == b;
  }

  lemma Assoc(a: seq<nat>, b: seq<nat>, c: seq<nat>)
    ensures a + (b + c) == (a + b) + c
  {
  }

  lemma SplitAt(a: seq<nat>, b: seq<nat>)
    ensures (a + b)[..|a|] == a && (a + b)[|a|..] == b
  {
  }

  // ---------------------------------------------------------------------------
  // The loops
  // ---------------------------------------------------------------------------

  /** The reordering loop as written: for each position, gather every later
      overload of its method in front of it, then move past the group. */
  method Reorder(names: seq<Option<string>>) returns (ms: seq<nat>)
    ensures ms == VtableOrder(names, Iota(|names|))
  {
    var slots := Iota(|names|);
    ms := ReorderFrom(names, slots);
  }

  /** The loop itself, over any starting list of slots. */
  method ReorderFrom(names: seq<Option<string>>, slots: seq<nat>) returns (ms: seq<nat>)
    ensures ms == VtableOrder(names, slots)
  {
    var n := |slots|;
    ms := slots;
    var i := 0;
    ReorderStart(names, ms);
    while i < n
      invariant OuterInvariant(names, VtableOrder(names, slots), ms, i, n)
      decreases n - i
    {
      ms, i := OuterTurn(names, VtableOrder(names, slots), ms, i, n);
    }
    ReorderEnd(names, VtableOrder(names, slots), ms);
  }

  /** One turn of the outer loop: gather the overloads of the method at `i`
      and move past them. */
  method OuterTurn(names: seq<Option<string>>, ghost goal: seq<nat>, ms: seq<nat>, i: int, n: nat)
    returns (ms': seq<nat>, i': int)
    requires OuterInvariant(names, goal, ms, i, n) && i < n
    ensures OuterInvariant(names, goal, ms', i', n) && i < i'
  {
    OuterSplit(names, goal, ms, i, n);
    ms', i' := GatherTurn(names, goal, ms[..i], ms[i..], n);
  }

  /** The gathering step of a turn, on the finished prefix `P` and the rest `R`. */
  method GatherTurn(names: seq<Option<string>>, ghost goal: seq<nat>, P: seq<nat>, R: seq<nat>, n: nat)
    returns (ms': seq<nat>, i': int)
    requires |R| > 0 && |P| + |R| == n && goal == P + VtableOrder(names, R)
    requires |P| > 0 ==> NameAt(names, P[|P| - 1]) != NameAt(names, R[0])
    ensures OuterInvariant(names, goal, ms', i', n) && |P| < i'
  {
    var k;
    ms', k := GatherOverloads(names, P, R);
    OuterStep(names, goal, P, R, ms', k, n);
    i' := k + 1;
  }

  /** The outer loop's invariant: the first `i` slots are final, what follows
      is still to be ordered, and no later method shares the name of the one
      just placed. */
  ghost predicate OuterInvariant(names: seq<Option<string>>, goal: seq<nat>, ms: seq<nat>, i: int, n: nat) {
    && 0 <= i <= n && |ms| == n
    && goal == ms[..i] + VtableOrder(names, ms[i..])
    && (i > 0 ==> forall b :: i <= b < n ==> NameAt(names, ms[b]) != NameAt(names, ms[i - 1]))
  }

  lemma ReorderStart(names: seq<Option<string>>, ms: seq<nat>)
    ensures OuterInvariant(names, VtableOrder(names, ms), ms, 0, |ms|)
  {
    assert ms[..0] == [] && ms[0..] == ms;
  }

  lemma ReorderEnd(names: seq<Option<string>>, goal: seq<nat>, ms: seq<nat>)
    requires OuterInvariant(names, goal, ms, |ms|, |ms|)
    ensures goal == ms
  {
    assert ms[|ms|..] == [] && ms[..|ms|] == ms;
  }

  /** The state at the start of an outer step, as the inner loop needs it. */
  lemma OuterSplit(names: seq<Option<string>>, goal: seq<nat>, ms: seq<nat>, i: int, n: nat)
    requires OuterInvariant(names, goal, ms, i, n) && i < n
    ensures |ms[i..]| > 0 && goal == ms[..i] + VtableOrder(names, ms[i..])
    ensures |ms[..i]| == i && |ms[..i]| + |ms[i..]| == n
    ensures |ms[..i]| > 0 ==> NameAt(names, ms[..i][|ms[..i]| - 1]) != NameAt(names, ms[i..][0])
  {
  }

  /** The outer loop's invariant after one gathering step. */
  lemma OuterStep(names: seq<Option<string>>, goal: seq<nat>, P: seq<nat>, R: seq<nat>, ms: seq<nat>, i: nat, n: nat)
    requires |R| > 0 && |P| + |R| == n
    requires goal == P + VtableOrder(names, R)
    requires ms == P + Reverse(Same(names, NameAt(names, R[0]), R)) + Others(names, NameAt(names, R[0]), R)
    requires i == |P| + |Same(names, NameAt(names, R[0]), R)| - 1
    ensures |P| <= i
    ensures OuterInvariant(names, goal, ms, i + 1, n)
  {
    OuterOrder(names, P, R, ms, i);
    OuterNames(names, P, R, ms, i);
    assert |ms| == n;
    assert goal == ms[..i + 1] + VtableOrder(names, ms[i + 1..]);
    assert forall b :: i + 1 <= b < n ==> NameAt(names, ms[b]) != NameAt(names, ms[i + 1 - 1]);
  }

  /** One step of the Visual C++ order: the overloads of the first method,
      latest first, then the order of the others. */
  lemma OrderHead(names: seq<Option<string>>, R: seq<nat>)
    requires |R| > 0
    ensures VtableOrder(names, R)
      == Reverse(Same(names, NameAt(names, R[0]), R)) + VtableOrder(names, Others(names, NameAt(names, R[0]), R))
  {
  }

  /** One outer step: the gathered group heads the Visual C++ order of what
      was left. */
  lemma OuterOrder(names: seq<Option<string>>, P: seq<nat>, R: seq<nat>, ms: seq<nat>, i: nat)
    requires |R| > 0
    requires ms == P + Reverse(Same(names, NameAt(names, R[0]), R)) + Others(names, NameAt(names, R[0]), R)
    requires i == |P| + |Same(names, NameAt(names, R[0]), R)| - 1
    ensures |P| <= i && i + 1 <= |ms| == |P| + |R|
    ensures P + VtableOrder(names, R) == ms[..i + 1] + VtableOrder(names, ms[i + 1..])
  {
    var name := NameAt(names, R[0]);
    var RS := Reverse(Same(names, name, R));
    var O := Others(names, name, R);
    SameNotEmpty(names, name, R);
    SplitSizes(names, name, R);
    assert |P + RS| == i + 1;
    SplitAt(P + RS, O);
    assert ms[..i + 1] == P + RS;
    assert ms[i + 1..] == O;
    OrderHead(names, R);
    Assoc(P, RS, VtableOrder(names, O));
  }

  /** After an outer step every later method has a name other than the
      group's. */
  lemma OuterNames(names: seq<Option<string>>, P: seq<nat>, R: seq<nat>, ms: seq<nat>, i: nat)
    requires |R| > 0
    requires ms == P + Reverse(Same(names, NameAt(names, R[0]), R)) + Others(names, NameAt(names, R[0]), R)
    requires i == |P| + |Same(names, NameAt(names, R[0]), R)| - 1
    ensures i < |ms|
    ensures forall b :: i + 1 <= b < |ms| ==> NameAt(names, ms[b]) != NameAt(names, ms[i])
  {
    var name := NameAt(names, R[0]);
    var S := Same(names, name, R);
    var O := Others(names, name, R);
    SameNotEmpty(names, name, R);
    SplitSizes(names, name, R);
    ReverseAt(S, |S| - 1);
    SameNamed(names, name, R, 0);
    assert ms[i] == Reverse(S)[|S| - 1];
    OthersNotNamed(names, name, R);
    forall b | i + 1 <= b < |ms|
      ensures NameAt(names, ms[b]) != name
    {
      assert ms[b] == O[b - (i + 1)];
    }
  }

  lemma {:induction false} SameNotEmpty(names: seq<Option<string>>, n: Option<string>, xs: seq<nat>)
    requires |xs| > 0 && NameAt(names, xs[0]) == n
    ensures |Same(names, n, xs)| > 0
    decreases |xs|
  {
    if |xs| > 1 {
      SameNotEmpty(names, n, xs[..|xs| - 1]);
    }
  }

  /** The inner loop for the method at the head of `R`: each later method of
      the same name is removed and inserted before the overloads gathered so
      far; the returned position is the end of the group. */
  method GatherOverloads(names: seq<Option<string>>, P: seq<nat>, R: seq<nat>) returns (ms: seq<nat>, i: nat)
    requires |R| > 0
    requires |P| > 0 ==> NameAt(names, P[|P| - 1]) != NameAt(names, R[0])
    ensures ms == P + Reverse(Same(names, NameAt(names, R[0]), R)) + Others(names, NameAt(names, R[0]), R)
    ensures i == |P| + |Same(names, NameAt(names, R[0]), R)| - 1
  {
    GatherStart(names, P, R);
    ghost var done, rest;
    var j;
    ms, i, j, done, rest := GatherFrom(names, P, R, [R[0]], R[1..], P + R, |P|, |P| + 1);
    GatherEnd(names, P, R, done, rest, ms, i, j);
  }

  /** Runs the inner loop from any state the loop invariant describes. */
  method GatherFrom(names: seq<Option<string>>, P: seq<nat>, R: seq<nat>, ghost done0: seq<nat>, ghost rest0: seq<nat>,
                    ms0: seq<nat>, i0: int, j0: int)
    returns (ms: seq<nat>, i: int, j: int, ghost done: seq<nat>, ghost rest: seq<nat>)
    requires |R| > 0
    requires |P| > 0 ==> NameAt(names, P[|P| - 1]) != NameAt(names, R[0])
    requires GatherInvariant(names, P, R, done0, rest0, ms0, i0, j0)
    ensures GatherInvariant(names, P, R, done, rest, ms, i, j) && j == |P| + |R|
  {
    ms, i, j, done, rest := ms0, i0, j0, done0, rest0;
    var n := |P| + |R|;
    while j < n
      invariant GatherInvariant(names, P, R, done, rest, ms, i, j) && n == |P| + |R|
      decreases n - j
    {
      GatherView(names, P, R, done, rest, ms, i, j);
      ms, i, done, rest := GatherStep(names, P, R, done, rest, ms, i, j);
      j := j + 1;
    }
  }

  /** One turn of the inner loop: the method at `j` moves to the front of
      the group when it is an overload, and stays otherwise. */
  method GatherStep(names: seq<Option<string>>, P: seq<nat>, R: seq<nat>, ghost done: seq<nat>, ghost rest: seq<nat>,
                    ms: seq<nat>, i: nat, j: nat) returns (ms': seq<nat>, i': nat, ghost done': seq<nat>, ghost rest': seq<nat>)
    requires |R| > 0 && GatherInvariant(names, P, R, done, rest, ms, i, j) && j < |P| + |R|
    requires |P| > 0 ==> NameAt(names, P[|P| - 1]) != NameAt(names, R[0])
    requires |rest| > 0 && j < |ms| && ms[j] == rest[0]
    ensures GatherInvariant(names, P, R, done', rest', ms', i', j + 1)
  {
    done', rest' := done + [rest[0]], rest[1..];
    var name := NameAt(names, R[0]);
    var next := ms[j];
    if NameAt(names, next) == name {
      var removed := RemoveAt(ms, j);
      GatherRemove(names, P, R, done, rest, ms, i, j, removed);
      var k := GroupStart(names, name, removed, |P|, i);
      ms' := InsertAt(removed, k + 1, next);
      GatherInsert(names, P, R, done, rest, i, j, removed, ms');
      i' := i + 1;
    } else {
      GatherSkip(names, P, R, done, rest, ms, i, j);
      ms', i' := ms, i;
    }
  }

  /** The inner loop's invariant: `done` has been gathered, `rest` is still
      to be looked at, and `i` ends the group. */
  ghost predicate GatherInvariant(names: seq<Option<string>>, P: seq<nat>, R: seq<nat>,
                                  done: seq<nat>, rest: seq<nat>, ms: seq<nat>, i: int, j: int)
    requires |R| > 0
  {
    var name := NameAt(names, R[0]);
    && |P| <= i < j <= |P| + |R|
    && done + rest == R && |done| == j - |P|
    && ms == P + Reverse(Same(names, name, done)) + Others(names, name, done) + rest
    && i == |P| + |Same(names, name, done)| - 1
  }

  /** The backward walk from the end of the group to the slot before it. */
  method GroupStart(names: seq<Option<string>>, name: Option<string>, ms: seq<nat>, g: nat, i: nat) returns (k: int)
    requires g <= i <= |ms|
    requires g > 0 ==> NameAt(names, ms[g - 1]) != name
    requires forall t :: g <= t < i ==> NameAt(names, ms[t]) == name
    ensures k == g - 1
  {
    k := i - 1;
    while k >= 0 && NameAt(names, ms[k]) == name
      invariant g - 1 <= k <= i - 1
    {
      k := k - 1;
    }
  }

  lemma GatherStart(names: seq<Option<string>>, P: seq<nat>, R: seq<nat>)
    requires |R| > 0
    ensures GatherInvariant(names, P, R, [R[0]], R[1..], P + R, |P|, |P| + 1)
  {
    Singleton(names, R[0]);
    assert [R[0]] + R[1..] == R;
  }

  lemma Singleton(names: seq<Option<string>>, x: nat)
    ensures Same(names, NameAt(names, x), [x]) == [x]
    ensures Others(names, NameAt(names, x), [x]) == []
    ensures Reverse([x]) == [x]
  {
    assert [x][..0] == [];
  }

  lemma GatherEnd(names: seq<Option<string>>, P: seq<nat>, R: seq<nat>,
                  done: seq<nat>, rest: seq<nat>, ms: seq<nat>, i: int, j: int)
    requires |R| > 0 && GatherInvariant(names, P, R, done, rest, ms, i, j) && j >= |P| + |R|
    ensures ms == P + Reverse(Same(names, NameAt(names, R[0]), R)) + Others(names, NameAt(names, R[0]), R)
    ensures i == |P| + |Same(names, NameAt(names, R[0]), R)| - 1
  {
    assert done == R;
  }

  /** Where the next candidate sits. */
  lemma GatherView(names: seq<Option<string>>, P: seq<nat>, R: seq<nat>,
                   done: seq<nat>, rest: seq<nat>, ms: seq<nat>, i: int, j: int)
    requires |R| > 0 && GatherInvariant(names, P, R, done, rest, ms, i, j) && j < |P| + |R|
    ensures |rest| > 0 && j < |ms| && ms[j] == rest[0]
  {
    var name := NameAt(names, R[0]);
    SplitSizes(names, name, done);
    assert j == |P| + |Reverse(Same(names, name, done))| + |Others(names, name, done)|;
  }

  /** After the candidate is removed, the group still spans `|P|` to `i - 1`,
      as the backward walk needs. */
  lemma GatherRemove(names: seq<Option<string>>, P: seq<nat>, R: seq<nat>,
                     done: seq<nat>, rest: seq<nat>, ms: seq<nat>, i: int, j: int, removed: seq<nat>)
    requires |R| > 0 && GatherInvariant(names, P, R, done, rest, ms, i, j) && j < |P| + |R|
    requires |P| > 0 ==> NameAt(names, P[|P| - 1]) != NameAt(names, R[0])
    requires |rest| > 0 && j < |ms| && removed == RemoveAt(ms, j)
    ensures removed == P + Reverse(Same(names, NameAt(names, R[0]), done)) + Others(names, NameAt(names, R[0]), done) + rest[1..]
    ensures |P| <= i <= |removed|
    ensures |P| > 0 ==> NameAt(names, removed[|P| - 1]) != NameAt(names, R[0])
    ensures forall t :: |P| <= t < i ==> NameAt(names, removed[t]) == NameAt(names, R[0])
  {
    var name := NameAt(names, R[0]);
    var RS := Reverse(Same(names, name, done));
    var O := Others(names, name, done);
    SplitSizes(names, name, done);
    assert j == |P| + |RS| + |O|;
    AfterRemove(P, RS, O, rest);
    GroupNamed(names, name, P, done, rest[1..]);
  }

  /** The candidate inserted at the front of the group: one more overload
      gathered. */
  lemma GatherInsert(names: seq<Option<string>>, P: seq<nat>, R: seq<nat>,
                     done: seq<nat>, rest: seq<nat>, i: int, j: int, removed: seq<nat>, ms: seq<nat>)
    requires |R| > 0 && |rest| > 0 && NameAt(names, rest[0]) == NameAt(names, R[0])
    requires done + rest == R && |done| == j - |P| && |P| <= i < j < |P| + |R|
    requires i == |P| + |Same(names, NameAt(names, R[0]), done)| - 1
    requires removed == P + Reverse(Same(names, NameAt(names, R[0]), done)) + Others(names, NameAt(names, R[0]), done) + rest[1..]
    requires |P| <= |removed| && ms == InsertAt(removed, |P|, rest[0])
    ensures GatherInvariant(names, P, R, done + [rest[0]], rest[1..], ms, i + 1, j + 1)
  {
    AfterInsert(names, NameAt(names, R[0]), P, done, rest, ms);
    assert done + [rest[0]] + rest[1..] == done + rest;
  }

  /** A method of another name stays where it is. */
  lemma GatherSkip(names: seq<Option<string>>, P: seq<nat>, R: seq<nat>,
                   done: seq<nat>, rest: seq<nat>, ms: seq<nat>, i: int, j: int)
    requires |R| > 0 && GatherInvariant(names, P, R, done, rest, ms, i, j) && j < |P| + |R|
    requires |rest| > 0 && NameAt(names, rest[0]) != NameAt(names, R[0])
    ensures GatherInvariant(names, P, R, done + [rest[0]], rest[1..], ms, i, j + 1)
  {
    AfterSkip(names, NameAt(names, R[0]), P, done, rest, ms);
    assert done + [rest[0]] + rest[1..] == done + rest;
  }

  /** After the candidate is removed: the methods before the group keep their
      places. */
  lemma AfterRemove(P: seq<nat>, RS: seq<nat>, O: seq<nat>, rest: seq<nat>)
    requires |rest| > 0
    ensures RemoveAt(P + RS + O + rest, |P| + |RS| + |O|) == P + RS + O + rest[1..]
    ensures |P| > 0 ==> (P + RS + O + rest[1..])[|P| - 1] == P[|P| - 1]
  {
    assert P + RS + O + rest == (P + RS + O) + [rest[0]] + rest[1..];
    RemoveMiddle(P + RS + O, rest[0], rest[1..]);
  }

  lemma GroupNamed(names: seq<Option<string>>, name: Option<string>, P: seq<nat>, done: seq<nat>, tail: seq<nat>)
    ensures forall t :: |P| <= t < |P| + |Same(names, name, done)| ==>
      t < |P + Reverse(Same(names, name, done)) + Others(names, name, done) + tail|
      && NameAt(names, (P + Reverse(Same(names, name, done)) + Others(names, name, done) + tail)[t]) == name
  {
    var S := Same(names, name, done);
    var ms := P + Reverse(S) + Others(names, name, done) + tail;
    forall t | |P| <= t < |P| + |S|
      ensures t < |ms| && NameAt(names, ms[t]) == name
    {
      assert ms[t] == Reverse(S)[t - |P|];
      ReverseAt(S, t - |P|);
      SameNamed(names, name, done, |S| - 1 - (t - |P|));
    }
  }

  lemma AfterInsert(names: seq<Option<string>>, name: Option<string>, P: seq<nat>, done: seq<nat>, rest: seq<nat>, ms: seq<nat>)
    requires |rest| > 0 && NameAt(names, rest[0]) == name
    requires ms == InsertAt(P + Reverse(Same(names, name, done)) + Others(names, name, done) + rest[1..], |P|, rest[0])
    ensures ms == P + Reverse(Same(names, name, done + [rest[0]])) + Others(names, name, done + [rest[0]]) + rest[1..]
    ensures |Same(names, name, done + [rest[0]])| == |Same(names, name, done)| + 1
  {
    var x := rest[0];
    var S := Same(names, name, done);
    InsertFront(P, x, Reverse(S), Others(names, name, done), rest[1..]);
    SameSnoc(names, name, done, x);
    ReverseSnoc(S, x);
  }

  lemma InsertFront(P: seq<nat>, x: nat, RS: seq<nat>, O: seq<nat>, T: seq<nat>)
    ensures InsertAt(P + RS + O + T, |P|, x) == P + ([x] + RS) + (O + []) + T
  {
    assert P + RS + O + T == P + (RS + O + T);
    InsertMiddle(P, x, RS + O + T);
    assert O + [] == O;
  }

  lemma AfterSkip(names: seq<Option<string>>, name: Option<string>, P: seq<nat>, done: seq<nat>, rest: seq<nat>, ms: seq<nat>)
    requires |rest| > 0 && NameAt(names, rest[0]) != name
    requires ms == P + Reverse(Same(names, name, done)) + Others(names, name, done) + rest
    ensures ms == P + Reverse(Same(names, name, done + [rest[0]])) + Others(names, name, done + [rest[0]]) + rest[1..]
    ensures |Same(names, name, done + [rest[0]])| == |Same(names, name, done)|
  {
    SameSnoc(names, name, done, rest[0]);
    var S := Same(names, name, done);
    assert Same(names, name, done + [rest[0]]) == S + [] == S;
    var RS := Reverse(S);
    var O := Others(names, name, done);
    assert Others(names, name, done + [rest[0]]) == O + [rest[0]];
    assert P + RS + O + rest == P + RS + (O + [rest[0]]) + rest[1..];
  }

  // ---------------------------------------------------------------------------
  // What the order is
  // ---------------------------------------------------------------------------

  /** The reorder only moves methods: every slot keeps exactly one place. */
  lemma {:induction false} VtableOrderIsPermutation(names: seq<Option<string>>, xs: seq<nat>)
    ensures multiset(VtableOrder(names, xs)) == multiset(xs)
    decreases |xs|
  {
    if |xs| > 0 {
      var n := NameAt(names, xs[0]);
      OthersShorter(names, n, xs);
      VtableOrderIsPermutation(names, Others(names, n, xs));
      SplitSizes(names, n, xs);
      ReverseMultiset(Same(names, n, xs));
    }
  }

  /** No two methods of `xs` share a name. */
  ghost predicate DistinctNames(names: seq<Option<string>>, xs: seq<nat>) {
    forall a, b :: 0 <= a < b < |xs| ==> NameAt(names, xs[a]) != NameAt(names, xs[b])
  }

  /** Without overloads nothing moves. */
  lemma {:induction false} DistinctNamesKeepOrder(names: seq<Option<string>>, xs: seq<nat>)
    requires DistinctNames(names, xs)
    ensures VtableOrder(names, xs) == xs
    decreases |xs|
  {
    if |xs| > 0 {
      DistinctSplit(names, xs);
      OnlyHeadNamed(names, NameAt(names, xs[0]), xs);
      DistinctNamesKeepOrder(names, xs[1..]);
      OrderHead(names, xs);
      Singleton(names, xs[0]);
      assert xs == [xs[0]] + xs[1..];
    }
  }

  lemma DistinctSplit(names: seq<Option<string>>, xs: seq<nat>)
    requires |xs| > 0 && DistinctNames(names, xs)
    ensures DistinctNames(names, xs[1..])
    ensures forall b :: 0 < b < |xs| ==> NameAt(names, xs[b]) != NameAt(names, xs[0])
  {
    var tail := xs[1..];
    forall a, b | 0 <= a < b < |tail|
      ensures NameAt(names, tail[a]) != NameAt(names, tail[b])
    {
      assert tail[a] == xs[a + 1] && tail[b] == xs[b + 1];
    }
  }

  /** When only the head of `xs` carries its name, the group is the head alone
      and the rest keeps its order. */
  lemma {:induction false} OnlyHeadNamed(names: seq<Option<string>>, n: Option<string>, xs: seq<nat>)
    requires |xs| > 0 && NameAt(names, xs[0]) == n
    requires forall b :: 0 < b < |xs| ==> NameAt(names, xs[b]) != n
    ensures Same(names, n, xs) == [xs[0]] && Others(names, n, xs) == xs[1..]
    decreases |xs|
  {
    if |xs| == 1 {
      assert xs[..0] == [];
    } else {
      var p := xs[..|xs| - 1];
      OnlyHeadNamed(names, n, p);
      assert xs[1..] == p[1..] + [xs[|xs| - 1]];
    }
  }

  /** `[Create, Release, Create]`: the second `Create` takes the first slot,
      then the first `Create`, then `Release`. */
  lemma CreateReleaseCreate(create: Option<string>, release: Option<string>)
    requires create != release
    ensures VtableOrder([create, release, create], [0, 1, 2]) == [2, 0, 1]
  {
    var names := [create, release, create];
    var xs: seq<nat> := [0, 1, 2];
    CreateSplit(create, release);
    ReverseTwo();
    ReleaseAlone(create, release);
    assert NameAt(names, xs[0]) == create;
  }

  lemma CreateSplit(create: Option<string>, release: Option<string>)
    requires create != release
    ensures Same([create, release, create], create, [0, 1, 2]) == [0, 2]
    ensures Others([create, release, create], create, [0, 1, 2]) == [1]
  {
    var names := [create, release, create];
    assert NameAt(names, 0) == create && NameAt(names, 1) != create && NameAt(names, 2) == create;
    SplitThree(names, create);
  }

  lemma SplitOne(names: seq<Option<string>>, n: Option<string>)
    requires NameAt(names, 0) == n
    ensures Same(names, n, [0]) == [0] && Others(names, n, [0]) == []
  {
    var e: seq<nat> := [];
    SameSnoc(names, n, e, 0);
    assert e + [0] == [0];
  }

  lemma SplitTwo(names: seq<Option<string>>, n: Option<string>)
    requires NameAt(names, 0) == n && NameAt(names, 1) != n
    ensures Same(names, n, [0, 1]) == [0] && Others(names, n, [0, 1]) == [1]
  {
    SplitOne(names, n);
    SameSnoc(names, n, [0], 1);
    assert [0] + [1] == [0, 1];
  }

  lemma SplitThree(names: seq<Option<string>>, n: Option<string>)
    requires NameAt(names, 0) == n && NameAt(names, 1) != n && NameAt(names, 2) == n
    ensures Same(names, n, [0, 1, 2]) == [0, 2] && Others(names, n, [0, 1, 2]) == [1]
  {
    SplitTwo(names, n);
    SameSnoc(names, n, [0, 1], 2);
    assert [0, 1] + [2] == [0, 1, 2];
  }

  lemma ReverseTwo()
    ensures Reverse([0, 2]) == [2, 0]
  {
    var e: seq<nat> := [];
    ReverseSnoc(e, 0);
    assert e + [0] == [0];
    ReverseSnoc([0], 2);
    assert [0] + [2] == [0, 2];
  }

  lemma ReleaseAlone(create: Option<string>, release: Option<string>)
    requires create != release
    ensures VtableOrder([create, release, create], [1]) == [1]
  {
    OneSlot([create, release, create], 1);
  }

  /** A single slot orders to itself. */
  lemma OneSlot(names: seq<Option<string>>, x: nat)
    ensures VtableOrder(names, [x]) == [x]
  {
    var e: seq<nat> := [];
    var n := NameAt(names, x);
    SameSnoc(names, n, e, x);
    assert e + [x] == [x];
    ReverseSnoc(e, x);
  }

  // ---------------------------------------------------------------------------
  // Windows offsets
  // ---------------------------------------------------------------------------

  /** The final loop: the method at position `q` of the reordered list gets
      `start + q`. Offsets are indexed by declaration slot. */
  method SetMethodsWindowsOffset(names: seq<Option<string>>, start: int) returns (offsets: seq<int>)
    ensures offsets == WindowsOffsets(names, start)
  {
    var order := Reorder(names);
    VtableOrderIsPermutation(names, Iota(|names|));
    PermutationOfIota(order, |names|);
    offsets := OffsetsFrom(order, start);
    LoopGivesWindowsOffsets(names, start, order, offsets);
  }

  /** The loop itself, over any order that lists each slot once. */
  method OffsetsFrom(order: seq<nat>, start: int) returns (offsets: seq<int>)
    requires forall q :: 0 <= q < |order| ==> order[q] < |order|
    requires forall p, q :: 0 <= p < q < |order| ==> order[p] != order[q]
    ensures |offsets| == |order|
    ensures forall q :: 0 <= q < |order| ==> offsets[order[q]] == start + q
  {
    var n := |order|;
    offsets := seq(n, _ => start);
    var q := 0;
    while q < n
      invariant 0 <= q <= n && |offsets| == n
      invariant forall p :: 0 <= p < q ==> offsets[order[p]] == start + p
    {
      offsets := offsets[order[q] := start + q];
      q := q + 1;
    }
  }

  /** The Visual C++ slot of each declared method: `start` plus its position
      in the Visual C++ order. */
  function WindowsOffsets(names: seq<Option<string>>, start: int): (r: seq<int>)
    ensures |r| == |names|
  {
    var order := VtableOrder(names, Iota(|names|));
    VtableOrderIsPermutation(names, Iota(|names|));
    PermutationOfIota(order, |names|);
    OffsetsAlong(order, start)
  }

  /** Slot `s` gets `start` plus the position of `s` in `order`. */
  function OffsetsAlong(order: seq<nat>, start: int): (r: seq<int>)
    requires forall s :: 0 <= s < |order| ==> s in order
    ensures |r| == |order|
  {
    seq(|order|, s requires 0 <= s < |order| => start + Position(order, s))
  }

  lemma LoopGivesWindowsOffsets(names: seq<Option<string>>, start: int, order: seq<nat>, offsets: seq<int>)
    requires order == VtableOrder(names, Iota(|names|)) && |offsets| == |names|
    requires multiset(order) == multiset(Iota(|names|))
    requires |order| == |names| && forall q :: 0 <= q < |names| ==> order[q] < |names|
    requires forall q :: 0 <= q < |names| ==> offsets[order[q]] == start + q
    ensures offsets == WindowsOffsets(names, start)
  {
    PermutationOfIota(order, |names|);
    LoopGivesOffsetsAlong(order, start, offsets);
  }

  lemma LoopGivesOffsetsAlong(order: seq<nat>, start: int, offsets: seq<int>)
    requires |offsets| == |order|
    requires forall s :: 0 <= s < |order| ==> s in order
    requires forall p, q :: 0 <= p < q < |order| ==> order[p] != order[q]
    requires forall q :: 0 <= q < |order| ==> order[q] < |order| && offsets[order[q]] == start + q
    ensures offsets == OffsetsAlong(order, start)
  {
    OffsetsRange(order, offsets, start, |order|);
    var w := OffsetsAlong(order, start);
    forall s | 0 <= s < |order|
      ensures offsets[s] == w[s]
    {
    }
  }

  /** The Visual C++ slots are `start..start+n-1`, each used once, handed out
      along the Visual C++ order. */
  lemma WindowsOffsetsFacts(names: seq<Option<string>>, start: int)
    ensures var offsets := WindowsOffsets(names, start);
      var order := VtableOrder(names, Iota(|names|));
      && |order| == |names|
      && (forall q :: 0 <= q < |names| ==> order[q] < |names| && offsets[order[q]] == start + q)
      && (forall s :: 0 <= s < |names| ==> start <= offsets[s] < start + |names|)
      && (forall s, t :: 0 <= s < t < |names| ==> offsets[s] != offsets[t])
  {
    var order := VtableOrder(names, Iota(|names|));
    VtableOrderIsPermutation(names, Iota(|names|));
    PermutationOfIota(order, |names|);
    AlongFacts(order, start, |names|);
  }

  lemma AlongFacts(order: seq<nat>, start: int, n: nat)
    requires |order| == n
    requires forall q :: 0 <= q < n ==> order[q] < n
    requires forall p, q :: 0 <= p < q < n ==> order[p] != order[q]
    requires forall s :: 0 <= s < n ==> s in order
    ensures var offsets := OffsetsAlong(order, start);
      && (forall q :: 0 <= q < n ==> offsets[order[q]] == start + q)
      && (forall s :: 0 <= s < n ==> start <= offsets[s] < start + n)
      && (forall s, t :: 0 <= s < t < n ==> offsets[s] != offsets[t])
  {
    var offsets := OffsetsAlong(order, start);
    forall q | 0 <= q < n
      ensures offsets[order[q]] == start + q
    {
      PositionOfDistinct(order, q);
    }
    OffsetsRange(order, offsets, start, n);
  }

  /** In a sequence without repeats, the position of the element at `q` is `q`. */
  lemma {:induction false} PositionOfDistinct(order: seq<nat>, q: nat)
    requires q < |order|
    requires forall p, r :: 0 <= p < r < |order| ==> order[p] != order[r]
    ensures Position(order, order[q]) == q
    decreases q
  {
    if q > 0 {
      assert order[0] != order[q];
      PositionOfDistinct(order[1..], q - 1);
    }
  }

  /** Offsets handed out along a permutation of the slots are distinct and
      lie in `start..start+n-1`. */
  lemma OffsetsRange(order: seq<nat>, offsets: seq<int>, start: int, n: nat)
    requires |order| == n && |offsets| == n
    requires forall s :: 0 <= s < n ==> s in order
    requires forall q :: 0 <= q < n ==> order[q] < n && offsets[order[q]] == start + q
    ensures forall s :: 0 <= s < n ==> start <= offsets[s] < start + n
    ensures forall s, t :: 0 <= s < t < n ==> offsets[s] != offsets[t]
    ensures forall s :: 0 <= s < n ==> s in order && offsets[s] == start + Position(order, s)
  {
    forall s | 0 <= s < n
      ensures offsets[s] == start + Position(order, s)
    {
      var p := Position(order, s);
    }
  }

  /** A permutation of `0..n-1` holds each slot once. */
  lemma PermutationOfIota(order: seq<nat>, n: nat)
    requires multiset(order) == multiset(Iota(n))
    ensures |order| == n
    ensures forall q :: 0 <= q < n ==> order[q] < n
    ensures forall p, q :: 0 <= p < q < n ==> order[p] != order[q]
    ensures forall s :: 0 <= s < n ==> s in order
  {
    assert |order| == |multiset(order)| == |Iota(n)|;
    forall q | 0 <= q < n ensures order[q] < n {
      assert order[q] in multiset(Iota(n));
    }
    forall s | 0 <= s < n ensures s in order {
      assert Iota(n)[s] == s;
      assert s in multiset(Iota(n));
    }
    forall p, q | 0 <= p < q < n ensures order[p] != order[q] {
      if order[p] == order[q] {
        var v := order[p];
        TwoOccurrences(order, p, q);
        IotaOnce(n, v);
      }
    }
  }

  lemma TwoOccurrences(s: seq<nat>, p: nat, q: nat)
    requires p < q < |s| && s[p] == s[q]
    ensures multiset(s)[s[p]] >= 2
  {
    var v := s[p];
    assert s == s[..q] + [v] + s[q + 1..];
    assert s[..q][p] == v;
    assert multiset(s[..q])[v] >= 1;
  }

  lemma {:induction false} IotaOnce(n: nat, v: nat)
    ensures multiset(Iota(n))[v] <= 1
    decreases n
  {
    if n > 0 {
      IotaOnce(n - 1, v);
      assert Iota(n) == Iota(n - 1) + [n - 1];
      if v == n - 1 {
        assert v !in Iota(n - 1);
      }
    }
  }

  function Position(order: seq<nat>, s: nat): (p: nat)
    requires s in order
    ensures p < |order| && order[p] == s
  {
    if order[0] == s then 0 else 1 + Position(order[1..], s)
  }
}
