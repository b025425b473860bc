/** The process tree `tools/gate.py` stops under its floor: a pid and everything under it, from the rows `ps`
    prints. */
module ProcessTree {

  /** A row of `ps -o pid=,ppid=`. */
  datatype Row = Row(child: int, parent: int)

  /** The children of `p`, in the order of their rows. */
  function ChildrenOf(rows: seq<Row>, p: int): seq<int> {
    if |rows| == 0 then []
    else
      var last := rows[|rows| - 1];
      ChildrenOf(rows[..|rows| - 1], p) + if last.parent == p then [last.child] else []
  }

  /** Each pid has one row: one parent. */
  predicate OneRowEach(rows: seq<Row>) {
    forall i, j :: 0 <= i < j < |rows| ==> rows[i].child != rows[j].child
  }

  /** A line of descent, each the parent of the next. */
  predicate Descent(rows: seq<Row>, path: seq<int>) {
    |path| > 0 && forall i :: 0 <= i < |path| - 1 ==> Row(path[i + 1], path[i]) in rows
  }

  /** `b` is `a` or under it. */
  ghost predicate Under(rows: seq<Row>, a: int, b: int) {
    exists path :: Descent(rows, path) && path[0] == a && path[|path| - 1] == b
  }

  ghost predicate OnCycle(rows: seq<Row>, a: int) {
    exists path :: Descent(rows, path) && |path| > 1 && path[0] == a && path[|path| - 1] == a
  }

  predicate Distinct(s: seq<int>) {
    forall i, j :: 0 <= i < j < |s| ==> s[i] != s[j]
  }

  lemma {:induction false} ChildExactly(rows: seq<Row>, p: int, c: int)
    ensures c in ChildrenOf(rows, p) <==> Row(c, p) in rows
  {
    if |rows| > 0 {
      ChildExactly(rows[..|rows| - 1], p, c);
      assert forall r :: r in rows <==> r in rows[..|rows| - 1] || r == rows[|rows| - 1];
    }
  }

  lemma {:induction false} ChildrenDistinct(rows: seq<Row>, p: int)
    requires OneRowEach(rows)
    ensures Distinct(ChildrenOf(rows, p))
  {
    if |rows| > 0 {
      var before, last := rows[..|rows| - 1], rows[|rows| - 1];
      ChildrenDistinct(before, p);
      ChildExactly(before, p, last.child);
      assert forall i :: 0 <= i < |before| ==> before[i] == rows[i] && rows[i].child != last.child;
    }
  }

  lemma OneParent(rows: seq<Row>, c: int, p: int, q: int)
    requires OneRowEach(rows) && Row(c, p) in rows && Row(c, q) in rows
    ensures p == q
  {
    var i :| 0 <= i < |rows| && rows[i] == Row(c, p);
    var j :| 0 <= j < |rows| && rows[j] == Row(c, q);
  }

  lemma UnderSelf(rows: seq<Row>, a: int)
    ensures Under(rows, a, a)
  {
    assert Descent(rows, [a]);
  }

  lemma UnderOn(rows: seq<Row>, a: int, p: int, c: int)
    requires Under(rows, a, p) && Row(c, p) in rows
    ensures Under(rows, a, c)
    ensures c == a ==> OnCycle(rows, a)
  {
    var path :| Descent(rows, path) && path[0] == a && path[|path| - 1] == p;
    var longer := path + [c];
    assert Descent(rows, longer) && longer[0] == a && longer[|longer| - 1] == c;
  }

  ghost predicate AllUnder(rows: seq<Row>, root: int, pids: seq<int>) {
    forall x :: x in pids ==> Under(rows, root, x)
  }

  /** How many of the pids found come before the `i`th. */
  function Before(found: seq<int>, i: nat): seq<int> {
    found[..if i < |found| then i else |found|]
  }

  ghost predicate ParentsBefore(rows: seq<Row>, found: seq<int>, pids: seq<int>) {
    forall i :: 1 <= i < |pids| ==> ParentIn(rows, Before(found, i), pids[i])
  }

  predicate ChildrenAmong(rows: seq<Row>, found: seq<int>, pids: seq<int>) {
    forall r :: r in rows && r.parent in found ==> r.child in pids
  }

  /** What the loop keeps: pids found, then those still on the stack, each once, each under the root by a
      parent found before it, and every child of a pid found among them. */
  ghost predicate Inv(rows: seq<Row>, root: int, found: seq<int>, stack: seq<int>) {
    && Distinct(found + stack)
    && |found + stack| > 0 && (found + stack)[0] == root && (|found| == 0 ==> |stack| == 1)
    && AllUnder(rows, root, found + stack)
    && ParentsBefore(rows, found, found + stack)
    && ChildrenAmong(rows, found, found + stack)
  }

  ghost predicate ParentIn(rows: seq<Row>, found: seq<int>, c: int) {
    exists p :: p in found && Row(c, p) in rows
  }

  lemma WaitingNotFound(found: seq<int>, stack: seq<int>, p: int)
    requires Distinct(found + stack) && p in stack
    ensures p !in found
  {
    var all := found + stack;
    var m :| 0 <= m < |stack| && stack[m] == p;
    assert all[|found| + m] == p;
    assert forall j :: 0 <= j < |found| ==> all[j] == found[j];
  }

  /** A child of the pid popped was neither found nor waiting. */
  lemma ChildIsNew(rows: seq<Row>, root: int, found: seq<int>, stack: seq<int>, p: int, c: int)
    requires OneRowEach(rows) && !OnCycle(rows, root) && Inv(rows, root, found, stack)
    requires p in stack && Row(c, p) in rows
    ensures c !in found + stack
  {
    var all := found + stack;
    assert p in all;
    UnderOn(rows, root, p, c);
    WaitingNotFound(found, stack, p);
    forall i | 0 <= i < |all|
      ensures all[i] != c
    {
      if i > 0 {
        assert ParentIn(rows, Before(found, i), all[i]);
        var q :| q in Before(found, i) && Row(all[i], q) in rows;
        if all[i] == c {
          OneParent(rows, c, p, q);
        }
      }
    }
  }

  /** The pid popped is found, and its children wait. */
  lemma PopKeepsInv(rows: seq<Row>, root: int, found: seq<int>, stack: seq<int>)
    requires OneRowEach(rows) && !OnCycle(rows, root) && Inv(rows, root, found, stack) && |stack| > 0
    ensures Inv(rows, root, found + [stack[|stack| - 1]], Popped(rows, stack))
  {
    hide OnCycle, OneRowEach;
    PopDistinct(rows, root, found, stack);
    PopUnder(rows, root, found, stack);
    PopParents(rows, root, found, stack);
    PopClosed(rows, root, found, stack);
    hide AllUnder, ParentsBefore, ChildrenAmong, Distinct, Popped;
  }

  /** The stack after `p` is popped from it. */
  function Popped(rows: seq<Row>, stack: seq<int>): seq<int>
    requires |stack| > 0
  {
    stack[..|stack| - 1] + ChildrenOf(rows, stack[|stack| - 1])
  }

  /** The stack `n` passes of the loop on, where the loop goes that far. */
  function StackAfter(rows: seq<Row>, root: int, n: nat): seq<int> {
    if n == 0 then [root]
    else
      var stack := StackAfter(rows, root, n - 1);
      if |stack| == 0 then [] else Popped(rows, stack)
  }

  lemma PopDistinct(rows: seq<Row>, root: int, found: seq<int>, stack: seq<int>)
    requires OneRowEach(rows) && !OnCycle(rows, root) && Inv(rows, root, found, stack) && |stack| > 0
    ensures Distinct(found + [stack[|stack| - 1]] + Popped(rows, stack))
  {
    var p, rest := stack[|stack| - 1], stack[..|stack| - 1];
    var children := ChildrenOf(rows, p);
    ChildrenDistinct(rows, p);
    forall c | c in children
      ensures c !in found + stack
    {
      ChildExactly(rows, p, c);
      ChildIsNew(rows, root, found, stack, p, c);
    }
    assert stack == rest + [p];
    DistinctJoin(found, rest, p, children);
  }

  lemma DistinctJoin(found: seq<int>, rest: seq<int>, p: int, children: seq<int>)
    requires Distinct(found + (rest + [p])) && Distinct(children)
    requires forall c :: c in children ==> c !in found + (rest + [p])
    ensures Distinct(found + [p] + (rest + children))
  {
    var all, now := found + (rest + [p]), found + [p] + (rest + children);
    var n, m := |found|, |rest|;
    forall i, j | 0 <= i < j < |now|
      ensures now[i] != now[j]
    {
      // Where each element stood before.
      var i' := if i < n then i else if i == n then n + m else i - 1;
      var j' := if j < n then j else if j == n then n + m else j - 1;
      if j >= n + 1 + m {
        if i < n + 1 + m {
          assert now[i] == all[i'] && now[j] in children;
        } else {
          assert now[i] == children[i - n - 1 - m] && now[j] == children[j - n - 1 - m];
        }
      } else {
        assert now[i] == all[i'] && now[j] == all[j'];
      }
    }
  }

  lemma PopUnder(rows: seq<Row>, root: int, found: seq<int>, stack: seq<int>)
    requires Inv(rows, root, found, stack) && |stack| > 0
    ensures AllUnder(rows, root, found + [stack[|stack| - 1]] + Popped(rows, stack))
  {
    var p := stack[|stack| - 1];
    hide Under;
    assert p in found + stack;
    forall x | x in found + [p] + Popped(rows, stack)
      ensures Under(rows, root, x)
    {
      if x in ChildrenOf(rows, p) {
        ChildExactly(rows, p, x);
        UnderOn(rows, root, p, x);
      } else {
        assert x in found + stack;
      }
    }
  }

  lemma PopParents(rows: seq<Row>, root: int, found: seq<int>, stack: seq<int>)
    requires Inv(rows, root, found, stack) && |stack| > 0
    ensures var found' := found + [stack[|stack| - 1]];
            ParentsBefore(rows, found', found' + Popped(rows, stack))
  {
    var p, rest := stack[|stack| - 1], stack[..|stack| - 1];
    var found' := found + [p];
    var all, now := found + stack, found' + Popped(rows, stack);
    var n, m := |found|, |rest|;
    hide Under, ChildrenOf, ParentIn;
    forall i | 1 <= i < |now|
      ensures ParentIn(rows, Before(found', i), now[i])
    {
      if i < n {
        assert all[i] == now[i] && found'[..i] == found[..i];
      } else if i == n {
        assert all[n + m] == p == now[i] && found'[..i] == found[..n];
      } else if i < n + 1 + m {
        assert all[i - 1] == now[i] && found[..n] == found && n > 0;
        assert ParentIn(rows, Before(found, i - 1), all[i - 1]);
        ParentInMore(rows, found, p, now[i]);
        assert found'[..|found'|] == found';
      } else {
        assert now[i] in ChildrenOf(rows, p);
        ChildExactly(rows, p, now[i]);
        ParentLast(rows, found, p, now[i]);
        assert found'[..|found'|] == found';
      }
    }
  }

  lemma ParentInMore(rows: seq<Row>, found: seq<int>, p: int, c: int)
    requires ParentIn(rows, found, c)
    ensures ParentIn(rows, found + [p], c)
  {
    var q :| q in found && Row(c, q) in rows;
    assert q in found + [p];
  }

  lemma ParentLast(rows: seq<Row>, found: seq<int>, p: int, c: int)
    requires Row(c, p) in rows
    ensures ParentIn(rows, found + [p], c)
  {
    assert p in found + [p];
  }

  lemma PopClosed(rows: seq<Row>, root: int, found: seq<int>, stack: seq<int>)
    requires Inv(rows, root, found, stack) && |stack| > 0
    ensures var found' := found + [stack[|stack| - 1]];
            ChildrenAmong(rows, found', found' + Popped(rows, stack))
  {
    var p := stack[|stack| - 1];
    hide AllUnder, ParentsBefore, ChildrenOf, Distinct;
    forall r | r in rows && r.parent in found + [p]
      ensures r.child in found + [p] + Popped(rows, stack)
    {
      ChildExactly(rows, p, r.child);
      if r.parent != p {
        assert r.child in found + stack;
        assert r.child in stack ==> r.child == p || r.child in stack[..|stack| - 1];
      }
    }
  }

  // ---- the end of the loop ----

  /** Every pid a row or the root names. */
  function Pids(rows: seq<Row>, root: int): set<int> {
    {root} + set r | r in rows :: r.child
  }

  lemma {:induction false} DistinctSize(s: seq<int>, within: set<int>)
    requires Distinct(s) && forall x :: x in s ==> x in within
    ensures |s| <= |within|
  {
    if |s| > 0 {
      var last, before := s[|s| - 1], s[..|s| - 1];
      DistinctSize(before, within - {last});
    }
  }

  lemma FoundWithin(rows: seq<Row>, root: int, found: seq<int>, stack: seq<int>)
    requires Inv(rows, root, found, stack)
    ensures |found| + |stack| <= |Pids(rows, root)|
  {
    var all := found + stack;
    hide Under;
    forall x | x in all
      ensures x in Pids(rows, root)
    {
      var i :| 0 <= i < |all| && all[i] == x;
      if i > 0 {
        assert ParentIn(rows, Before(found, i), x);
        var p :| p in Before(found, i) && Row(x, p) in rows;
      }
    }
    DistinctSize(all, Pids(rows, root));
  }

  lemma {:induction false} DescentFound(rows: seq<Row>, root: int, found: seq<int>, path: seq<int>)
    requires Inv(rows, root, found, []) && Descent(rows, path) && path[0] == root
    ensures path[|path| - 1] in found
  {
    assert found + [] == found;
    if |path| > 1 {
      var before := path[..|path| - 1];
      DescentFound(rows, root, found, before);
      assert Row(path[|path| - 2 + 1], path[|path| - 2]) in rows;
    }
  }

  /** `descendants`: the root and everything under it, each once, a parent before its children. It ends, by
      the pids not yet found, where each pid has one row and the root is on no cycle. */
  method Descendants(rows: seq<Row>, root: int) returns (found: seq<int>)
    requires OneRowEach(rows) && !OnCycle(rows, root)
    ensures Distinct(found)
    ensures forall x :: x in found <==> Under(rows, root, x)
    ensures |found| > 0 && found[0] == root
    ensures forall i, j :: 0 <= i < |found| && 0 <= j < |found| && Row(found[j], found[i]) in rows ==> i < j
  {
    hide Inv, ChildrenOf, Under, OnCycle, OneRowEach, Distinct, Gathers, StackAfter;
    var children: map<int, seq<int>> := map[];
    NoRows();
    for i := 0 to |rows|
      invariant Gathers(children, rows[..i])
    {
      RowAdded(children, rows, i);
      var row := rows[i];
      children := children[row.parent := (if row.parent in children then children[row.parent] else []) + [row.child]];
    }
    assert rows[..|rows|] == rows;
    found := [];
    var stack := [root];
    StartInv(rows, root);
    NextStack(rows, root, 0);
    while |stack| > 0
      invariant Inv(rows, root, found, stack)
      invariant stack == StackAfter(rows, root, |found|)
      decreases |Pids(rows, root)| - |found|
    {
      FoundWithin(rows, root, found, stack);
      PopKeepsInv(rows, root, found, stack);
      NextStack(rows, root, |found|);
      var p := stack[|stack| - 1];
      GatheredAt(children, rows, p);
      stack := stack[..|stack| - 1];
      found := found + [p];
      stack := stack + (if p in children then children[p] else []);
    }
    AllFound(rows, root, found);
  }

  /** The dictionary of each pid's children. */
  ghost predicate Gathers(children: map<int, seq<int>>, rows: seq<Row>) {
    forall p :: (if p in children then children[p] else []) == ChildrenOf(rows, p)
  }

  lemma NoRows()
    ensures forall rows: seq<Row> :: |rows| == 0 ==> Gathers(map[], rows)
  {
  }

  lemma RowAdded(children: map<int, seq<int>>, rows: seq<Row>, i: nat)
    requires i < |rows| && Gathers(children, rows[..i])
    ensures var row := rows[i];
            Gathers(children[row.parent := (if row.parent in children then children[row.parent] else []) + [row.child]],
                    rows[..i + 1])
  {
    assert rows[..i + 1][..i] == rows[..i];
  }

  lemma GatheredAt(children: map<int, seq<int>>, rows: seq<Row>, p: int)
    requires Gathers(children, rows)
    ensures (if p in children then children[p] else []) == ChildrenOf(rows, p)
  {
  }

  lemma NextStack(rows: seq<Row>, root: int, n: nat)
    ensures StackAfter(rows, root, 0) == [root]
    ensures |StackAfter(rows, root, n)| > 0 ==> StackAfter(rows, root, n + 1) == Popped(rows, StackAfter(rows, root, n))
  {
  }

  lemma StartInv(rows: seq<Row>, root: int)
    ensures Inv(rows, root, [], [root])
  {
    assert [] + [root] == [root];
    UnderSelf(rows, root);
  }

  lemma AllFound(rows: seq<Row>, root: int, found: seq<int>)
    requires OneRowEach(rows) && !OnCycle(rows, root) && Inv(rows, root, found, [])
    ensures Distinct(found)
    ensures forall x :: x in found <==> Under(rows, root, x)
    ensures |found| > 0 && found[0] == root
    ensures forall i, j :: 0 <= i < |found| && 0 <= j < |found| && Row(found[j], found[i]) in rows ==> i < j
  {
    assert found + [] == found;
    forall x | Under(rows, root, x)
      ensures x in found
    {
      var path :| Descent(rows, path) && path[0] == root && path[|path| - 1] == x;
      DescentFound(rows, root, found, path);
    }
    forall i, j | 0 <= i < |found| && 0 <= j < |found| && Row(found[j], found[i]) in rows
      ensures i < j
    {
      ParentFirst(rows, root, found, i, j);
    }
  }

  lemma ParentFirst(rows: seq<Row>, root: int, found: seq<int>, i: nat, j: nat)
    requires OneRowEach(rows) && !OnCycle(rows, root) && Inv(rows, root, found, [])
    requires i < |found| && j < |found| && Row(found[j], found[i]) in rows
    ensures i < j
  {
    hide Under, OnCycle;
    assert found + [] == found;
    assert found[i] in found + [];
    UnderOn(rows, root, found[i], found[j]);
    assert j > 0;
    var q :| q in found[..j] && Row(found[j], q) in rows;
    OneParent(rows, found[j], found[i], q);
    var k :| 0 <= k < j && found[k] == q;
    assert k == i;
  }

  // ---- when the loop ends ----

  /** What the loop has found and what waits, `n` passes on, none of them on an empty stack. */
  lemma {:induction false} RunsWithInv(rows: seq<Row>, root: int, n: nat) returns (found: seq<int>)
    requires OneRowEach(rows) && !OnCycle(rows, root) && |StackAfter(rows, root, n)| > 0
    ensures |found| == n && Inv(rows, root, found, StackAfter(rows, root, n))
  {
    hide Inv, ChildrenOf, OnCycle, OneRowEach;
    if n == 0 {
      found := [];
      StartInv(rows, root);
    } else {
      var stack := StackAfter(rows, root, n - 1);
      var before := RunsWithInv(rows, root, n - 1);
      PopKeepsInv(rows, root, before, stack);
      found := before + [stack[|stack| - 1]];
    }
  }

  lemma EndsOffCycle(rows: seq<Row>, root: int)
    requires OneRowEach(rows) && !OnCycle(rows, root)
    ensures StackAfter(rows, root, |Pids(rows, root)|) == []
  {
    hide Inv, OnCycle, OneRowEach, Pids;
    var n := |Pids(rows, root)|;
    if |StackAfter(rows, root, n)| > 0 {
      var found := RunsWithInv(rows, root, n);
      FoundWithin(rows, root, found, StackAfter(rows, root, n));
    }
  }

  /** A pid of a cycle always waits: when it is popped, the next of the cycle is pushed. */
  lemma {:induction false} CycleWaits(rows: seq<Row>, root: int, path: seq<int>, n: nat) returns (x: int)
    requires Descent(rows, path) && |path| > 1 && path[0] == root == path[|path| - 1]
    ensures x in path && x in StackAfter(rows, root, n)
  {
    hide ChildrenOf;
    if n == 0 {
      x := root;
    } else {
      var stack := StackAfter(rows, root, n - 1);
      x := CycleWaits(rows, root, path, n - 1);
      var last, rest := stack[|stack| - 1], stack[..|stack| - 1];
      assert stack == rest + [last];
      if x !in rest {
        var next := NextOnCycle(rows, path, x);
        ChildExactly(rows, x, next);
        x := next;
      }
    }
  }

  lemma NextOnCycle(rows: seq<Row>, path: seq<int>, x: int) returns (next: int)
    requires Descent(rows, path) && |path| > 1 && path[0] == path[|path| - 1] && x in path
    ensures next in path && Row(next, x) in rows
  {
    var i :| 0 <= i < |path| && path[i] == x;
    var j := if i == |path| - 1 then 0 else i;
    next := path[j + 1];
  }

  /** The loop ends, each pid having one row, exactly when the root is on no cycle; on one, something always
      waits. */
  lemma EndsExactly(rows: seq<Row>, root: int)
    requires OneRowEach(rows)
    ensures (exists n: nat :: StackAfter(rows, root, n) == []) <==> !OnCycle(rows, root)
  {
    if OnCycle(rows, root) {
      var path :| Descent(rows, path) && |path| > 1 && path[0] == root && path[|path| - 1] == root;
      forall n: nat
        ensures StackAfter(rows, root, n) != []
      {
        var _ := CycleWaits(rows, root, path, n);
      }
    } else {
      EndsOffCycle(rows, root);
    }
  }

  /** A process its own parent. */
  lemma OwnParentNeverEnds()
    ensures OneRowEach([Row(1, 1)]) && forall n: nat :: StackAfter([Row(1, 1)], 1, n) != []
  {
    var rows := [Row(1, 1)];
    assert Descent(rows, [1, 1]) && [1, 1][0] == 1 && [1, 1][|[1, 1]| - 1] == 1;
    assert OnCycle(rows, 1);
    EndsExactly(rows, 1);
  }
}
