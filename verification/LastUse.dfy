/** Last-use analysis of a trace: which uses of a cell may give up the reference.

    A trace is a sequence of blocks that end in a return.  Control moves on to the next instruction,
    except that a partial instruction can fail, and then control moves to a later block. */
module LastUse {

  datatype Instr =
    | Return(args: seq<nat>)               // the results; taken from the last to the first
    | Expr(args: seq<nat>, partial: bool)  // the inputs, from the first to the last
    | Other                                // values and dependent outputs use nothing

  type Trace = seq<Instr>

  /** The cells an instruction uses; 0 is no cell. */
  function Args(c: Instr): seq<nat> {
    if c.Other? then [] else c.args
  }

  predicate Partial(c: Instr) {
    c.Expr? && c.partial
  }

  /** Does the instruction use argument `m` after argument `k`? */
  predicate After(c: Instr, k: nat, m: nat) {
    if c.Return? then m < k else m > k
  }

  predicate IsUse(trace: Trace, i: nat, k: nat, x: nat) {
    i < |trace| && k < |Args(trace[i])| && Args(trace[i])[k] == x
  }

  predicate Uses(c: Instr, x: nat) {
    x in Args(c)
  }

  // ---- Execution

  predicate BlockStart(trace: Trace, j: nat) {
    j == 0 || (j <= |trace| && trace[j - 1].Return?)
  }

  /** Control can move from `i` to `j`. */
  predicate Step(trace: Trace, i: nat, j: nat) {
    && i < |trace| && j <= |trace| && !trace[i].Return?
    && (j == i + 1 || (Partial(trace[i]) && i < j && BlockStart(trace, j)))
  }

  ghost predicate Path(trace: Trace, path: seq<nat>) {
    forall s :: 0 <= s < |path| - 1 ==> Step(trace, path[s], path[s + 1])
  }

  // ---- Blocks

  /** The end of the block of `i`. */
  function End(trace: Trace, i: nat): (e: nat)
    requires i <= |trace|
    ensures i <= e <= |trace|
    decreases |trace| - i
  {
    if i == |trace| || trace[i].Return? then i else End(trace, i + 1)
  }

  /** From `i` on, the block runs through to its return. */
  predicate Tail(trace: Trace, i: nat)
    requires i <= |trace|
    decreases |trace| - i
  {
    i < |trace| && (trace[i].Return? || (!Partial(trace[i]) && Tail(trace, i + 1)))
  }

  // ---- Last uses

  /** The use is the last of its cell among the instructions up to `e`. */
  ghost predicate LastUpTo(trace: Trace, e: nat, i: nat, k: nat) {
    && i < |trace| && k < |Args(trace[i])|
    && var x := Args(trace[i])[k];
       && x != 0
       && (forall m :: 0 <= m < |Args(trace[i])| && After(trace[i], k, m) ==> Args(trace[i])[m] != x)
       && (forall j :: i < j < |trace| && j <= e ==> !Uses(trace[j], x))
  }

  /** The uses that are marked: the last of a cell in the trace, and the last in a block, if from
      there the block cannot be left before its return. */
  ghost predicate Final(trace: Trace, i: nat, k: nat) {
    || LastUpTo(trace, |trace|, i, k)
    || (i < |trace| && Tail(trace, i) && LastUpTo(trace, End(trace, i), i, k))
  }

  // ---- Safety

  lemma {:induction false} PathIncreases(trace: Trace, path: seq<nat>, s: nat, t: nat)
    requires Path(trace, path) && s < t < |path|
    ensures path[s] < path[t]
    decreases t - s
  {
    if s + 1 < t {
      PathIncreases(trace, path, s + 1, t);
    }
    assert Step(trace, path[s], path[s + 1]);
  }

  /** In the tail of a block, control stays in the block. */
  lemma {:induction false} TailStays(trace: Trace, path: seq<nat>, s: nat, t: nat)
    requires Path(trace, path) && s <= t < |path| && path[s] < |trace| && Tail(trace, path[s])
    ensures path[t] <= End(trace, path[s])
    decreases t - s
  {
    if s < t {
      assert Step(trace, path[s], path[s + 1]);
      if path[s + 1] < |trace| {
        TailStays(trace, path, s + 1, t);
      }
    }
  }

  /** No marked use is followed, on any execution path, by another use of the same cell. */
  lemma FinalIsSafe(trace: Trace, path: seq<nat>, s: nat, k: nat, t: nat, m: nat)
    requires Path(trace, path) && s <= t < |path| && Final(trace, path[s], k)
    requires s == t ==> After(trace[path[s]], k, m)
    requires path[t] < |trace| && m < |Args(trace[path[t]])|
    ensures Args(trace[path[t]])[m] != Args(trace[path[s]])[k]
  {
    var x := Args(trace[path[s]])[k];
    if s < t {
      PathIncreases(trace, path, s, t);
      if !LastUpTo(trace, |trace|, path[s], k) {
        TailStays(trace, path, s, t);
      }
      assert !Uses(trace[path[t]], x);
    }
  }

  /** Some execution path leads from the use to another use of the same cell. */
  ghost predicate UsedAgain(trace: Trace, i: nat, k: nat) {
    && i < |trace| && k < |Args(trace[i])|
    && exists path, m: nat :: LeadsToUse(trace, i, k, path, m)
  }

  ghost predicate LeadsToUse(trace: Trace, i: nat, k: nat, path: seq<nat>, m: nat)
    requires i < |trace| && k < |Args(trace[i])|
  {
    && |path| > 0 && path[0] == i && Path(trace, path)
    && IsUse(trace, path[|path| - 1], m, Args(trace[i])[k])
    && (|path| == 1 ==> After(trace[i], k, m))
  }

  /** Straight through the block. */
  lemma {:induction false} PathInBlock(trace: Trace, i: nat, j: nat) returns (path: seq<nat>)
    requires i <= j < |trace| && j <= End(trace, i)
    ensures |path| > 0 && path[0] == i && path[|path| - 1] == j && Path(trace, path)
    ensures i < j ==> |path| > 1
    decreases j - i
  {
    if i == j {
      path := [i];
    } else {
      var rest := PathInBlock(trace, i + 1, j);
      path := [i] + rest;
      assert Step(trace, i, i + 1);
      forall s | 0 <= s < |path| - 1 ensures Step(trace, path[s], path[s + 1]) {
        assert s > 0 ==> Step(trace, rest[s - 1], rest[s]);
      }
    }
  }

  /** A block that can be left before its return has a partial instruction. */
  lemma {:induction false} Leaves(trace: Trace, i: nat) returns (p: nat)
    requires i < |trace| && !Tail(trace, i) && End(trace, i) < |trace|
    ensures i <= p < End(trace, i) && Partial(trace[p])
    decreases |trace| - i
  {
    if Partial(trace[i]) {
      p := i;
    } else {
      p := Leaves(trace, i + 1);
    }
  }

  lemma {:induction false} BlockOf(trace: Trace, e: nat, j: nat) returns (b: nat)
    requires e < j < |trace| && trace[e].Return?
    ensures e < b <= j <= End(trace, b) && BlockStart(trace, b)
    decreases j
  {
    b := j;
    while !trace[b - 1].Return?
      invariant e < b <= j <= End(trace, b)
      decreases b
    {
      b := b - 1;
    }
  }

  lemma {:induction false} EndReturns(trace: Trace, i: nat)
    requires i <= |trace| && End(trace, i) < |trace|
    ensures trace[End(trace, i)].Return?
    decreases |trace| - i
  {
    if !trace[i].Return? {
      EndReturns(trace, i + 1);
    }
  }

  lemma PathsJoined(trace: Trace, x: seq<nat>, y: seq<nat>)
    requires Path(trace, x) && Path(trace, y) && |x| > 0 && |y| > 0 && Step(trace, x[|x| - 1], y[0])
    ensures Path(trace, x + y)
  {
    var z := x + y;
    forall s | 0 <= s < |z| - 1 ensures Step(trace, z[s], z[s + 1]) {
      if s >= |x| {
        assert Step(trace, y[s - |x|], y[s - |x| + 1]);
      }
    }
  }

  /** From a later use of the cell there is a path, unless the block runs through to a return before it. */
  lemma PathToLater(trace: Trace, i: nat, j: nat) returns (path: seq<nat>)
    requires i < j < |trace| && (Tail(trace, i) ==> j <= End(trace, i))
    ensures |path| > 1 && path[0] == i && path[|path| - 1] == j && Path(trace, path)
  {
    if j <= End(trace, i) {
      path := PathInBlock(trace, i, j);
    } else {
      EndReturns(trace, i);
      var p := Leaves(trace, i);
      var b := BlockOf(trace, End(trace, i), j);
      var before := PathInBlock(trace, i, p);
      var behind := PathInBlock(trace, b, j);
      assert Step(trace, p, b);
      PathsJoined(trace, before, behind);
      path := before + behind;
    }
  }

  /** A use is marked exactly if no execution path leads from it to another use of the cell. */
  lemma FinalExactly(trace: Trace, i: nat, k: nat)
    requires i < |trace| && k < |Args(trace[i])|
    ensures Final(trace, i, k) <==> Args(trace[i])[k] != 0 && !UsedAgain(trace, i, k)
  {
    var x := Args(trace[i])[k];
    if Final(trace, i, k) {
      forall path, m: nat ensures !LeadsToUse(trace, i, k, path, m) {
        if LeadsToUse(trace, i, k, path, m) {
          FinalIsSafe(trace, path, 0, k, |path| - 1, m);
        }
      }
    } else if x != 0 {
      if m :| 0 <= m < |Args(trace[i])| && After(trace[i], k, m) && Args(trace[i])[m] == x {
        assert LeadsToUse(trace, i, k, [i], m);
      } else {
        var j := LaterUse(trace, i, k);
        var path := PathToLater(trace, i, j);
        var m :| 0 <= m < |Args(trace[j])| && Args(trace[j])[m] == x;
        assert LeadsToUse(trace, i, k, path, m);
      }
    }
  }

  /** A use that is not marked, and not followed in its own instruction, is followed by one that the block
      does not keep out of reach. */
  lemma LaterUse(trace: Trace, i: nat, k: nat) returns (j: nat)
    requires i < |trace| && k < |Args(trace[i])| && !Final(trace, i, k) && Args(trace[i])[k] != 0
    requires forall m :: 0 <= m < |Args(trace[i])| && After(trace[i], k, m) ==> Args(trace[i])[m] != Args(trace[i])[k]
    ensures i < j < |trace| && Uses(trace[j], Args(trace[i])[k]) && (Tail(trace, i) ==> j <= End(trace, i))
  {
    var x := Args(trace[i])[k];
    if Tail(trace, i) {
      j :| i < j < |trace| && j <= End(trace, i) && Uses(trace[j], x);
    } else {
      j :| i < j < |trace| && Uses(trace[j], x);
    }
  }

  /** The last use of every cell is marked. */
  lemma {:induction false} LastIsFinal(trace: Trace, n: nat, x: nat) returns (i: nat, k: nat)
    requires n <= |trace| && x != 0 && (exists j :: 0 <= j < n && Uses(trace[j], x))
    requires forall j :: n <= j < |trace| ==> !Uses(trace[j], x)
    ensures IsUse(trace, i, k, x) && LastUpTo(trace, |trace|, i, k) && Final(trace, i, k)
    decreases n
  {
    if Uses(trace[n - 1], x) {
      i := n - 1;
      k := LastArg(trace[i], x);
    } else {
      i, k := LastIsFinal(trace, n - 1, x);
    }
  }

  lemma LastArg(c: Instr, x: nat) returns (k: nat)
    requires Uses(c, x)
    ensures k < |Args(c)| && Args(c)[k] == x
    ensures forall m :: 0 <= m < |Args(c)| && After(c, k, m) ==> Args(c)[m] != x
  {
    var args := Args(c);
    if c.Return? {
      k := 0;
      while args[k] != x
        invariant k < |args| && forall m :: 0 <= m < k ==> args[m] != x
        decreases |args| - k
      {
        k := k + 1;
        assert exists m :: k <= m < |args| && args[m] == x by {
          var m :| 0 <= m < |args| && args[m] == x;
        }
      }
    } else {
      k := |args| - 1;
      while args[k] != x
        invariant k < |args| && forall m :: k < m < |args| ==> args[m] != x
        decreases k
      {
        assert k > 0 by {
          var m :| 0 <= m < |args| && args[m] == x;
        }
        k := k - 1;
      }
    }
  }

  // ---- The analysis

  ghost predicate InRange(trace: Trace, n: nat) {
    forall i, k :: 0 <= i < |trace| && 0 <= k < |Args(trace[i])| ==> Args(trace[i])[k] < n
  }

  /** One truth value for each argument. */
  ghost predicate Shaped(trace: Trace, marks: seq<seq<bool>>) {
    |marks| == |trace| && forall i :: 0 <= i < |trace| ==> |marks[i]| == |Args(trace[i])|
  }

  /** The cells used by `args`, in addition to those of `used0`. */
  ghost predicate UsedBy(args: seq<nat>, used0: seq<bool>, used: seq<bool>) {
    |used| == |used0| && forall x :: 0 <= x < |used| ==> (used[x] <==> used0[x] || (x != 0 && x in args))
  }

  /** Is argument `k` the first, going back, of a cell that is not yet used? */
  ghost predicate Unused(c: Instr, used0: seq<bool>, k: nat) {
    && k < |Args(c)|
    && var x := Args(c)[k];
       && x != 0 && x < |used0| && !used0[x]
       && forall m :: 0 <= m < |Args(c)| && After(c, k, m) ==> Args(c)[m] != x
  }

  /** `last_use_mark` */
  method Mark(x: nat, used: array<bool>, mark: bool) returns (mark': bool)
    requires x < used.Length
    modifies used
    ensures mark' == (mark || (x != 0 && !old(used[x])))
    ensures UsedBy([x], old(used[..]), used[..])
  {
    mark' := mark;
    if x != 0 && !used[x] {
      mark' := true;
      used[x] := true;
    }
  }

  method ClearUsed(used: array<bool>)
    modifies used
    ensures forall x :: 0 <= x < used.Length ==> !used[x]
  {
    for x := 0 to used.Length
      invariant forall y :: 0 <= y < x ==> !used[y]
    {
      used[x] := false;
    }
  }

  /** `last_use_mark_cell` */
  method MarkCell(c: Instr, used: array<bool>, mark: seq<bool>) returns (mark': seq<bool>)
    requires |mark| == |Args(c)| && forall k :: 0 <= k < |Args(c)| ==> Args(c)[k] < used.Length
    modifies used
    ensures |mark'| == |mark| && UsedBy(Args(c), old(used[..]), used[..])
    ensures forall k :: 0 <= k < |mark| ==> (mark'[k] <==> mark[k] || Unused(c, old(used[..]), k))
  {
    mark' := mark;
    var args := Args(c);
    match c {
      case Return(_) =>
        for k := 0 to |args|
          invariant |mark'| == |mark| && UsedBy(args[..k], old(used[..]), used[..])
          invariant forall m :: 0 <= m < |mark| ==> (mark'[m] <==> mark[m] || (m < k && Unused(c, old(used[..]), m)))
        {
          var b := Mark(args[k], used, mark'[k]);
          mark' := mark'[k := b];
          assert args[..k + 1] == args[..k] + [args[k]];
        }
        assert args[..|args|] == args;
      case Expr(_, _) =>
        for k := |args| downto 0
          invariant |mark'| == |mark| && UsedBy(args[k..], old(used[..]), used[..])
          invariant forall m :: 0 <= m < |mark| ==> (mark'[m] <==> mark[m] || (m >= k && Unused(c, old(used[..]), m)))
        {
          var b := Mark(args[k], used, mark'[k]);
          mark' := mark'[k := b];
          assert args[k..] == [args[k]] + args[k + 1..];
        }
        assert args[0..] == args;
      case Other =>
    }
  }

  /** The cells used from `lo` up to `e`. */
  ghost predicate UsedIs(trace: Trace, lo: nat, e: nat, used: seq<bool>) {
    forall x :: 0 <= x < |used| ==> (used[x] <==> x != 0 && UsedIn(trace, lo, e, x))
  }

  ghost predicate UsedIn(trace: Trace, lo: nat, e: nat, x: nat) {
    exists j :: lo <= j < |trace| && j <= e && Uses(trace[j], x)
  }

  /** The marks are those of the first pass, and from `i` on also those of the second. */
  ghost predicate Marked(trace: Trace, marks: seq<seq<bool>>, first: nat, second: nat) {
    && Shaped(trace, marks)
    && forall i, k :: 0 <= i < |trace| && 0 <= k < |Args(trace[i])| ==>
         (marks[i][k] <==> MarkedAt(trace, i, k, first, second))
  }

  ghost predicate MarkedAt(trace: Trace, i: nat, k: nat, first: nat, second: nat) {
    || (i >= first && LastUpTo(trace, |trace|, i, k))
    || (i >= second && i < |trace| && Tail(trace, i) && LastUpTo(trace, End(trace, i), i, k))
  }

  /** An argument is marked in a backward pass that has reached from `e` to `i` exactly if its use
      is the last up to `e`. */
  lemma UnusedIsLast(trace: Trace, i: nat, e: nat, used: seq<bool>, used': seq<bool>)
    requires i < |trace| && i <= e && UsedIs(trace, i + 1, e, used) && UsedBy(Args(trace[i]), used, used')
    requires forall k :: 0 <= k < |Args(trace[i])| ==> Args(trace[i])[k] < |used|
    ensures forall k :: 0 <= k < |Args(trace[i])| ==> (Unused(trace[i], used, k) <==> LastUpTo(trace, e, i, k))
    ensures UsedIs(trace, i, e, used')
  {
    forall k | 0 <= k < |Args(trace[i])| ensures Unused(trace[i], used, k) <==> LastUpTo(trace, e, i, k) {
      var x := Args(trace[i])[k];
      assert x != 0 ==> (used[x] <==> UsedIn(trace, i + 1, e, x));
    }
    forall x | 0 <= x < |used'| ensures used'[x] <==> x != 0 && UsedIn(trace, i, e, x) {
      assert used[x] <==> x != 0 && UsedIn(trace, i + 1, e, x);
    }
  }

  /** The first pass takes one more instruction. */
  lemma FirstPassStep(trace: Trace, marks: seq<seq<bool>>, i: nat, used: seq<bool>, mark': seq<bool>)
    requires Marked(trace, marks, i + 1, |trace|) && i < |trace| && |mark'| == |Args(trace[i])|
    requires forall k :: 0 <= k < |mark'| ==> (mark'[k] <==> marks[i][k] || LastUpTo(trace, |trace|, i, k))
    ensures Marked(trace, marks[i := mark'], i, |trace|)
  {
    forall j, k | 0 <= j < |trace| && 0 <= k < |Args(trace[j])|
      ensures marks[i := mark'][j][k] <==> MarkedAt(trace, j, k, i, |trace|)
    {
      assert marks[j][k] <==> MarkedAt(trace, j, k, i + 1, |trace|);
    }
  }

  lemma SecondPassStep(trace: Trace, marks: seq<seq<bool>>, i: nat, mark': seq<bool>)
    requires Marked(trace, marks, 0, i + 1) && i < |trace| && |mark'| == |Args(trace[i])|
    requires forall k :: 0 <= k < |mark'| ==>
               (mark'[k] <==> marks[i][k] || (Tail(trace, i) && LastUpTo(trace, End(trace, i), i, k)))
    ensures Marked(trace, marks[i := mark'], 0, i)
  {
    forall j, k | 0 <= j < |trace| && 0 <= k < |Args(trace[j])|
      ensures marks[i := mark'][j][k] <==> MarkedAt(trace, j, k, 0, i)
    {
      assert marks[j][k] <==> MarkedAt(trace, j, k, 0, i + 1);
    }
  }

  /** Between two blocks the second pass knows the uses in the rest of the block, unless it has met
      a partial instruction; behind the last return it takes every cell for used. */
  ghost predicate Behind(trace: Trace, i: nat, used: seq<bool>, partial: bool)
    requires i <= |trace|
  {
    if End(trace, i) < |trace| then
      (partial <==> !Tail(trace, i)) && (!partial ==> UsedIs(trace, i, End(trace, i), used))
    else
      !Tail(trace, i) && UsedIs(trace, 0, |trace|, used)
  }

  lemma NothingUsed(trace: Trace, lo: nat, e: nat, used: seq<bool>)
    requires (lo >= |trace| || lo > e) && forall x :: 0 <= x < |used| ==> !used[x]
    ensures UsedIs(trace, lo, e, used)
  {}

  /** `last_use_analysis`: exactly the uses after which no execution path uses the cell again get marked. */
  method LastUseAnalysis(trace: Trace, used: array<bool>, marks: array<seq<bool>>)
    requires marks.Length == |trace| && Shaped(trace, marks[..]) && InRange(trace, used.Length)
    requires forall i, k :: 0 <= i < |trace| && 0 <= k < |marks[i]| ==> !marks[i][k]
    modifies used, marks
    ensures Shaped(trace, marks[..])
    ensures forall i, k :: 0 <= i < |trace| && 0 <= k < |Args(trace[i])| ==>
              (marks[i][k] <==> Args(trace[i])[k] != 0 && !UsedAgain(trace, i, k))
  {
    hide UsedAgain, LastUpTo, Tail, End, UsedIs;
    FirstPass(trace, used, marks);
    SecondPass(trace, used, marks);
    forall i, k | 0 <= i < |trace| && 0 <= k < |Args(trace[i])|
      ensures marks[i][k] <==> Args(trace[i])[k] != 0 && !UsedAgain(trace, i, k)
    {
      assert marks[..][i][k] <==> MarkedAt(trace, i, k, 0, 0);
      FinalExactly(trace, i, k);
    }
  }

  method FirstPass(trace: Trace, used: array<bool>, marks: array<seq<bool>>)
    requires marks.Length == |trace| && Shaped(trace, marks[..]) && InRange(trace, used.Length)
    requires forall i, k :: 0 <= i < |trace| && 0 <= k < |marks[i]| ==> !marks[i][k]
    modifies used, marks
    ensures Marked(trace, marks[..], 0, |trace|) && UsedIs(trace, 0, |trace|, used[..])
  {
    ClearUsed(used);
    hide LastUpTo, Tail, End;
    NothingUsed(trace, |trace|, |trace|, used[..]);
    for i := |trace| downto 0
      invariant Marked(trace, marks[..], i, |trace|) && UsedIs(trace, i, |trace|, used[..])
    {
      ghost var marks0, used0 := marks[..], used[..];
      var mark := MarkCell(trace[i], used, marks[i]);
      UnusedIsLast(trace, i, |trace|, used0, used[..]);
      FirstPassStep(trace, marks0, i, used0, mark);
      marks[i] := mark;
      assert marks[..] == marks0[i := mark];
    }
  }

  method SecondPass(trace: Trace, used: array<bool>, marks: array<seq<bool>>)
    requires marks.Length == |trace| && InRange(trace, used.Length)
    requires Marked(trace, marks[..], 0, |trace|) && UsedIs(trace, 0, |trace|, used[..])
    modifies used, marks
    ensures Marked(trace, marks[..], 0, 0)
  {
    var partial := false;
    for i := |trace| downto 0
      invariant Marked(trace, marks[..], 0, i) && Behind(trace, i, used[..], partial)
    {
      ghost var marks0 := marks[..];
      var c := trace[i];
      if c.Return? {
        ClearUsed(used);
        partial := false;
      } else if Partial(c) {
        partial := true;
      }
      var mark := marks[i];
      if !partial {
        mark := MarkCell(c, used, mark);
      }
      SecondPassStep(trace, marks0, i, mark);
      marks[i] := mark;
      assert marks[..] == marks0[i := mark];
    }
  }
}
