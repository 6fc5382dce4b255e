/** Object updates collected in a context, with nested transactions (pkg/starobj/ctxupdate.go). */
module CtxUpdates {
  import opened Wrappers

  datatype ORef = ORef(otype: string, oid: string)

  datatype Update = Update(oref: ORef, updateType: string, obj: int)

  type Updates = map<ORef, Update>

  /** Everything the stack holds, later maps before earlier ones. */
  function Merged(stack: seq<Updates>): Updates {
    if stack == [] then map[] else Merged(stack[..|stack| - 1]) + stack[|stack| - 1]
  }

  datatype Op = Add(update: Update) | Begin | Commit | Rollback

  /** What one operation makes of the stack; None is a panic. */
  function Step(stack: seq<Updates>, op: Op): Option<seq<Updates>>
    requires stack != []
    ensures Step(stack, op).Some? ==> Step(stack, op).value != []
  {
    var n := |stack|;
    match op
    case Add(u) => Some(stack[n - 1 := stack[n - 1][u.oref := u]])
    case Begin => Some(stack + [map[]])
    case Commit => if n <= 1 then None else Some(stack[..n - 2] + [stack[n - 2] + stack[n - 1]])
    case Rollback => if n <= 1 then None else Some(stack[..n - 1])
  }

  function Run(stack: seq<Updates>, ops: seq<Op>): (r: Option<seq<Updates>>)
    requires stack != []
    ensures r.Some? ==> r.value != []
    decreases |ops|
  {
    if ops == [] then Some(stack)
    else
      var next := Step(stack, ops[0]);
      if next.None? then None else Run(next.value, ops[1..])
  }

  /** contextUpdatesType, as it is in a context that collects updates */
  class ContextUpdates {
    var updatesStack: seq<Updates>

    constructor ()
      ensures updatesStack == [map[]]
    {
      updatesStack := [map[]];
    }

    ghost predicate Valid()
      reads this
    {
      updatesStack != []
    }

    /** ContextGetUpdates */
    method GetUpdates() returns (rtn: Updates)
      requires Valid()
      ensures rtn == Merged(updatesStack)
    {
      if |updatesStack| == 1 {
        MergedOne(updatesStack[0]);
        assert updatesStack == [updatesStack[0]];
        return updatesStack[0];
      }
      rtn := map[];
      for i := 0 to |updatesStack|
        invariant rtn == Merged(updatesStack[..i])
      {
        assert updatesStack[..i + 1][..i] == updatesStack[..i];
        rtn := rtn + updatesStack[i];
      }
      assert updatesStack[..|updatesStack|] == updatesStack;
    }

    /** ContextGetUpdate: looking from the top of the stack down finds what the merged map holds. */
    method GetUpdate(oref: ORef) returns (r: Option<Update>)
      requires Valid()
      ensures r == if oref in Merged(updatesStack) then Some(Merged(updatesStack)[oref]) else None
    {
      var idx := |updatesStack| - 1;
      assert updatesStack[..idx + 1] == updatesStack;
      while idx >= 0
        invariant -1 <= idx < |updatesStack|
        invariant var below := Merged(updatesStack[..idx + 1]);
                  && (oref in Merged(updatesStack) <==> oref in below)
                  && (oref in below ==> Merged(updatesStack)[oref] == below[oref])
      {
        assert updatesStack[..idx + 1][..idx] == updatesStack[..idx];
        if oref in updatesStack[idx] {
          return Some(updatesStack[idx][oref]);
        }
        idx := idx - 1;
      }
      return None;
    }

    /** ContextAddUpdate */
    method AddUpdate(u: Update)
      requires Valid()
      modifies this
      ensures Valid() && Some(updatesStack) == Step(old(updatesStack), Add(u))
      ensures Merged(updatesStack) == Merged(old(updatesStack))[u.oref := u]
    {
      StepMerges(updatesStack, Add(u));
      var n := |updatesStack|;
      updatesStack := updatesStack[n - 1 := updatesStack[n - 1][u.oref := u]];
    }

    /** ContextUpdatesBeginTx */
    method BeginTx()
      requires Valid()
      modifies this
      ensures Valid() && Some(updatesStack) == Step(old(updatesStack), Begin) &&
        Merged(updatesStack) == Merged(old(updatesStack))
    {
      StepMerges(updatesStack, Begin);
      updatesStack := updatesStack + [map[]];
    }

    /** ContextUpdatesCommitTx */
    method CommitTx() returns (panicked: bool)
      requires Valid()
      modifies this
      ensures Valid() && panicked == Step(old(updatesStack), Commit).None? &&
        Merged(updatesStack) == Merged(old(updatesStack))
      ensures if panicked then unchanged(this) else Some(updatesStack) == Step(old(updatesStack), Commit)
    {
      var n := |updatesStack|;
      if n <= 1 {
        return true;
      }
      StepMerges(updatesStack, Commit);
      var curUpdateMap, prevUpdateMap := updatesStack[n - 1], updatesStack[n - 2];
      updatesStack := updatesStack[n - 2 := prevUpdateMap + curUpdateMap];
      updatesStack := updatesStack[..n - 1];
      assert updatesStack == old(updatesStack)[..n - 2] + [prevUpdateMap + curUpdateMap];
      return false;
    }

    /** ContextUpdatesRollbackTx */
    method RollbackTx() returns (panicked: bool)
      requires Valid()
      modifies this
      ensures Valid() && panicked == Step(old(updatesStack), Rollback).None?
      ensures if panicked then unchanged(this) else Some(updatesStack) == Step(old(updatesStack), Rollback)
    {
      if |updatesStack| <= 1 {
        return true;
      }
      updatesStack := updatesStack[..|updatesStack| - 1];
      return false;
    }

    /** A whole run, up to the first panic */
    method RunAll(ops: seq<Op>) returns (panicked: bool)
      requires Valid()
      modifies this
      ensures Valid() && panicked == Run(old(updatesStack), ops).None?
      ensures !panicked ==> Some(updatesStack) == Run(old(updatesStack), ops)
    {
      hide Step;
      panicked := false;
      for i := 0 to |ops|
        invariant Valid() && Run(old(updatesStack), ops) == Run(updatesStack, ops[i..])
      {
        match ops[i] {
          case Add(u) => AddUpdate(u);
          case Begin => BeginTx();
          case Commit => panicked := CommitTx();
          case Rollback => panicked := RollbackTx();
        }
        if panicked {
          return;
        }
      }
    }
  }

  lemma MergedOne(m: Updates)
    ensures Merged([m]) == m
  {
    assert [m][..0] == [] && Merged([]) == map[];
    assert map[] + m == m;
  }

  lemma {:induction false} StepMerges(stack: seq<Updates>, op: Op)
    requires stack != [] && Step(stack, op).Some?
    ensures op.Add? ==> Merged(Step(stack, op).value) == Merged(stack)[op.update.oref := op.update]
    ensures op.Begin? || op.Commit? ==> Merged(Step(stack, op).value) == Merged(stack)
  {
    var n, next := |stack|, Step(stack, op).value;
    match op
    case Add(u) =>
      assert next[..n - 1] == stack[..n - 1];
      var below := Merged(stack[..n - 1]);
      assert below + stack[n - 1][u.oref := u] == (below + stack[n - 1])[u.oref := u];
    case Begin =>
      assert next[..n] == stack;
      assert Merged(stack) + map[] == Merged(stack);
    case Commit =>
      assert next[..n - 2] == stack[..n - 2] && stack[..n - 1][..n - 2] == stack[..n - 2];
      var below := Merged(stack[..n - 2]);
      assert below + (stack[n - 2] + stack[n - 1]) == below + stack[n - 2] + stack[n - 1];
    case Rollback =>
  }

  // ---------------------------------------------------------------- transactions

  /** How many transactions are open after the run if d are before it; None if it ends one more than there are. */
  function Depth(ops: seq<Op>, d: nat): Option<nat>
    decreases |ops|
  {
    if ops == [] then Some(d)
    else match ops[0]
      case Add(_) => Depth(ops[1..], d)
      case Begin => Depth(ops[1..], d + 1)
      case _ => if d == 0 then None else Depth(ops[1..], d - 1)
  }

  /** Every transaction begun is ended, and none else. */
  predicate Balanced(ops: seq<Op>) {
    Depth(ops, 0) == Some(0)
  }

  /** A run panics exactly if it ends more transactions than are open. */
  lemma {:induction false} PanicsIff(stack: seq<Updates>, ops: seq<Op>)
    requires stack != []
    ensures Run(stack, ops).Some? <==> Depth(ops, |stack| - 1).Some?
    ensures Run(stack, ops).Some? ==> |Run(stack, ops).value| == Depth(ops, |stack| - 1).value + 1
    decreases |ops|
  {
    if ops != [] {
      var next := Step(stack, ops[0]);
      if next.Some? {
        PanicsIff(next.value, ops[1..]);
      }
    }
  }

  /** The stack s with what a run that starts in its innermost transaction holds. */
  function Over(s: seq<Updates>, t: seq<Updates>): (r: seq<Updates>)
    requires s != [] && t != []
    ensures |r| == |s| + |t| - 1
  {
    s[..|s| - 1] + [s[|s| - 1] + t[0]] + t[1..]
  }

  /** A run that never ends a transaction it did not begin does the same on top of any stack. */
  lemma {:induction false} RunOver(s: seq<Updates>, t: seq<Updates>, ops: seq<Op>)
    requires s != [] && t != [] && Run(t, ops).Some?
    ensures Run(Over(s, t), ops) == Some(Over(s, Run(t, ops).value))
    decreases |ops|
  {
    if ops != [] {
      hide Over;
      StepOver(s, t, ops[0]);
      RunOver(s, Step(t, ops[0]).value, ops[1..]);
    }
  }

  lemma {:induction false} StepOver(s: seq<Updates>, t: seq<Updates>, op: Op)
    requires s != [] && t != [] && Step(t, op).Some?
    ensures Step(Over(s, t), op) == Some(Over(s, Step(t, op).value))
  {
    var x, y := Step(Over(s, t), op).value, Over(s, Step(t, op).value);
    var m := |t|;
    var top := s[|s| - 1];
    match op
    case Add(u) =>
      if m == 1 {
        assert (top + t[0])[u.oref := u] == top + t[0][u.oref := u];
      }
      assert x == y;
    case Begin => assert x == y;
    case Commit =>
      if m == 2 {
        assert top + t[0] + t[1] == top + (t[0] + t[1]);
      }
      assert x == y;
    case Rollback => assert x == y;
  }

  /** The updates that a balanced run makes, without those it rolls back. */
  function Effect(ops: seq<Op>): Updates
    requires Balanced(ops)
  {
    PanicsIff([map[]], ops);
    Run([map[]], ops).value[0]
  }

  /** A balanced run changes only the innermost open map, by its effect. */
  lemma {:induction false} BalancedRun(s: seq<Updates>, ops: seq<Op>)
    requires s != [] && Balanced(ops)
    ensures Run(s, ops) == Some(s[|s| - 1 := s[|s| - 1] + Effect(ops)])
    ensures Merged(Run(s, ops).value) == Merged(s) + Effect(ops)
  {
    var n := |s|;
    PanicsIff([map[]], ops);
    RunOver(s, [map[]], ops);
    assert s[n - 1] + map[] == s[n - 1] && Over(s, [map[]]) == s;
    var r := s[n - 1 := s[n - 1] + Effect(ops)];
    assert Over(s, [Effect(ops)]) == r && Run([map[]], ops).value == [Effect(ops)];
    assert r[..n - 1] == s[..n - 1];
    assert Merged(s[..n - 1]) + (s[n - 1] + Effect(ops)) == Merged(s[..n - 1]) + s[n - 1] + Effect(ops);
  }

  lemma {:induction false} RunConcat(s: seq<Updates>, a: seq<Op>, b: seq<Op>)
    requires s != []
    ensures Run(s, a + b) == if Run(s, a).None? then None else Run(Run(s, a).value, b)
    decreases |a|
  {
    if a == [] {
      assert a + b == b;
    } else {
      assert (a + b)[1..] == a[1..] + b && (a + b)[0] == a[0];
      if Step(s, a[0]).Some? {
        RunConcat(Step(s, a[0]).value, a[1..], b);
      }
    }
  }

  /** Rolling back undoes all that happened since the matching begin. */
  lemma {:induction false} RollbackRestores(s: seq<Updates>, ops: seq<Op>)
    requires s != [] && Balanced(ops)
    ensures Run(s, [Begin] + ops + [Rollback]) == Some(s)
  {
    InTransaction(s, ops, Rollback);
    var inner := s + [map[] + Effect(ops)];
    assert inner[..|s|] == s;
  }

  /** Committing leaves exactly what the same run without a transaction leaves. */
  lemma {:induction false} CommitIsNoTransaction(s: seq<Updates>, ops: seq<Op>)
    requires s != [] && Balanced(ops)
    ensures Run(s, [Begin] + ops + [Commit]) == Run(s, ops)
  {
    InTransaction(s, ops, Commit);
    BalancedRun(s, ops);
    var e := Effect(ops);
    assert map[] + e == e;
    assert (s + [e])[..|s| - 1] + [s[|s| - 1] + e] == s[|s| - 1 := s[|s| - 1] + e];
  }

  lemma InTransaction(s: seq<Updates>, ops: seq<Op>, end: Op)
    requires s != [] && Balanced(ops)
    ensures Run(s, [Begin] + ops + [end]) == Step(s + [map[] + Effect(ops)], end)
  {
    var inner := s + [map[]];
    RunConcat(s, [Begin] + ops, [end]);
    RunConcat(s, [Begin], ops);
    assert Run(s, [Begin]) == Some(inner) by {
      assert [Begin][1..] == [];
    }
    BalancedRun(inner, ops);
    assert inner[|s| := map[] + Effect(ops)] == s + [map[] + Effect(ops)];
    RunOne(s + [map[] + Effect(ops)], end);
  }

  lemma RunOne(s: seq<Updates>, op: Op)
    requires s != []
    ensures Run(s, [op]) == Step(s, op)
  {
    assert [op][1..] == [];
  }
}
