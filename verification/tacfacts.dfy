/** Facts read off a stretch of three-address code: the temporaries it
    computes, the labels it defines and jumps to, its returns, and what it
    does to the queue of pending PARAM operands that a CALL consumes
    (mips/MipsGen.java keeps that queue while translating a function). */
module TacFacts {
  import opened Common
  import opened Tac
  import opened GenState

  /** The items each instruction contributes, in code order. */
  function Gather<T>(c: seq<Instr>, f: Instr -> seq<T>): seq<T> {
    if |c| == 0 then [] else Gather(c[..|c| - 1], f) + f(c[|c| - 1])
  }

  lemma {:induction false} GatherAppend<T>(a: seq<Instr>, b: seq<Instr>, f: Instr -> seq<T>)
    ensures Gather(a + b, f) == Gather(a, f) + Gather(b, f)
    decreases |b|
  {
    if |b| == 0 {
      assert a + b == a;
    } else {
      var init := b[..|b| - 1];
      assert (a + b)[..|a + b| - 1] == a + init;
      GatherAppend(a, init, f);
    }
  }

  lemma GatherOne<T>(i: Instr, f: Instr -> seq<T>)
    ensures Gather([i], f) == f(i)
  {
    assert [i][..0] == [];
  }

  /** The integers lo, lo + 1, ..., hi - 1. */
  function Range(lo: int, hi: int): (r: seq<int>)
    ensures |r| == if hi <= lo then 0 else hi - lo
    decreases hi - lo
  {
    if hi <= lo then [] else Range(lo, hi - 1) + [hi - 1]
  }

  lemma {:induction false} RangeSplit(a: int, b: int, c: int)
    requires a <= b <= c
    ensures Range(a, c) == Range(a, b) + Range(b, c)
    decreases c - b
  {
    if b < c {
      RangeSplit(a, b, c - 1);
    }
  }

  lemma {:induction false} RangeAt(lo: int, hi: int)
    ensures forall k :: 0 <= k < |Range(lo, hi)| ==> Range(lo, hi)[k] == lo + k
    decreases hi - lo
  {
    if lo < hi {
      RangeAt(lo, hi - 1);
    }
  }

  /** No number occurs twice in a range. */
  lemma RangeDistinct(lo: int, hi: int)
    ensures forall i, j :: 0 <= i < j < |Range(lo, hi)| ==> Range(lo, hi)[i] != Range(lo, hi)[j]
  {
    RangeAt(lo, hi);
  }

  // ---------------------------------------------------------------------
  // What instructions define and use
  // ---------------------------------------------------------------------

  /** The opcodes that compute a fresh value into their result operand; MOV
      copies into a named variable and is not among them. */
  predicate Computes(op: Op) {
    IsBinary(op) || op == NOT || op == CALL || op == LOAD
  }

  /** The name an instruction computes a fresh value into, if it computes one. */
  function TempDef(i: Instr): seq<string> {
    if Computes(i.op) && i.r.Some? then [i.r.value] else []
  }

  function TempDefs(c: seq<Instr>): seq<string> {
    Gather(c, TempDef)
  }

  /** The temporaries numbered lo, lo + 1, ..., hi - 1. */
  function TempNames(lo: nat, hi: nat): (r: seq<string>)
    ensures |r| == if hi <= lo then 0 else hi - lo
    decreases hi - lo
  {
    if hi <= lo then [] else TempNames(lo, hi - 1) + [TempName(hi - 1)]
  }

  lemma {:induction false} TempNamesSplit(a: nat, b: nat, c: nat)
    requires a <= b <= c
    ensures TempNames(a, c) == TempNames(a, b) + TempNames(b, c)
    decreases c - b
  {
    if b < c {
      TempNamesSplit(a, b, c - 1);
    }
  }

  lemma {:induction false} TempNamesAt(lo: nat, hi: nat)
    ensures forall k :: 0 <= k < |TempNames(lo, hi)| ==> TempNames(lo, hi)[k] == TempName(lo + k)
    decreases hi - lo
  {
    if lo < hi {
      TempNamesAt(lo, hi - 1);
    }
  }

  /** No temporary's name occurs twice among consecutive temporaries. */
  lemma TempNamesDistinct(lo: nat, hi: nat)
    ensures forall i, j :: 0 <= i < j < |TempNames(lo, hi)| ==> TempNames(lo, hi)[i] != TempNames(lo, hi)[j]
  {
    TempNamesAt(lo, hi);
    forall i, j | 0 <= i < j < |TempNames(lo, hi)|
      ensures TempNames(lo, hi)[i] != TempNames(lo, hi)[j]
    {
      if TempName(lo + i) == TempName(lo + j) {
        TempNameInjective(lo + i, lo + j);
      }
    }
  }

  /** The label a LABEL instruction defines. */
  function LabelDef(i: Instr): seq<Operand> {
    if i.op == LABEL then [i.a] else []
  }

  /** The label's number, as read back from its name; -1 for a null label. */
  function LabelNum(i: Instr): seq<int> {
    if i.op == LABEL then [if i.a.Some? then LabelNumber(i.a.value) as int else -1] else []
  }

  /** The label a GOTO or IFZ jumps to. */
  function JumpTarget(i: Instr): seq<Operand> {
    if i.op == GOTO then [i.a] else if i.op == IFZ then [i.b] else []
  }

  function RetOf(i: Instr): seq<Operand> {
    if i.op == RET then [i.a] else []
  }

  function Labels(c: seq<Instr>): seq<Operand> {
    Gather(c, LabelDef)
  }

  function LabelNums(c: seq<Instr>): seq<int> {
    Gather(c, LabelNum)
  }

  function Targets(c: seq<Instr>): seq<Operand> {
    Gather(c, JumpTarget)
  }

  function Rets(c: seq<Instr>): seq<Operand> {
    Gather(c, RetOf)
  }

  /** The labels an instruction defines, jumps to or returns. */
  function Flow(i: Instr): seq<Operand> {
    LabelDef(i) + JumpTarget(i) + RetOf(i)
  }

  /** Code with no label, jump or return: control falls straight through. */
  predicate Straight(c: seq<Instr>) {
    Gather(c, Flow) == []
  }

  lemma {:induction false} StraightMeans(c: seq<Instr>)
    requires Straight(c)
    ensures Labels(c) == [] && Targets(c) == [] && Rets(c) == []
  {
    if |c| > 0 {
      StraightMeans(c[..|c| - 1]);
    }
  }

  /** Every jump goes to a label defined in the same code. */
  predicate Closed(c: seq<Instr>) {
    forall l :: l in Targets(c) ==> l in Labels(c)
  }

  /** The label numbers run parallel to the labels. */
  lemma {:induction false} LabelNumsAt(c: seq<Instr>)
    ensures |LabelNums(c)| == |Labels(c)|
    ensures forall k :: 0 <= k < |Labels(c)| ==>
      LabelNums(c)[k] == if Labels(c)[k].Some? then LabelNumber(Labels(c)[k].value) as int else -1
  {
    if |c| > 0 {
      LabelNumsAt(c[..|c| - 1]);
    }
  }

  lemma StraightAppend(a: seq<Instr>, b: seq<Instr>)
    requires Straight(a) && Straight(b)
    ensures Straight(a + b)
  {
    GatherAppend(a, b, Flow);
  }

  lemma ClosedAppend(a: seq<Instr>, b: seq<Instr>)
    requires Closed(a) && Closed(b)
    ensures Closed(a + b)
  {
    GatherAppend(a, b, LabelDef);
    GatherAppend(a, b, JumpTarget);
    forall l | l in Targets(a + b)
      ensures l in Labels(a + b)
    {
      if l in Targets(a) {
        assert l in Labels(a);
      } else {
        assert l in Labels(b);
      }
    }
  }

  // ---------------------------------------------------------------------
  // The PARAM queue
  // ---------------------------------------------------------------------

  /** The argument count a CALL states: its `b` operand read as a decimal
      literal, 0 when absent or not a literal. */
  function Argc(b: Operand): int {
    if b.Some? && IsIntLit(b.value) then LitValue(b.value) else 0
  }

  function Max(a: int, b: int): int {
    if a < b then b else a
  }

  /** The operands a call with count n takes: the last n queued ones, in
      queue order (fewer when fewer are queued; none when n <= 0). */
  function CallArgs(q: seq<Operand>, n: int): (args: seq<Operand>)
    ensures |args| <= |q| && args <= q[|q| - |args|..] && q[|q| - |args|..] <= args
  {
    if n > 0 then q[Max(0, |q| - n)..] else []
  }

  /** The queue after a call with count n has removed its operands. */
  function PopArgs(q: seq<Operand>, n: int): (q': seq<Operand>)
    ensures q' + CallArgs(q, n) == q
  {
    if n > 0 then q[..Max(0, |q| - n)] else q
  }

  /** PARAM queues its operand; CALL takes its arguments off the end. */
  function QueueStep(q: seq<Operand>, i: Instr): seq<Operand> {
    if i.op == PARAM then q + [i.a]
    else if i.op == CALL then PopArgs(q, Argc(i.b))
    else q
  }

  function QueueAfter(q: seq<Operand>, c: seq<Instr>): seq<Operand> {
    if |c| == 0 then q else QueueStep(QueueAfter(q, c[..|c| - 1]), c[|c| - 1])
  }

  lemma {:induction false} QueueAppend(q: seq<Operand>, a: seq<Instr>, b: seq<Instr>)
    ensures QueueAfter(q, a + b) == QueueAfter(QueueAfter(q, a), b)
    decreases |b|
  {
    if |b| == 0 {
      assert a + b == a;
    } else {
      var init := b[..|b| - 1];
      assert (a + b)[..|a + b| - 1] == a + init;
      QueueAppend(q, a, init);
    }
  }

  /** Whatever is queued before, the code leaves it in place and adds `vs`. */
  ghost predicate Pushes(c: seq<Instr>, vs: seq<Operand>) {
    forall q :: QueueAfter(q, c) == q + vs
  }

  lemma PushesAppend(a: seq<Instr>, vs: seq<Operand>, b: seq<Instr>, ws: seq<Operand>)
    requires Pushes(a, vs) && Pushes(b, ws)
    ensures Pushes(a + b, vs + ws)
  {
    forall q
      ensures QueueAfter(q, a + b) == q + (vs + ws)
    {
      QueueAppend(q, a, b);
      assert QueueAfter(q + vs, b) == q + vs + ws;
    }
  }

  /** A call whose count is exactly the number of operands pushed since it
      began takes precisely those operands and leaves the queue as it was. */
  lemma CallTakesPushed(q: seq<Operand>, vs: seq<Operand>, n: nat)
    requires |vs| == n
    ensures CallArgs(q + vs, n) == vs
    ensures PopArgs(q + vs, n) == q
  {
  }
}
