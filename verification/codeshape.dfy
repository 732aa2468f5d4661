/** The shape of generated code, stated over generator states: what a
    stretch of code appended between two states computes, defines, jumps to
    and pushes, and how such stretches compose. The lowering-specific proofs
    build on these. */
module CodeShape {
  import opened Common
  import opened Tac
  import opened GenState
  import opened TacFacts

  /** The code `g'` has added since `g`. */
  function Added(g: Gen, g': Gen): seq<Instr>
    requires g.code <= g'.code
  {
    g'.code[|g.code|..]
  }

  lemma AddedJoin(g: Gen, g1: Gen, g2: Gen)
    requires g.code <= g1.code <= g2.code
    ensures Added(g, g2) == Added(g, g1) + Added(g1, g2)
  {
  }

  lemma AddedPut(g: Gen, h: Gen, i: Instr)
    requires g.code <= h.code
    ensures Added(g, Put(h, i)) == Added(g, h) + [i]
  {
  }

  // ---------------------------------------------------------------------
  // Expression code
  // ---------------------------------------------------------------------

  /** Code as an expression leaves it: no new label, straight-line, the
      temporaries taken computed once each in order, and `vs` pushed net
      onto the PARAM queue. */
  ghost predicate ExprCode(g: Gen, g': Gen, vs: seq<Operand>) {
    && Extends(g, g') && g'.lbl == g.lbl
    && TempDefs(Added(g, g')) == TempNames(g.tmp, g'.tmp)
    && Straight(Added(g, g'))
    && Pushes(Added(g, g'), vs)
  }

  lemma ExprCodeNone(g: Gen)
    ensures ExprCode(g, g, [])
  {
    assert Added(g, g) == [];
  }

  lemma ExprCodeJoin(g: Gen, g1: Gen, g2: Gen, vs: seq<Operand>, ws: seq<Operand>)
    requires ExprCode(g, g1, vs) && ExprCode(g1, g2, ws)
    ensures ExprCode(g, g2, vs + ws)
  {
    var a := Added(g, g1);
    var b := Added(g1, g2);
    AddedJoin(g, g1, g2);
    GatherAppend(a, b, TempDef);
    TempNamesSplit(g.tmp, g1.tmp, g2.tmp);
    StraightAppend(a, b);
    PushesAppend(a, vs, b, ws);
  }

  /** A single instruction read as code. */
  lemma Single(i: Instr)
    ensures TempDefs([i]) == TempDef(i) && Labels([i]) == LabelDef(i)
    ensures Targets([i]) == JumpTarget(i) && Rets([i]) == RetOf(i)
    ensures Gather([i], Flow) == Flow(i)
    ensures forall q :: QueueAfter(q, [i]) == QueueStep(q, i)
  {
    GatherOne(i, TempDef);
    GatherOne(i, Flow);
    GatherOne(i, LabelDef);
    GatherOne(i, JumpTarget);
    GatherOne(i, RetOf);
    assert [i][..0] == [];
  }

  /** Expression code followed by one more straight-line instruction that
      computes the next temporaries and turns the pushed `vs` into `ws`. */
  lemma StepCode(g: Gen, g1: Gen, g': Gen, i: Instr, vs: seq<Operand>, ws: seq<Operand>)
    requires ExprCode(g, g1, vs)
    requires g'.code == g1.code + [i] && g'.lbl == g1.lbl && g1.tmp <= g'.tmp
    requires TempDef(i) == TempNames(g1.tmp, g'.tmp)
    requires LabelDef(i) == [] && JumpTarget(i) == [] && RetOf(i) == []
    requires forall q :: QueueStep(q + vs, i) == q + ws
    ensures ExprCode(g, g', ws)
  {
    var a := Added(g, g1);
    assert Added(g, g') == a + [i];
    Single(i);
    assert TempDefs(a + [i]) == TempNames(g.tmp, g'.tmp) by {
      GatherAppend(a, [i], TempDef);
      TempNamesSplit(g.tmp, g1.tmp, g'.tmp);
    }
    assert Straight(a + [i]) by {
      StraightAppend(a, [i]);
    }
    forall q
      ensures QueueAfter(q, a + [i]) == q + ws
    {
      QueueAppend(q, a, [i]);
    }
  }

  /** One instruction that is no label, jump, return, PARAM or CALL and
      computes no temporary. */
  lemma QuietStep(g: Gen, i: Instr)
    requires !Computes(i.op) && i.op !in {LABEL, GOTO, IFZ, RET, PARAM, CALL}
    ensures ExprCode(g, Put(g, i), [])
  {
    ExprCodeNone(g);
    StepCode(g, g, Put(g, i), i, [], []);
  }

  /** One instruction computing into a new temporary. */
  lemma ComputeStep(g: Gen, op: Op, a: Operand, b: Operand)
    requires Computes(op) && op != CALL
    ensures var (tmp, g1) := NewTemp(g);
      ExprCode(g, Put(g1, Instr(op, a, b, Some(tmp))), [])
  {
    var i := Instr(op, a, b, Some(TempName(g.tmp)));
    ExprCodeNone(g);
    assert TempNames(g.tmp, g.tmp + 1) == [TempName(g.tmp)];
    StepCode(g, g, Put(g.(tmp := g.tmp + 1), i), i, [], []);
  }

  lemma ParamStep(g: Gen, v: string)
    ensures ExprCode(g, Put(g, Instr(PARAM, Some(v), None, None)), [Some(v)])
  {
    ExprCodeNone(g);
    StepCode(g, g, Put(g, Instr(PARAM, Some(v), None, None)), Instr(PARAM, Some(v), None, None), [], [Some(v)]);
  }

  /** A CALL counting `|vs|` arguments pops exactly the operands `vs` last
      pushed. */
  lemma CallPops(vs: seq<Operand>, f: string, r: Operand)
    ensures forall q :: QueueStep(q + vs, Instr(CALL, Some(f), Some(IntToString(|vs|)), r)) == q + []
  {
    forall q
      ensures QueueStep(q + vs, Instr(CALL, Some(f), Some(IntToString(|vs|)), r)) == q + []
    {
      CallTakesPushed(q, vs, |vs|);
    }
  }

  /** A CALL computes its result temporary when it has one. */
  lemma CallDefines(i: Instr, t: nat, d: nat)
    requires i.op == CALL
    requires i.r.None? ==> d == 0
    requires i.r.Some? ==> d == 1 && i.r == Some(TempName(t))
    ensures TempDef(i) == TempNames(t, t + d)
  {
    if i.r.Some? {
      assert TempNames(t, t + 1) == [TempName(t)];
    }
  }

  /** A CALL whose count is the number of operands the code since `g` pushed
      pops exactly those. */
  lemma CallStep(g: Gen, g1: Gen, vs: seq<Operand>, f: string, r: Operand, d: nat)
    requires ExprCode(g, g1, vs)
    requires r.None? ==> d == 0
    requires r.Some? ==> d == 1 && r == Some(TempName(g1.tmp))
    ensures ExprCode(g, Put(g1.(tmp := g1.tmp + d), Instr(CALL, Some(f), Some(IntToString(|vs|)), r)), [])
  {
    var i := Instr(CALL, Some(f), Some(IntToString(|vs|)), r);
    var g' := Put(g1.(tmp := g1.tmp + d), i);
    assert LabelDef(i) == [] && JumpTarget(i) == [] && RetOf(i) == [];
    CallDefines(i, g1.tmp, d);
    CallPops(vs, f, r);
    StepCode(g, g1, g', i, vs, []);
  }

  // ---------------------------------------------------------------------
  // Array offsets
  // ---------------------------------------------------------------------

  /** Plain arithmetic computing temporaries `base`, `base + 1`, ... one
      per instruction: the shape of the array-offset code. */
  predicate Sequential(c: seq<Instr>, base: nat) {
    forall k :: 0 <= k < |c| ==> c[k].op in {ADD, SUB, MUL} && c[k].r == Some(TempName(base + k))
  }

  lemma SequentialAppend(a: seq<Instr>, b: seq<Instr>, base: nat)
    requires Sequential(a, base) && Sequential(b, base + |a|)
    ensures Sequential(a + b, base)
  {
    forall k | 0 <= k < |a + b|
      ensures (a + b)[k].op in {ADD, SUB, MUL} && (a + b)[k].r == Some(TempName(base + k))
    {
      if k >= |a| {
        assert (a + b)[k] == b[k - |a|];
      }
    }
  }

  /** Sequential code computes exactly its temporaries, in order, and is
      straight-line without touching the PARAM queue. */
  lemma {:induction false} SequentialFacts(c: seq<Instr>, base: nat)
    requires Sequential(c, base)
    ensures TempDefs(c) == TempNames(base, base + |c|)
    ensures Straight(c) && Pushes(c, [])
  {
    if |c| > 0 {
      var init := c[..|c| - 1];
      var last := c[|c| - 1];
      assert Sequential(init, base);
      SequentialFacts(init, base);
      forall q
        ensures QueueAfter(q, c) == q
      {
      }
    }
  }

  lemma {:induction false} SubOnesSequential(idx: seq<string>, i: nat, n: nat, base: nat)
    requires i <= n <= |idx|
    ensures Sequential(SubOnesCode(idx, i, n, base), base)
    decreases n - i
  {
    if i < n {
      var head := [Instr(SUB, Some(idx[i]), Some("1"), Some(TempName(base)))];
      SubOnesSequential(idx, i + 1, n, base + 1);
      SequentialAppend(head, SubOnesCode(idx, i + 1, n, base + 1), base);
    }
  }

  lemma {:induction false} LinearizeSequential(texts: seq<string>, adj: seq<string>, i: nat, lin: string, base: nat)
    requires 1 <= i <= |adj| <= |texts|
    ensures Sequential(LinearizeCode(texts, adj, i, lin, base), base)
    decreases |adj| - i
  {
    if i < |adj| {
      var pair := PairCode(lin, texts[i], adj[i], base);
      LinearizeSequential(texts, adj, i + 1, TempName(base + 1), base + 2);
      SequentialAppend(pair, LinearizeCode(texts, adj, i + 1, TempName(base + 1), base + 2), base);
    }
  }

  lemma SequentialOne(i: Instr, base: nat)
    requires i.op in {ADD, SUB, MUL} && i.r == Some(TempName(base))
    ensures Sequential([i], base)
  {
  }

  lemma OffsetSequential(dims: seq<int>, idx: seq<string>, n: nat, base: nat)
    requires 0 < n <= |dims| && n <= |idx|
    ensures Sequential(OffsetCode(dims, idx, n, base), base)
  {
    var ts := Temps(base, n);
    var subs := SubOnesCode(idx, 0, n, base);
    var lin := LinearizeCode(DimTexts(dims), ts, 1, ts[0], base + n);
    var last := Instr(MUL, Some(LinOut(ts, 1, ts[0], base + n)), Some("4"), Some(TempName(base + n + 2 * (n - 1))));
    SubOnesSequential(idx, 0, n, base);
    LinearizeSequential(DimTexts(dims), ts, 1, ts[0], base + n);
    assert |subs| == n && |lin| == 2 * (n - 1);
    SequentialAppend(subs, lin, base);
    SequentialOne(last, base + n + 2 * (n - 1));
    assert |subs + lin| == n + 2 * (n - 1);
    SequentialAppend(subs + lin, [last], base);
  }

  /** Sequential code appended with the temporary counter advanced past it
      is expression code. */
  lemma SequentialCode(g: Gen, g': Gen, c: seq<Instr>)
    requires Sequential(c, g.tmp)
    requires g'.code == g.code + c && g'.lbl == g.lbl && g'.tmp == g.tmp + |c|
    ensures ExprCode(g, g', [])
  {
    assert Added(g, g') == c;
    SequentialFacts(c, g.tmp);
  }

  /** offsetBytesForArray leaves expression code behind. */
  lemma OffsetBytesCode(g: Gen, dims: seq<int>, idx: seq<string>)
    ensures ExprCode(g, OffsetBytes(g, dims, idx).1, [])
  {
    var n := if |dims| < |idx| then |dims| else |idx|;
    if n == 0 {
      ExprCodeNone(g);
    } else {
      var c := OffsetCode(dims, idx, n, g.tmp);
      OffsetSequential(dims, idx, n, g.tmp);
      SequentialCode(g, OffsetBytes(g, dims, idx).1, c);
    }
  }
}
