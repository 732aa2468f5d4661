/** What the TAC optimizer guarantees: it only drops self-moves and replaces
    foldable binary instructions by constant moves, so labels, jumps, returns
    and the PARAM queue are untouched; functions keep their names, parameters
    and order; and a second pass changes nothing. */
module TacOptimizerProps {
  import opened Common
  import Int32
  import opened Tac
  import opened TacFacts
  import opened TacOptimizer

  /** The three outcomes for one instruction, read off the literals' values:
      a self-move disappears; a foldable instruction whose literals fit in an
      `int` becomes `MOV value -> r` unless it divides by zero, in which case it
      is kept; a literal outside the range throws; anything else is kept. */
  lemma OptInstrSpec(i: Instr)
    ensures OptInstr(i) == Ok([]) <==> SelfMove(i)
    ensures OptInstr(i).Thrown? <==>
      FoldCandidate(i) && !(Int32.InRange(LitValue(i.a.value)) && Int32.InRange(LitValue(i.b.value)))
    ensures FoldCandidate(i) && Int32.InRange(LitValue(i.a.value)) && Int32.InRange(LitValue(i.b.value)) ==>
      var v := Eval(i.op, LitValue(i.a.value), LitValue(i.b.value));
      OptInstr(i) == Ok(if v.Some? then [Instr(MOV, Some(IntToString(v.value)), None, i.r)] else [i])
    ensures !SelfMove(i) && !FoldCandidate(i) ==> OptInstr(i) == Ok([i])
  {
    if FoldCandidate(i) {
      assert i.op != MOV;
    }
  }

  /** Division or remainder by a literal zero is never folded: the
      instruction is copied as it is. */
  lemma DivByZeroKept(i: Instr)
    requires FoldCandidate(i) && (i.op == DIV || i.op == MOD)
    requires LitValue(i.b.value) == 0 && Int32.InRange(LitValue(i.a.value))
    ensures OptInstr(i) == Ok([i])
  {
    OptInstrSpec(i);
    assert Eval(i.op, LitValue(i.a.value), LitValue(i.b.value)).None?;
  }

  /** A move between different operands is kept. */
  lemma OtherMoveKept(i: Instr)
    requires i.op == MOV && i.r != i.a
    ensures OptInstr(i) == Ok([i])
  {
    assert !SelfMove(i) && !IsBinary(i.op);
  }

  lemma OptCodeOne(i: Instr)
    ensures OptCode([i]) == OptInstr(i)
  {
    assert [i][..0] == [];
    assert OptCode([i][..0]) == Ok([]);
    if OptInstr(i).Ok? {
      assert [] + OptInstr(i).value == OptInstr(i).value;
    }
  }

  /** Optimizing a concatenation optimizes the two halves and joins them;
      an exception in the first half is the one that propagates. */
  lemma {:induction false} OptCodeAppend(a: seq<Instr>, b: seq<Instr>)
    ensures OptCode(a).Thrown? ==> OptCode(a + b) == OptCode(a).PropagateFailure()
    ensures OptCode(a).Ok? && OptCode(b).Thrown? ==> OptCode(a + b) == OptCode(b).PropagateFailure()
    ensures OptCode(a).Ok? && OptCode(b).Ok? ==> OptCode(a + b) == Ok(OptCode(a).value + OptCode(b).value)
    decreases |b|
  {
    if |b| == 0 {
      assert a + b == a;
      assert OptCode(b) == Ok([]);
      if OptCode(a).Ok? {
        assert OptCode(a).value + [] == OptCode(a).value;
      }
    } else {
      var init := b[..|b| - 1];
      var i := b[|b| - 1];
      assert (a + b)[..|a + b| - 1] == a + init;
      assert (a + b)[|a + b| - 1] == i;
      OptCodeAppend(a, init);
      if OptCode(a).Ok? && OptCode(init).Ok? && OptInstr(i).Ok? {
        assert OptCode(a).value + OptCode(init).value + OptInstr(i).value
          == OptCode(a).value + (OptCode(init).value + OptInstr(i).value);
      }
    }
  }

  /** Where the whole function optimizes, so does every instruction, and an
      exception anywhere aborts the whole function. */
  lemma {:induction false} OptCodeThrows(c: seq<Instr>)
    ensures OptCode(c).Thrown? <==> exists k :: 0 <= k < |c| && OptInstr(c[k]).Thrown?
  {
    if |c| > 0 {
      var init, last := c[..|c| - 1], c[|c| - 1];
      OptCodeThrows(init);
      assert OptCode(c).Thrown? <==> OptCode(init).Thrown? || OptInstr(last).Thrown?;
      if OptCode(init).Thrown? {
        var k :| 0 <= k < |init| && OptInstr(init[k]).Thrown?;
        assert c[k] == init[k];
      } else if OptInstr(last).Thrown? {
        assert OptInstr(c[|c| - 1]).Thrown?;
      } else {
        forall k | 0 <= k < |c|
          ensures !OptInstr(c[k]).Thrown?
        {
          if k < |init| {
            assert c[k] == init[k];
          } else {
            assert c[k] == last;
          }
        }
      }
    }
  }

  /** Every item an instruction contributes survives optimization, for any
      kind of item that moves and binary instructions do not contribute. */
  lemma OptInstrKeeps<T>(i: Instr, out: seq<Instr>, f: Instr -> seq<T>)
    requires OptInstr(i) == Ok(out)
    requires forall j: Instr :: j.op == MOV || IsBinary(j.op) ==> f(j) == []
    ensures Gather(out, f) == f(i)
  {
    OptInstrSpec(i);
    if out == [] {
      assert Gather(out, f) == [];
    } else {
      GatherOne(out[0], f);
      if out != [i] {
        assert out[0].op == MOV;
      }
    }
  }

  lemma {:induction false} OptCodeKeeps<T>(c: seq<Instr>, out: seq<Instr>, f: Instr -> seq<T>)
    requires OptCode(c) == Ok(out)
    requires forall j: Instr :: j.op == MOV || IsBinary(j.op) ==> f(j) == []
    ensures Gather(out, f) == Gather(c, f)
  {
    if |c| > 0 {
      var init := OptCode(c[..|c| - 1]).value;
      var last := OptInstr(c[|c| - 1]).value;
      assert out == init + last;
      OptCodeKeeps(c[..|c| - 1], init, f);
      OptInstrKeeps(c[|c| - 1], last, f);
      GatherAppend(init, last, f);
    }
  }

  /** The labels, jump targets and returns of a function are exactly those it
      had before, in the same order; hence every jump still finds its label. */
  lemma OptCodeKeepsFlow(c: seq<Instr>, out: seq<Instr>)
    requires OptCode(c) == Ok(out)
    ensures Labels(out) == Labels(c) && Targets(out) == Targets(c) && Rets(out) == Rets(c)
    ensures Closed(c) ==> Closed(out)
  {
    OptCodeKeeps(c, out, LabelDef);
    OptCodeKeeps(c, out, JumpTarget);
    OptCodeKeeps(c, out, RetOf);
  }

  /** The optimized code never gets longer. */
  lemma {:induction false} OptCodeShorter(c: seq<Instr>, out: seq<Instr>)
    requires OptCode(c) == Ok(out)
    ensures |out| <= |c|
  {
    if |c| > 0 {
      var init := OptCode(c[..|c| - 1]).value;
      OptInstrSpec(c[|c| - 1]);
      OptCodeShorter(c[..|c| - 1], init);
    }
  }

  /** PARAM and CALL instructions are untouched, so the queue of pending
      arguments evolves exactly as before: every call still takes the same
      arguments. */
  lemma {:induction false} OptCodeKeepsQueue(c: seq<Instr>, out: seq<Instr>, q: seq<Operand>)
    requires OptCode(c) == Ok(out)
    ensures QueueAfter(q, out) == QueueAfter(q, c)
  {
    if |c| > 0 {
      var i := c[|c| - 1];
      var init := OptCode(c[..|c| - 1]).value;
      var last := OptInstr(i).value;
      assert out == init + last;
      OptCodeKeepsQueue(c[..|c| - 1], init, q);
      QueueAppend(q, init, last);
      OptInstrSpec(i);
      if last == [] {
        assert QueueAfter(QueueAfter(q, init), last) == QueueAfter(q, init);
      } else {
        assert last[..0] == [];
      }
    }
  }

  /** No instruction writes its result to text that reads as an integer
      literal; the generator only ever writes to variables and temporaries. */
  predicate NoLiteralResults(c: seq<Instr>) {
    forall k :: 0 <= k < |c| ==> !IsIntOperand(c[k].r)
  }

  /** Code the optimizer leaves alone: no self-move, and every fold candidate
      is a division or remainder by zero. */
  predicate Optimal(c: seq<Instr>) {
    forall k :: 0 <= k < |c| ==> OptCode([c[k]]) == Ok([c[k]])
  }

  lemma OptInstrOptimal(i: Instr, out: seq<Instr>)
    requires OptInstr(i) == Ok(out) && !IsIntOperand(i.r)
    ensures Optimal(out) && NoLiteralResults(out)
  {
    OptInstrSpec(i);
    if out != [] {
      OptCodeOne(out[0]);
      if out != [i] {
        assert !SelfMove(out[0]);
      }
    }
  }

  lemma OptimalAppend(a: seq<Instr>, b: seq<Instr>)
    requires Optimal(a) && Optimal(b)
    ensures Optimal(a + b)
  {
    forall k | 0 <= k < |a + b|
      ensures OptCode([(a + b)[k]]) == Ok([(a + b)[k]])
    {
      if k < |a| {
        assert (a + b)[k] == a[k];
      } else {
        assert (a + b)[k] == b[k - |a|];
      }
    }
  }

  /** Optimized code is optimal, provided no result is a literal. */
  lemma {:induction false} OptCodeOptimal(c: seq<Instr>, out: seq<Instr>)
    requires OptCode(c) == Ok(out) && NoLiteralResults(c)
    ensures Optimal(out) && NoLiteralResults(out)
  {
    if |c| > 0 {
      var init := OptCode(c[..|c| - 1]).value;
      var last := OptInstr(c[|c| - 1]).value;
      assert out == init + last;
      OptCodeOptimal(c[..|c| - 1], init);
      OptInstrOptimal(c[|c| - 1], last);
      OptimalAppend(init, last);
    }
  }

  /** Optimal code optimizes to itself. */
  lemma {:induction false} OptimalFixed(c: seq<Instr>)
    requires Optimal(c)
    ensures OptCode(c) == Ok(c)
  {
    if |c| > 0 {
      var init := c[..|c| - 1];
      assert Optimal(init) by {
        forall k | 0 <= k < |init|
          ensures OptCode([init[k]]) == Ok([init[k]])
        {
          assert init[k] == c[k];
        }
      }
      OptimalFixed(init);
      OptCodeOne(c[|c| - 1]);
      assert init + [c[|c| - 1]] == c;
    }
  }

  /** A second pass changes nothing. */
  lemma OptCodeIdempotent(c: seq<Instr>, out: seq<Instr>)
    requires OptCode(c) == Ok(out) && NoLiteralResults(c)
    ensures OptCode(out) == Ok(out)
  {
    OptCodeOptimal(c, out);
    OptimalFixed(out);
  }

  /** The optimized functions correspond one to one, in order, with the same
      names and parameters. */
  lemma {:induction false} OptFunctionsShape(fs: seq<Function>, gs: seq<Function>)
    requires OptFunctions(fs) == Ok(gs)
    ensures |gs| == |fs|
    ensures forall k :: 0 <= k < |fs| ==>
      gs[k].name == fs[k].name && gs[k].params == fs[k].params && OptCode(fs[k].code) == Ok(gs[k].code)
  {
    if |fs| > 0 {
      var init := OptFunctions(fs[..|fs| - 1]).value;
      OptFunctionsShape(fs[..|fs| - 1], init);
      assert gs == init + [OptFunction(fs[|fs| - 1]).value];
    }
  }

  /** The optimizer as written fails exactly when the corrected one does,
      and otherwise differs from it only in losing every global of the
      program: the functions are the same. */
  lemma OptimizeAsWrittenDropsGlobals(p: Program)
    ensures OptimizeAsWritten(p).Ok? <==> Optimize(p).Ok?
    ensures OptimizeAsWritten(p).Ok? ==>
      && OptimizeAsWritten(p).value.globals == []
      && Optimize(p) == Ok(Program(p.globals, OptimizeAsWritten(p).value.functions))
  {
  }

  /** So a program with one global loses it. */
  lemma OptimizeAsWrittenDropsGlobal()
    ensures OptimizeAsWritten(Program([Global("g", 4)], [])) == Ok(Program([], []))
    ensures Optimize(Program([Global("g", 4)], [])) == Ok(Program([Global("g", 4)], []))
  {
  }

  /** With globals carried over, optimization keeps the program's globals and
      transforms each function as described above. */
  lemma OptimizeShape(p: Program, q: Program)
    requires Optimize(p) == Ok(q)
    ensures q.globals == p.globals
    ensures |q.functions| == |p.functions|
    ensures forall k :: 0 <= k < |p.functions| ==>
      q.functions[k].name == p.functions[k].name && q.functions[k].params == p.functions[k].params
      && OptCode(p.functions[k].code) == Ok(q.functions[k].code)
  {
    OptFunctionsShape(p.functions, q.functions);
  }

  /** Running the optimizer on its own output gives the same program. */
  lemma OptimizeIdempotent(p: Program, q: Program)
    requires Optimize(p) == Ok(q)
    requires forall f :: f in p.functions ==> NoLiteralResults(f.code)
    ensures Optimize(q) == Ok(q)
  {
    OptimizeShape(p, q);
    var fs := q.functions;
    forall k | 0 <= k < |fs|
      ensures OptCode(fs[k].code) == Ok(fs[k].code)
    {
      assert p.functions[k] in p.functions;
      OptCodeIdempotent(p.functions[k].code, fs[k].code);
    }
    FunctionsFixed(fs);
  }

  lemma {:induction false} FunctionsFixed(fs: seq<Function>)
    requires forall k :: 0 <= k < |fs| ==> OptCode(fs[k].code) == Ok(fs[k].code)
    ensures OptFunctions(fs) == Ok(fs)
  {
    if |fs| > 0 {
      var init := fs[..|fs| - 1];
      var f := fs[|fs| - 1];
      assert forall k :: 0 <= k < |init| ==> init[k] == fs[k];
      FunctionsFixed(init);
      assert OptCode(f.code) == Ok(f.code);
      assert OptFunction(f) == Ok(f);
      assert init + [f] == fs;
    }
  }
}
