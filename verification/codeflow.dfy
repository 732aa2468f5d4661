/** The control-flow shape of statement code: a stretch of code appended
    between two generator states computes the temporaries it takes once each
    and in order, leaves the PARAM queue as it found it, defines each label
    it allocated at most once, and jumps only to labels it defines itself.
    Statement lowering glues such stretches together with single LABEL, GOTO
    and IFZ instructions; `Piece` tracks the partial facts while gluing. */
module CodeFlow {
  import opened Common
  import opened Tac
  import opened GenState
  import opened TacFacts
  import opened CodeShape

  /** Every number of `ns` lies in [lo, hi). */
  predicate Within(ns: set<int>, lo: int, hi: int) {
    forall n :: n in ns ==> lo <= n < hi
  }

  /** The numbers of `ln` are pairwise distinct and drawn from `ns`. */
  predicate NumsFrom(ln: seq<int>, ns: set<int>) {
    && (forall k :: 0 <= k < |ln| ==> ln[k] in ns)
    && (forall i, j :: 0 <= i < j < |ln| ==> ln[i] != ln[j])
  }

  /** The labels `c` defines are pairwise distinct and numbered in [lo, hi). */
  predicate LabelsIn(c: seq<Instr>, lo: int, hi: int) {
    var ns := LabelNums(c);
    && (forall k :: 0 <= k < |ns| ==> lo <= ns[k] < hi)
    && (forall i, j :: 0 <= i < j < |ns| ==> ns[i] != ns[j])
  }

  /** Statement code between `g` and `g'`. */
  ghost predicate StmtCode(g: Gen, g': Gen) {
    && Extends(g, g')
    && TempDefs(Added(g, g')) == TempNames(g.tmp, g'.tmp)
    && Pushes(Added(g, g'), [])
    && LabelsIn(Added(g, g'), g.lbl, g'.lbl)
    && Closed(Added(g, g'))
  }

  /** A piece of statement code under construction: its temporaries are
      t0 .. t1 - 1 in order, it pushes nothing net, its label numbers are
      distinct and drawn from `ns`, it jumps only to labels in `ts`, and it
      defines every label in `ds`. */
  ghost predicate Piece(c: seq<Instr>, t0: nat, t1: nat, ns: set<int>, ts: set<Operand>, ds: set<Operand>) {
    && t0 <= t1
    && TempDefs(c) == TempNames(t0, t1)
    && Pushes(c, [])
    && NumsFrom(LabelNums(c), ns)
    && (forall l :: l in Targets(c) ==> l in ts)
    && (forall l :: l in ds ==> l in Labels(c))
  }

  /** The code appended between two states, as a piece. */
  ghost predicate Stretch(g: Gen, g': Gen, ns: set<int>, ts: set<Operand>, ds: set<Operand>) {
    Extends(g, g') && Piece(Added(g, g'), g.tmp, g'.tmp, ns, ts, ds)
  }

  lemma NumsJoin(la: seq<int>, lb: seq<int>, n1: set<int>, n2: set<int>)
    requires NumsFrom(la, n1) && NumsFrom(lb, n2) && n1 !! n2
    ensures NumsFrom(la + lb, n1 + n2)
  {
    var ln := la + lb;
    forall i, j | 0 <= i < j < |ln|
      ensures ln[i] != ln[j]
    {
      if j < |la| {
        assert ln[i] == la[i] && ln[j] == la[j];
      } else if |la| <= i {
        assert ln[i] == lb[i - |la|] && ln[j] == lb[j - |la|];
      } else {
        assert ln[i] == la[i] && ln[j] == lb[j - |la|];
        assert la[i] in n1 && lb[j - |la|] in n2;
      }
    }
  }

  lemma TempsJoin(a: seq<Instr>, b: seq<Instr>, t0: nat, t1: nat, t2: nat)
    requires t0 <= t1 <= t2
    requires TempDefs(a) == TempNames(t0, t1) && TempDefs(b) == TempNames(t1, t2)
    ensures TempDefs(a + b) == TempNames(t0, t2)
  {
    GatherAppend(a, b, TempDef);
    TempNamesSplit(t0, t1, t2);
  }

  lemma QueueJoin(a: seq<Instr>, b: seq<Instr>)
    requires Pushes(a, []) && Pushes(b, [])
    ensures Pushes(a + b, [])
  {
    var none: seq<Operand> := [];
    PushesAppend(a, none, b, none);
    assert none + none == none;
  }

  lemma FlowJoin(a: seq<Instr>, b: seq<Instr>, s1: set<Operand>, d1: set<Operand>, s2: set<Operand>, d2: set<Operand>)
    requires forall l :: l in Targets(a) ==> l in s1
    requires forall l :: l in d1 ==> l in Labels(a)
    requires forall l :: l in Targets(b) ==> l in s2
    requires forall l :: l in d2 ==> l in Labels(b)
    ensures forall l :: l in Targets(a + b) ==> l in s1 + s2
    ensures forall l :: l in d1 + d2 ==> l in Labels(a + b)
  {
    GatherAppend(a, b, LabelDef);
    GatherAppend(a, b, JumpTarget);
  }

  /** Two pieces with disjoint label numbers make one. */
  lemma PieceJoin(a: seq<Instr>, b: seq<Instr>, t0: nat, t1: nat, t2: nat,
                  n1: set<int>, s1: set<Operand>, d1: set<Operand>,
                  n2: set<int>, s2: set<Operand>, d2: set<Operand>)
    requires Piece(a, t0, t1, n1, s1, d1) && Piece(b, t1, t2, n2, s2, d2) && n1 !! n2
    ensures Piece(a + b, t0, t2, n1 + n2, s1 + s2, d1 + d2)
  {
    TempsJoin(a, b, t0, t1, t2);
    QueueJoin(a, b);
    GatherAppend(a, b, LabelNum);
    NumsJoin(LabelNums(a), LabelNums(b), n1, n2);
    FlowJoin(a, b, s1, d1, s2, d2);
  }

  lemma StretchJoin(g: Gen, g1: Gen, g2: Gen,
                    n1: set<int>, s1: set<Operand>, d1: set<Operand>,
                    n2: set<int>, s2: set<Operand>, d2: set<Operand>)
    requires Stretch(g, g1, n1, s1, d1) && Stretch(g1, g2, n2, s2, d2) && n1 !! n2
    ensures Stretch(g, g2, n1 + n2, s1 + s2, d1 + d2)
  {
    AddedJoin(g, g1, g2);
    PieceJoin(Added(g, g1), Added(g1, g2), g.tmp, g1.tmp, g2.tmp, n1, s1, d1, n2, s2, d2);
  }

  /** A state change that appends no code and takes no temporary. */
  lemma StretchNone(g: Gen, g': Gen, ts: set<Operand>)
    requires g'.code == g.code && g'.tmp == g.tmp && g.lbl <= g'.lbl
    ensures Stretch(g, g', {}, ts, {})
  {
    assert Added(g, g') == [];
  }

  /** Expression code is a piece with no label and no jump. */
  lemma StretchExpr(g: Gen, g': Gen)
    requires ExprCode(g, g', [])
    ensures Stretch(g, g', {}, {}, {})
  {
    var c := Added(g, g');
    StraightMeans(c);
    LabelNumsAt(c);
  }

  /** One appended instruction that is neither a label nor a jump, pushes
      nothing and computes no temporary. */
  lemma StretchQuiet(g: Gen, i: Instr)
    requires !Computes(i.op) && i.op !in {LABEL, GOTO, IFZ, PARAM, CALL}
    ensures Stretch(g, Put(g, i), {}, {}, {})
  {
    Single(i);
    GatherOne(i, LabelNum);
    assert Added(g, Put(g, i)) == [i];
  }

  /** An appended LABEL defines its label under the label's number. */
  lemma StretchLabel(g: Gen, l: string)
    ensures Stretch(g, Put(g, Label(l)), {LabelNumber(l) as int}, {}, {Some(l)})
  {
    var i := Label(l);
    Single(i);
    GatherOne(i, LabelNum);
    assert Added(g, Put(g, i)) == [i];
  }

  /** An appended GOTO jumps to its label. */
  lemma StretchGoto(g: Gen, l: string)
    ensures Stretch(g, Put(g, Goto(l)), {}, {Some(l)}, {})
  {
    var i := Goto(l);
    Single(i);
    GatherOne(i, LabelNum);
    assert Added(g, Put(g, i)) == [i];
  }

  /** An appended IFZ jumps to its label. */
  lemma StretchIfZero(g: Gen, v: string, l: string)
    ensures Stretch(g, Put(g, IfZero(v, l)), {}, {Some(l)}, {})
  {
    var i := IfZero(v, l);
    Single(i);
    GatherOne(i, LabelNum);
    assert Added(g, Put(g, i)) == [i];
  }

  /** Statement code read as a piece: its own label numbers, all in its
      span, and its own labels both as jump targets and as definitions. */
  lemma StmtStretch(g: Gen, g': Gen)
    requires StmtCode(g, g')
    ensures Stretch(g, g', NumSet(Added(g, g')), LabelSet(Added(g, g')), LabelSet(Added(g, g')))
    ensures Within(NumSet(Added(g, g')), g.lbl, g'.lbl)
  {
  }

  /** A piece whose numbers lie in the span allocated meanwhile and whose
      jumps all go to labels it defines is statement code. */
  lemma StretchStmt(g: Gen, g': Gen, ns: set<int>, ts: set<Operand>, ds: set<Operand>)
    requires Stretch(g, g', ns, ts, ds) && Within(ns, g.lbl, g'.lbl) && ts <= ds
    ensures StmtCode(g, g')
  {
  }

  /** The label numbers of a run of code, as a set. */
  ghost function NumSet(c: seq<Instr>): set<int> {
    set n | n in LabelNums(c)
  }

  /** The labels a run of code defines, as a set. */
  ghost function LabelSet(c: seq<Instr>): set<Operand> {
    set l | l in Labels(c)
  }

  lemma StmtNone(g: Gen)
    ensures StmtCode(g, g)
  {
    StretchNone(g, g, {});
    StretchStmt(g, g, {}, {}, {});
  }

  lemma StmtOfExpr(g: Gen, g': Gen)
    requires ExprCode(g, g', [])
    ensures StmtCode(g, g')
  {
    StretchExpr(g, g');
    StretchStmt(g, g', {}, {}, {});
  }

  lemma StmtQuiet(g: Gen, i: Instr)
    requires !Computes(i.op) && i.op !in {LABEL, GOTO, IFZ, PARAM, CALL}
    ensures StmtCode(g, Put(g, i))
  {
    StretchQuiet(g, i);
    StretchStmt(g, Put(g, i), {}, {}, {});
  }

  /** Statement code followed by statement code is statement code. */
  lemma StmtJoin(g: Gen, g1: Gen, g2: Gen)
    requires StmtCode(g, g1) && StmtCode(g1, g2)
    ensures StmtCode(g, g2)
  {
    StmtStretch(g, g1);
    StmtStretch(g1, g2);
    var d1, d2 := LabelSet(Added(g, g1)), LabelSet(Added(g1, g2));
    var n1, n2 := NumSet(Added(g, g1)), NumSet(Added(g1, g2));
    StretchJoin(g, g1, g2, n1, d1, d1, n2, d2, d2);
    StretchStmt(g, g2, n1 + n2, d1 + d2, d1 + d2);
  }

  /** What statement code guarantees about its labels: each is a named label
      allocated between the two states, and no two are equal. */
  lemma StmtLabels(g: Gen, g': Gen)
    requires StmtCode(g, g')
    ensures forall k :: 0 <= k < |Labels(Added(g, g'))| ==>
      Labels(Added(g, g'))[k].Some? && g.lbl <= LabelNumber(Labels(Added(g, g'))[k].value) < g'.lbl
    ensures forall i, j :: 0 <= i < j < |Labels(Added(g, g'))| ==> Labels(Added(g, g'))[i] != Labels(Added(g, g'))[j]
  {
    LabelsInNames(Added(g, g'), g.lbl, g'.lbl);
  }

  /** Distinct label numbers mean distinct labels, and numbers in a span of
      non-negative counters mean no null label. */
  lemma LabelsInNames(c: seq<Instr>, lo: int, hi: int)
    requires LabelsIn(c, lo, hi) && 0 <= lo
    ensures forall k :: 0 <= k < |Labels(c)| ==> Labels(c)[k].Some? && lo <= LabelNumber(Labels(c)[k].value) < hi
    ensures forall i, j :: 0 <= i < j < |Labels(c)| ==> Labels(c)[i] != Labels(c)[j]
  {
    LabelNumsAt(c);
  }

  /** Labels numbered in [lo, mid) followed by labels numbered in [mid, hi):
      all distinct, all in [lo, hi). */
  lemma LabelsInJoin(a: seq<Instr>, b: seq<Instr>, lo: int, mid: int, hi: int)
    requires lo <= mid <= hi && LabelsIn(a, lo, mid) && LabelsIn(b, mid, hi)
    ensures LabelsIn(a + b, lo, hi)
  {
    GatherAppend(a, b, LabelNum);
    var la, lb := LabelNums(a), LabelNums(b);
    var ln := LabelNums(a + b);
    assert ln == la + lb;
    forall k | 0 <= k < |ln|
      ensures lo <= ln[k] < hi
    {
      if k < |la| {
        assert ln[k] == la[k];
      } else {
        assert ln[k] == lb[k - |la|];
      }
    }
    forall i, j | 0 <= i < j < |ln|
      ensures ln[i] != ln[j]
    {
      if j < |la| {
        assert ln[i] == la[i] && ln[j] == la[j];
      } else if |la| <= i {
        assert ln[i] == lb[i - |la|] && ln[j] == lb[j - |la|];
      } else {
        assert ln[i] == la[i] && ln[j] == lb[j - |la|];
      }
    }
  }

  // ---------------------------------------------------------------------
  // The loop and branch shapes
  // ---------------------------------------------------------------------

  /** The head of the while shape: two labels taken at `g`, then LABEL
      top, the condition's code, IFZ to `out`. */
  lemma WhileHead(g: Gen, g2: Gen, g3: Gen, top: string, out: string, v: string)
    requires g2.code == g.code && g2.tmp == g.tmp && g2.lbl == g.lbl + 2
    requires LabelNumber(top) == g.lbl
    requires ExprCode(Put(g2, Label(top)), g3, [])
    ensures Stretch(g, Put(g3, IfZero(v, out)), {g.lbl}, {Some(out)}, {Some(top)})
  {
    var h1 := Put(g2, Label(top));
    StretchNone(g, g2, {});
    StretchLabel(g2, top);
    StretchJoin(g, g2, h1, {}, {}, {}, {g.lbl}, {}, {Some(top)});
    StretchExpr(h1, g3);
    StretchJoin(g, h1, g3, {g.lbl}, {}, {Some(top)}, {}, {}, {});
    StretchIfZero(g3, v, out);
    StretchJoin(g, g3, Put(g3, IfZero(v, out)), {g.lbl}, {}, {Some(top)}, {}, {Some(out)}, {});
  }

  /** Statement code appended to a stretch whose numbers lie below the
      current counter: the numbers stay disjoint and below the new counter. */
  lemma AddStmt(g: Gen, h: Gen, h': Gen, ns: set<int>, ts: set<Operand>, ds: set<Operand>)
    requires Stretch(g, h, ns, ts, ds) && Within(ns, g.lbl, h.lbl) && StmtCode(h, h')
    ensures var a := Added(h, h');
      Stretch(g, h', ns + NumSet(a), ts + LabelSet(a), ds + LabelSet(a))
      && Within(ns + NumSet(a), g.lbl, h'.lbl) && Within(NumSet(a), h.lbl, h'.lbl)
  {
    StmtStretch(h, h');
    var a := Added(h, h');
    StretchJoin(g, h, h', ns, ts, ds, NumSet(a), LabelSet(a), LabelSet(a));
  }

  /** A GOTO appended to a stretch adds its label to the targets. */
  lemma AddGoto(g: Gen, h: Gen, ns: set<int>, ts: set<Operand>, ds: set<Operand>, l: string)
    requires Stretch(g, h, ns, ts, ds)
    ensures Stretch(g, Put(h, Goto(l)), ns, ts + {Some(l)}, ds)
  {
    StretchGoto(h, l);
    StretchJoin(g, h, Put(h, Goto(l)), ns, ts, ds, {}, {Some(l)}, {});
    assert ns + {} == ns && ds + {} == ds;
  }

  /** A LABEL whose number the stretch has not used adds its number and its
      definition. */
  lemma AddLabel(g: Gen, h: Gen, ns: set<int>, ts: set<Operand>, ds: set<Operand>, l: string)
    requires Stretch(g, h, ns, ts, ds) && LabelNumber(l) as int !in ns
    ensures Stretch(g, Put(h, Label(l)), ns + {LabelNumber(l) as int}, ts, ds + {Some(l)})
  {
    StretchLabel(h, l);
    StretchJoin(g, h, Put(h, Label(l)), ns, ts, ds, {LabelNumber(l) as int}, {}, {Some(l)});
    assert ts + {} == ts;
  }

  /** Expression code appended to a stretch changes none of its sets. */
  lemma AddExpr(g: Gen, h: Gen, h': Gen, ns: set<int>, ts: set<Operand>, ds: set<Operand>)
    requires Stretch(g, h, ns, ts, ds) && ExprCode(h, h', [])
    ensures Stretch(g, h', ns, ts, ds)
  {
    StretchExpr(h, h');
    StretchJoin(g, h, h', ns, ts, ds, {}, {}, {});
    assert ns + {} == ns && ts + {} == ts && ds + {} == ds;
  }

  /** The set facts closing a loop needs, stated apart from the code. */
  lemma LoopSets(lo: int, lb: int, nb: set<int>, db: set<Operand>, top: string, out: string, hi: int)
    requires lo <= lb && lb + 2 <= hi && Within(nb, lb + 2, hi)
    ensures lb + 1 !in {lb} + nb
    ensures Within({lb} + nb + {lb + 1}, lo, hi)
    ensures {Some(out)} + db + {Some(top)} <= {Some(top)} + db + {Some(out)}
  {
  }

  /** A loop is closed by GOTO top and LABEL out: with the head's label
      `lb` and the body's numbers above `lb + 1`, the result is statement
      code. */
  lemma CloseLoop(g: Gen, h: Gen, lb: int, nb: set<int>, db: set<Operand>, top: string, out: string)
    requires g.lbl <= lb && lb + 2 <= h.lbl && Within(nb, lb + 2, h.lbl)
    requires LabelNumber(out) == lb + 1
    requires Stretch(g, h, {lb} + nb, {Some(out)} + db, {Some(top)} + db)
    ensures StmtCode(g, Put(Put(h, Goto(top)), Label(out)))
  {
    var h1 := Put(h, Goto(top));
    LoopSets(g.lbl, lb, nb, db, top, out, h.lbl);
    AddGoto(g, h, {lb} + nb, {Some(out)} + db, {Some(top)} + db, top);
    AddLabel(g, h1, {lb} + nb, {Some(out)} + db + {Some(top)}, {Some(top)} + db, out);
    StretchStmt(g, Put(h1, Label(out)), {lb} + nb + {lb + 1}, {Some(out)} + db + {Some(top)}, {Some(top)} + db + {Some(out)});
  }

  /** The while shape: the head, the body, GOTO top, LABEL out. */
  lemma WhileShape(g: Gen, g2: Gen, g3: Gen, g4: Gen, top: string, out: string, v: string)
    requires g2.code == g.code && g2.tmp == g.tmp && g2.lbl == g.lbl + 2
    requires LabelNumber(top) == g.lbl && LabelNumber(out) == g.lbl + 1
    requires ExprCode(Put(g2, Label(top)), g3, [])
    requires StmtCode(Put(g3, IfZero(v, out)), g4)
    ensures StmtCode(g, Put(Put(g4, Goto(top)), Label(out)))
  {
    var lb := g.lbl;
    var h3 := Put(g3, IfZero(v, out));
    WhileHead(g, g2, g3, top, out, v);
    AddStmt(g, h3, g4, {lb}, {Some(out)}, {Some(top)});
    var nb, db := NumSet(Added(h3, g4)), LabelSet(Added(h3, g4));
    CloseLoop(g, g4, lb, nb, db, top, out);
  }

  /** The prefix both if shapes share: two labels taken at `g`, the
      condition's code, IFZ to `els`, the then-branch. */
  lemma IfPrefix(g: Gen, g2: Gen, g3: Gen, g4: Gen, els: string, v: string)
    requires g2.code == g.code && g2.tmp == g.tmp && g2.lbl == g.lbl + 2
    requires ExprCode(g2, g3, [])
    requires StmtCode(Put(g3, IfZero(v, els)), g4)
    ensures Stretch(g, g4, NumSet(Added(Put(g3, IfZero(v, els)), g4)),
      {Some(els)} + LabelSet(Added(Put(g3, IfZero(v, els)), g4)), LabelSet(Added(Put(g3, IfZero(v, els)), g4)))
    ensures Within(NumSet(Added(Put(g3, IfZero(v, els)), g4)), g.lbl + 2, g4.lbl)
  {
    var h3 := Put(g3, IfZero(v, els));
    StretchNone(g, g2, {});
    StretchExpr(g2, g3);
    StretchJoin(g, g2, g3, {}, {}, {}, {}, {}, {});
    StretchIfZero(g3, v, els);
    StretchJoin(g, g3, h3, {}, {}, {}, {}, {Some(els)}, {});
    StmtStretch(h3, g4);
    var n1, d1 := NumSet(Added(h3, g4)), LabelSet(Added(h3, g4));
    StretchJoin(g, h3, g4, {}, {Some(els)}, {}, n1, d1, d1);
  }

  /** The set facts closing an if without else needs, stated apart from
      the code. */
  lemma ThenSets(lo: int, lb: int, n1: set<int>, d1: set<Operand>, hi: int, els: string)
    requires lo == lb && lb + 2 <= hi && Within(n1, lb + 2, hi)
    ensures lb !in n1
    ensures Within(n1 + {lb}, lo, hi)
    ensures {Some(els)} + d1 <= d1 + {Some(els)}
  {
  }

  /** The if shape without else: the prefix, then LABEL els. */
  lemma IfThenShape(g: Gen, g2: Gen, g3: Gen, g4: Gen, els: string, v: string)
    requires g2.code == g.code && g2.tmp == g.tmp && g2.lbl == g.lbl + 2
    requires LabelNumber(els) == g.lbl
    requires ExprCode(g2, g3, [])
    requires StmtCode(Put(g3, IfZero(v, els)), g4)
    ensures StmtCode(g, Put(g4, Label(els)))
  {
    var lb := g.lbl;
    var h3 := Put(g3, IfZero(v, els));
    IfPrefix(g, g2, g3, g4, els, v);
    var n1, d1 := NumSet(Added(h3, g4)), LabelSet(Added(h3, g4));
    ThenSets(g.lbl, lb, n1, d1, g4.lbl, els);
    AddLabel(g, g4, n1, {Some(els)} + d1, d1, els);
    StretchStmt(g, Put(g4, Label(els)), n1 + {lb}, {Some(els)} + d1, d1 + {Some(els)});
  }

  /** The if shape with else up to the else-branch: the prefix, GOTO end,
      LABEL els. */
  lemma IfElseMiddle(g: Gen, g2: Gen, g3: Gen, g4: Gen, els: string, end: string, v: string)
    requires g2.code == g.code && g2.tmp == g.tmp && g2.lbl == g.lbl + 2
    requires LabelNumber(els) == g.lbl
    requires ExprCode(g2, g3, [])
    requires StmtCode(Put(g3, IfZero(v, els)), g4)
    ensures var d1 := LabelSet(Added(Put(g3, IfZero(v, els)), g4));
      Stretch(g, Put(Put(g4, Goto(end)), Label(els)), NumSet(Added(Put(g3, IfZero(v, els)), g4)) + {g.lbl},
        {Some(els)} + d1 + {Some(end)}, d1 + {Some(els)})
    ensures Within(NumSet(Added(Put(g3, IfZero(v, els)), g4)), g.lbl + 2, g4.lbl)
  {
    var lb := g.lbl;
    var h3 := Put(g3, IfZero(v, els));
    IfPrefix(g, g2, g3, g4, els, v);
    var n1, d1 := NumSet(Added(h3, g4)), LabelSet(Added(h3, g4));
    var h4 := Put(g4, Goto(end));
    StretchGoto(g4, end);
    StretchJoin(g, g4, h4, n1, {Some(els)} + d1, d1, {}, {Some(end)}, {});
    StretchLabel(h4, els);
    StretchJoin(g, h4, Put(h4, Label(els)), n1, {Some(els)} + d1 + {Some(end)}, d1, {lb}, {}, {Some(els)});
  }

  /** The set facts closing an if with else needs, stated apart from the
      code. */
  lemma IfSets(lo: int, lb: int, n1: set<int>, d1: set<Operand>, mid: int, n2: set<int>, d2: set<Operand>,
               hi: int, els: string, end: string)
    requires lo == lb && lb + 2 <= mid <= hi && Within(n1, lb + 2, mid) && Within(n2, mid, hi)
    ensures Within(n1 + {lb}, lo, mid)
    ensures lb + 1 !in n1 + {lb} + n2
    ensures Within(n1 + {lb} + n2 + {lb + 1}, lo, hi)
    ensures {Some(els)} + d1 + {Some(end)} + d2 <= d1 + {Some(els)} + d2 + {Some(end)}
  {
  }

  /** The if shape with else: the middle, the else-branch, LABEL end. */
  lemma IfElseShape(g: Gen, g2: Gen, g3: Gen, g4: Gen, g5: Gen, els: string, end: string, v: string)
    requires g2.code == g.code && g2.tmp == g.tmp && g2.lbl == g.lbl + 2
    requires LabelNumber(els) == g.lbl && LabelNumber(end) == g.lbl + 1
    requires ExprCode(g2, g3, [])
    requires StmtCode(Put(g3, IfZero(v, els)), g4)
    requires StmtCode(Put(Put(g4, Goto(end)), Label(els)), g5)
    ensures StmtCode(g, Put(g5, Label(end)))
  {
    var lb := g.lbl;
    var h3 := Put(g3, IfZero(v, els));
    var h5 := Put(Put(g4, Goto(end)), Label(els));
    IfElseMiddle(g, g2, g3, g4, els, end, v);
    var n1, d1 := NumSet(Added(h3, g4)), LabelSet(Added(h3, g4));
    var n2, d2 := NumSet(Added(h5, g5)), LabelSet(Added(h5, g5));
    StmtStretch(h5, g5);
    IfSets(g.lbl, lb, n1, d1, g4.lbl, n2, d2, g5.lbl, els, end);
    AddStmt(g, h5, g5, n1 + {lb}, {Some(els)} + d1 + {Some(end)}, d1 + {Some(els)});
    AddLabel(g, g5, n1 + {lb} + n2, {Some(els)} + d1 + {Some(end)} + d2, d1 + {Some(els)} + d2, end);
    StretchStmt(g, Put(g5, Label(end)), n1 + {lb} + n2 + {lb + 1}, {Some(els)} + d1 + {Some(end)} + d2,
      d1 + {Some(els)} + d2 + {Some(end)});
  }

  /** The head of the for shape: the initialiser's code, two labels taken,
      LABEL top, the test part (which may jump only to `out`). */
  lemma ForHead(g: Gen, g1: Gen, g3: Gen, g5: Gen, top: string, out: string)
    requires ExprCode(g, g1, [])
    requires g3.code == g1.code && g3.tmp == g1.tmp && g3.lbl == g1.lbl + 2
    requires LabelNumber(top) == g1.lbl
    requires Stretch(Put(g3, Label(top)), g5, {}, {Some(out)}, {})
    ensures Stretch(g, g5, {g1.lbl}, {Some(out)}, {Some(top)})
  {
    var g4 := Put(g3, Label(top));
    StretchExpr(g, g1);
    StretchNone(g1, g3, {});
    StretchJoin(g, g1, g3, {}, {}, {}, {}, {}, {});
    StretchLabel(g3, top);
    StretchJoin(g, g3, g4, {}, {}, {}, {g1.lbl}, {}, {Some(top)});
    StretchJoin(g, g4, g5, {g1.lbl}, {}, {Some(top)}, {}, {Some(out)}, {});
  }

  /** The for shape up to the loop's back jump: the head, the body, the
      step's code. */
  lemma ForBody(g: Gen, g1: Gen, g3: Gen, g5: Gen, g6: Gen, g7: Gen, top: string, out: string)
    requires ExprCode(g, g1, [])
    requires g3.code == g1.code && g3.tmp == g1.tmp && g3.lbl == g1.lbl + 2
    requires LabelNumber(top) == g1.lbl
    requires Stretch(Put(g3, Label(top)), g5, {}, {Some(out)}, {})
    requires StmtCode(g5, g6) && ExprCode(g6, g7, [])
    ensures var db := LabelSet(Added(g5, g6));
      Stretch(g, g7, {g1.lbl} + NumSet(Added(g5, g6)), {Some(out)} + db, {Some(top)} + db)
    ensures Within(NumSet(Added(g5, g6)), g5.lbl, g6.lbl)
  {
    var lb := g1.lbl;
    ForHead(g, g1, g3, g5, top, out);
    StmtStretch(g5, g6);
    var nb, db := NumSet(Added(g5, g6)), LabelSet(Added(g5, g6));
    StretchJoin(g, g5, g6, {lb}, {Some(out)}, {Some(top)}, nb, db, db);
    StretchExpr(g6, g7);
    StretchJoin(g, g6, g7, {lb} + nb, {Some(out)} + db, {Some(top)} + db, {}, {}, {});
  }

  /** The for shape: the body part, GOTO top, LABEL out. */
  lemma ForShape(g: Gen, g1: Gen, g3: Gen, g5: Gen, g6: Gen, g7: Gen, top: string, out: string)
    requires ExprCode(g, g1, [])
    requires g3.code == g1.code && g3.tmp == g1.tmp && g3.lbl == g1.lbl + 2
    requires LabelNumber(top) == g1.lbl && LabelNumber(out) == g1.lbl + 1
    requires Stretch(Put(g3, Label(top)), g5, {}, {Some(out)}, {})
    requires StmtCode(g5, g6) && ExprCode(g6, g7, [])
    ensures StmtCode(g, Put(Put(g7, Goto(top)), Label(out)))
  {
    var lb := g1.lbl;
    ForBody(g, g1, g3, g5, g6, g7, top, out);
    var nb, db := NumSet(Added(g5, g6)), LabelSet(Added(g5, g6));
    assert Within(nb, lb + 2, g7.lbl);
    CloseLoop(g, g7, lb, nb, db, top, out);
  }
}
