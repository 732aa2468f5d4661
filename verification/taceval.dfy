/** A reference meaning for straight-line arithmetic TAC, used to state
    what the generator's array-offset code computes. Values are unbounded
    integers; an operand is an integer literal or a name looked up in an
    environment (unset names read as 0). Only ADD, SUB and MUL change the
    environment. */
module TacEval {
  import opened Common
  import opened Tac
  import opened GenState

  type Env = map<string, int>

  function Val(env: Env, s: string): int {
    if IsIntLit(s) then LitValue(s) else if s in env then env[s] else 0
  }

  /** The arithmetic operators' meaning; other opcodes leave no value. */
  function Arith(op: Op, x: int, y: int): int {
    match op
    case ADD => x + y
    case SUB => x - y
    case MUL => x * y
    case _ => 0
  }

  function Step(env: Env, i: Instr): Env {
    if i.a.None? || i.b.None? || i.r.None? || i.op !in {ADD, SUB, MUL} then env
    else env[i.r.value := Arith(i.op, Val(env, i.a.value), Val(env, i.b.value))]
  }

  /** One arithmetic step sets its result and nothing else. */
  lemma StepVal(env: Env, op: Op, a: string, b: string, t: string, x: string)
    requires op in {ADD, SUB, MUL} && !IsIntLit(t)
    ensures Val(Step(env, Instr(op, Some(a), Some(b), Some(t))), x)
      == if x == t then Arith(op, Val(env, a), Val(env, b)) else Val(env, x)
  {
  }

  function Run(env: Env, code: seq<Instr>): Env
    decreases |code|
  {
    if |code| == 0 then env else Run(Step(env, code[0]), code[1..])
  }

  lemma {:induction false} RunAppend(env: Env, a: seq<Instr>, b: seq<Instr>)
    ensures Run(env, a + b) == Run(Run(env, a), b)
    decreases |a|
  {
    if |a| == 0 {
      assert a + b == b;
    } else {
      assert (a + b)[1..] == a[1..] + b;
      RunAppend(Step(env, a[0]), a[1..], b);
    }
  }

  lemma RunCons(env: Env, i: Instr, rest: seq<Instr>)
    ensures Run(env, [i] + rest) == Run(Step(env, i), rest)
  {
    assert ([i] + rest)[1..] == rest;
  }

  lemma IntToStringVal(env: Env, n: int)
    ensures Val(env, IntToString(n)) == n
  {
  }

  /** `t` is the literal text of the number `d`. */
  predicate LitOf(t: string, d: int) {
    IsIntLit(t) && LitValue(t) == d
  }

  lemma DimTextsLit(dims: seq<int>)
    ensures forall k :: 0 <= k < |dims| ==> LitOf(DimTexts(dims)[k], dims[k])
  {
  }

  /** The arithmetic offsetBytesForArray encodes: with adjusted (0-based)
      indices x, ((x0 * d1 + x1) * d2 + x2) ... over the first k indices. */
  function Horner(dims: seq<int>, xs: seq<int>, k: nat): int
    requires 1 <= k <= |xs| && k <= |dims|
  {
    if k == 1 then xs[0] else Horner(dims, xs, k - 1) * dims[k - 1] + xs[k - 1]
  }

  /** Byte offset of a 1-based access a[i0]..[i(n-1)], n = min(rank, #indices). */
  function OffsetValue(dims: seq<int>, vals: seq<int>): int {
    var n := if |dims| < |vals| then |dims| else |vals|;
    if n == 0 then 0 else 4 * Horner(dims, seq(n, k requires 0 <= k < n => vals[k] - 1), n)
  }

  // ---------------------------------------------------------------------
  // What the generated code computes
  // ---------------------------------------------------------------------

  lemma ValOneFour(env: Env)
    ensures Val(env, "1") == 1 && Val(env, "4") == 4
  {
    assert "1"[..0] == "" && "4"[..0] == "";
  }

  /** The SUBs of subOne change no name that is fresh from `base` on. */
  lemma {:induction false} SubOnesFrame(env: Env, idx: seq<string>, i: nat, n: nat, base: nat, x: string)
    requires i <= n <= |idx| && FreshFrom(x, base)
    ensures Val(Run(env, SubOnesCode(idx, i, n, base)), x) == Val(env, x)
    decreases n - i
  {
    if i < n {
      var t := TempName(base);
      var ins := Instr(SUB, Some(idx[i]), Some("1"), Some(t));
      RunCons(env, ins, SubOnesCode(idx, i + 1, n, base + 1));
      SubOnesFrame(Step(env, ins), idx, i + 1, n, base + 1, x);
      FreshDiffers(x, base, base);
      StepVal(env, SUB, idx[i], "1", t, x);
    }
  }

  /** The SUBs of subOne leave idx[i + (k - base)] - 1 in temporary k. */
  lemma {:induction false} SubOnesAt(env: Env, idx: seq<string>, i: nat, n: nat, base: nat, k: nat)
    requires i <= n <= |idx|
    requires forall j :: i <= j < n ==> FreshFrom(idx[j], base)
    requires base <= k < base + (n - i)
    ensures Val(Run(env, SubOnesCode(idx, i, n, base)), TempName(k)) == Val(env, idx[i + (k - base)]) - 1
    decreases n - i
  {
    var t := TempName(base);
    var ins := Instr(SUB, Some(idx[i]), Some("1"), Some(t));
    var env1 := Step(env, ins);
    RunCons(env, ins, SubOnesCode(idx, i + 1, n, base + 1));
    ValOneFour(env);
    if k == base {
      TempFresh(base, base + 1);
      SubOnesFrame(env1, idx, i + 1, n, base + 1, t);
      StepVal(env, SUB, idx[i], "1", t, t);
    } else {
      var j := i + (k - base);
      assert i + 1 + (k - (base + 1)) == j;
      SubOnesAt(env1, idx, i + 1, n, base + 1, k);
      FreshDiffers(idx[j], base, base);
      StepVal(env, SUB, idx[i], "1", t, idx[j]);
    }
  }

  /** Horner's scheme run forwards from step i with accumulator `acc`. */
  function HornerFrom(dims: seq<int>, xs: seq<int>, i: nat, acc: int): int
    requires 1 <= i <= |xs| <= |dims|
    decreases |xs| - i
  {
    if i == |xs| then acc else HornerFrom(dims, xs, i + 1, acc * dims[i] + xs[i])
  }

  lemma HornerFromStep(dims: seq<int>, xs: seq<int>, i: nat, acc: int)
    requires 1 <= i < |xs| <= |dims|
    ensures HornerFrom(dims, xs, i, acc) == HornerFrom(dims, xs, i + 1, acc * dims[i] + xs[i])
  {
  }

  lemma {:induction false} HornerFromIsHorner(dims: seq<int>, xs: seq<int>, i: nat)
    requires 1 <= i <= |xs| <= |dims|
    ensures HornerFrom(dims, xs, i, Horner(dims, xs, i)) == Horner(dims, xs, |xs|)
    decreases |xs| - i
  {
    if i < |xs| {
      HornerFromIsHorner(dims, xs, i + 1);
    }
  }

  /** The environment after one MUL/ADD pair: `t = lin * d`, then `t' = t + x`. */
  function PairEnv(env: Env, lin: string, d: int, x: string, base: nat): Env {
    var e1 := env[TempName(base) := Val(env, lin) * d];
    e1[TempName(base + 1) := Val(e1, TempName(base)) + Val(e1, x)]
  }

  /** The two steps of a pair compute PairEnv. */
  lemma PairSteps(env: Env, lin: string, t: string, d: int, x: string, base: nat)
    requires LitOf(t, d)
    ensures var p := PairCode(lin, t, x, base);
      Step(Step(env, p[0]), p[1]) == PairEnv(env, lin, d, x, base)
  {
  }

  /** A pair leaves lin * d + x in its second temporary ... */
  lemma PairVal(env: Env, lin: string, d: int, x: string, base: nat)
    requires FreshFrom(x, base)
    ensures Val(PairEnv(env, lin, d, x, base), TempName(base + 1)) == Val(env, lin) * d + Val(env, x)
  {
    FreshDiffers(x, base, base);
  }

  /** ... and changes no name that is fresh from `base` on. */
  lemma PairFrame(env: Env, lin: string, d: int, x: string, base: nat, y: string)
    requires FreshFrom(y, base)
    ensures Val(PairEnv(env, lin, d, x, base), y) == Val(env, y)
  {
    FreshDiffers(y, base, base);
    FreshDiffers(y, base, base + 1);
  }

  /** The environment after the linearising loop from step i on. */
  function LinEnv(env: Env, dims: seq<int>, adj: seq<string>, i: nat, lin: string, base: nat): Env
    requires 1 <= i <= |adj| <= |dims|
    decreases |adj| - i
  {
    if i == |adj| then env
    else LinEnv(PairEnv(env, lin, dims[i], adj[i], base), dims, adj, i + 1, TempName(base + 1), base + 2)
  }

  /** Running a pair and then more code is running the code from PairEnv. */
  lemma PairRun(env: Env, lin: string, t: string, d: int, x: string, base: nat, rest: seq<Instr>)
    requires LitOf(t, d)
    ensures Run(env, PairCode(lin, t, x, base) + rest) == Run(PairEnv(env, lin, d, x, base), rest)
  {
    var p := PairCode(lin, t, x, base);
    assert p + rest == [p[0]] + ([p[1]] + rest);
    RunCons(env, p[0], [p[1]] + rest);
    RunCons(Step(env, p[0]), p[1], rest);
    PairSteps(env, lin, t, d, x, base);
  }

  lemma LinearizeCodeStep(env: Env, texts: seq<string>, dims: seq<int>, adj: seq<string>, i: nat, lin: string, base: nat)
    requires 1 <= i < |adj| <= |dims| == |texts| && LitOf(texts[i], dims[i])
    ensures Run(env, LinearizeCode(texts, adj, i, lin, base))
      == Run(PairEnv(env, lin, dims[i], adj[i], base), LinearizeCode(texts, adj, i + 1, TempName(base + 1), base + 2))
  {
    PairRun(env, lin, texts[i], dims[i], adj[i], base, LinearizeCode(texts, adj, i + 1, TempName(base + 1), base + 2));
  }

  lemma LinEnvStep(env: Env, dims: seq<int>, adj: seq<string>, i: nat, lin: string, base: nat)
    requires 1 <= i < |adj| <= |dims|
    ensures LinEnv(env, dims, adj, i, lin, base)
      == LinEnv(PairEnv(env, lin, dims[i], adj[i], base), dims, adj, i + 1, TempName(base + 1), base + 2)
  {
  }

  lemma LinearizeCodeEnd(env: Env, texts: seq<string>, dims: seq<int>, adj: seq<string>, i: nat, lin: string, base: nat)
    requires 1 <= i == |adj| <= |dims| == |texts|
    ensures Run(env, LinearizeCode(texts, adj, i, lin, base)) == env
    ensures LinEnv(env, dims, adj, i, lin, base) == env
  {
  }

  /** Running the loop's code is running its pairs one after another. */
  lemma {:induction false} LinearizeCodeRun(env: Env, texts: seq<string>, dims: seq<int>, adj: seq<string>, i: nat, lin: string, base: nat, y: string)
    requires 1 <= i <= |adj| <= |dims| == |texts|
    requires forall k :: i <= k < |adj| ==> LitOf(texts[k], dims[k])
    ensures Val(Run(env, LinearizeCode(texts, adj, i, lin, base)), y) == Val(LinEnv(env, dims, adj, i, lin, base), y)
    decreases |adj| - i, 1
  {
    if i < |adj| {
      LinearizeCodeRunPair(env, texts, dims, adj, i, lin, base, y);
    } else {
      LinearizeCodeEnd(env, texts, dims, adj, i, lin, base);
    }
  }

  /** The inductive step of LinearizeCodeRun: one pair, then the rest. */
  lemma {:induction false} LinearizeCodeRunPair(env: Env, texts: seq<string>, dims: seq<int>, adj: seq<string>, i: nat, lin: string, base: nat, y: string)
    requires 1 <= i < |adj| <= |dims| == |texts|
    requires LitOf(texts[i], dims[i])
    requires forall k :: i + 1 <= k < |adj| ==> LitOf(texts[k], dims[k])
    ensures Val(Run(env, LinearizeCode(texts, adj, i, lin, base)), y) == Val(LinEnv(env, dims, adj, i, lin, base), y)
    decreases |adj| - i, 0
  {
    var e1, lin1, base1 := PairEnv(env, lin, dims[i], adj[i], base), TempName(base + 1), base + 2;
    calc {
      Val(Run(env, LinearizeCode(texts, adj, i, lin, base)), y);
      { LinearizeCodeStep(env, texts, dims, adj, i, lin, base); }
      Val(Run(e1, LinearizeCode(texts, adj, i + 1, lin1, base1)), y);
      { LinearizeCodeRun(e1, texts, dims, adj, i + 1, lin1, base1, y); }
      Val(LinEnv(e1, dims, adj, i + 1, lin1, base1), y);
      { LinEnvStep(env, dims, adj, i, lin, base); }
      Val(LinEnv(env, dims, adj, i, lin, base), y);
    }
  }

  lemma LinOutStep(adj: seq<string>, i: nat, lin: string, base: nat)
    requires i < |adj|
    ensures LinOut(adj, i, lin, base) == LinOut(adj, i + 1, TempName(base + 1), base + 2)
  {
  }

  /** What the linearising loop from step i on needs: the later indices
      are fresh from `base` and hold `xs`, and `lin` holds `acc`. */
  predicate LinPre(env: Env, adj: seq<string>, i: nat, lin: string, base: nat, xs: seq<int>, acc: int)
    requires i <= |adj| == |xs|
  {
    && (forall j :: i <= j < |adj| ==> FreshFrom(adj[j], base) && Val(env, adj[j]) == xs[j])
    && Val(env, lin) == acc
  }

  /** One pair keeps the loop's preconditions: the pair's last temporary
      holds the next accumulator and the later indices keep their values. */
  lemma PairKeeps(env: Env, dims: seq<int>, adj: seq<string>, i: nat, lin: string, base: nat, xs: seq<int>, acc: int)
    requires 1 <= i < |adj| <= |dims| && |xs| == |adj|
    requires LinPre(env, adj, i, lin, base, xs, acc)
    ensures LinPre(PairEnv(env, lin, dims[i], adj[i], base), adj, i + 1, TempName(base + 1), base + 2, xs, acc * dims[i] + xs[i])
  {
    PairVal(env, lin, dims[i], adj[i], base);
    forall j | i + 1 <= j < |adj|
      ensures FreshFrom(adj[j], base + 2) && Val(PairEnv(env, lin, dims[i], adj[i], base), adj[j]) == xs[j]
    {
      PairFrame(env, lin, dims[i], adj[i], base, adj[j]);
    }
  }

  /** The loop from step i on leaves Horner's scheme, continued from `acc`,
      in its result. */
  predicate LinPost(env: Env, dims: seq<int>, adj: seq<string>, i: nat, lin: string, base: nat, xs: seq<int>, acc: int)
    requires 1 <= i <= |adj| <= |dims| && |xs| == |adj|
  {
    Val(LinEnv(env, dims, adj, i, lin, base), LinOut(adj, i, lin, base)) == HornerFrom(dims, xs, i, acc)
  }

  /** What the loop leaves from step i on is what it leaves from step i+1 on
      after one more pair, and Horner's scheme takes the same step. */
  lemma LinEnvValueStep(env: Env, dims: seq<int>, adj: seq<string>, i: nat, lin: string, base: nat, xs: seq<int>, acc: int)
    requires 1 <= i < |adj| <= |dims| && |xs| == |adj|
    requires LinPost(PairEnv(env, lin, dims[i], adj[i], base), dims, adj, i + 1, TempName(base + 1), base + 2, xs, acc * dims[i] + xs[i])
    ensures LinPost(env, dims, adj, i, lin, base, xs, acc)
  {
    HornerFromStep(dims, xs, i, acc);
    LinOutStep(adj, i, lin, base);
  }

  lemma LinEnvValueEnd(env: Env, dims: seq<int>, adj: seq<string>, i: nat, lin: string, base: nat, xs: seq<int>, acc: int)
    requires 1 <= i == |adj| <= |dims| && |xs| == |adj|
    requires LinPre(env, adj, i, lin, base, xs, acc)
    ensures LinPost(env, dims, adj, i, lin, base, xs, acc)
  {
  }

  /** The pairs compute Horner's scheme over the adjusted indices' values,
      leaving it in the loop's last temporary. */
  lemma {:induction false} LinEnvValue(env: Env, dims: seq<int>, adj: seq<string>, i: nat, lin: string, base: nat, xs: seq<int>, acc: int)
    requires 1 <= i <= |adj| <= |dims| && |xs| == |adj|
    requires LinPre(env, adj, i, lin, base, xs, acc)
    ensures LinPost(env, dims, adj, i, lin, base, xs, acc)
    decreases |adj| - i
  {
    if i < |adj| {
      PairKeeps(env, dims, adj, i, lin, base, xs, acc);
      LinEnvValue(PairEnv(env, lin, dims[i], adj[i], base), dims, adj, i + 1, TempName(base + 1), base + 2, xs, acc * dims[i] + xs[i]);
      LinEnvValueStep(env, dims, adj, i, lin, base, xs, acc);
    } else {
      LinEnvValueEnd(env, dims, adj, i, lin, base, xs, acc);
    }
  }

  lemma LinearizeRun(env: Env, dims: seq<int>, adj: seq<string>, lin: string, base: nat, xs: seq<int>)
    requires 1 <= |adj| <= |dims| && |xs| == |adj|
    requires forall j :: 1 <= j < |adj| ==> FreshFrom(adj[j], base) && Val(env, adj[j]) == xs[j]
    requires Val(env, lin) == xs[0]
    ensures Val(Run(env, LinearizeCode(DimTexts(dims), adj, 1, lin, base)), LinOut(adj, 1, lin, base)) == Horner(dims, xs, |xs|)
  {
    DimTextsLit(dims);
    LinearizeCodeRun(env, DimTexts(dims), dims, adj, 1, lin, base, LinOut(adj, 1, lin, base));
    LinEnvValue(env, dims, adj, 1, lin, base, xs, xs[0]);
    HornerFromIsHorner(dims, xs, 1);
  }

  /** After the SUBs, the j-th new temporary holds index j minus one and is
      fresh for the temporaries allocated after it. */
  lemma OffsetSub(idx: seq<string>, n: nat, base: nat, env: Env, j: nat)
    requires j < n <= |idx|
    requires forall j :: 0 <= j < |idx| ==> FreshFrom(idx[j], base)
    ensures FreshFrom(Temps(base, n)[j], base + n)
    ensures Val(Run(env, SubOnesCode(idx, 0, n, base)), Temps(base, n)[j]) == Val(env, idx[j]) - 1
  {
    TempFresh(base + j, base + n);
    SubOnesAt(env, idx, 0, n, base, base + j);
  }

  /** After the SUBs, temporary `base + j` holds the j-th adjusted index
      value and is fresh from the pairs' first temporary on. */
  lemma OffsetSubs(idx: seq<string>, n: nat, base: nat, env: Env, xs: seq<int>)
    requires n <= |idx| && |xs| == n
    requires forall j :: 0 <= j < |idx| ==> FreshFrom(idx[j], base)
    requires forall k :: 0 <= k < n ==> xs[k] == Val(env, idx[k]) - 1
    ensures forall j :: 0 <= j < n ==>
      FreshFrom(Temps(base, n)[j], base + n) && Val(Run(env, SubOnesCode(idx, 0, n, base)), Temps(base, n)[j]) == xs[j]
  {
    forall j | 0 <= j < n
      ensures FreshFrom(Temps(base, n)[j], base + n)
      ensures Val(Run(env, SubOnesCode(idx, 0, n, base)), Temps(base, n)[j]) == xs[j]
    {
      OffsetSub(idx, n, base, env, j);
    }
  }

  lemma RunThree(env: Env, a: seq<Instr>, b: seq<Instr>, last: Instr)
    ensures Run(env, a + b + [last]) == Step(Run(Run(env, a), b), last)
  {
    RunAppend(env, a + b, [last]);
    RunAppend(env, a, b);
    RunCons(Run(env, a + b), last, []);
    assert [last] + [] == [last];
  }

  /** Running offsetBytesForArray's code: the SUBs, then the pairs, then the MUL by 4. */
  lemma OffsetCodeSplit(dims: seq<int>, idx: seq<string>, n: nat, base: nat, env: Env)
    requires 0 < n <= |dims| && n <= |idx|
    ensures var ts := Temps(base, n);
      Run(env, OffsetCode(dims, idx, n, base))
        == Step(Run(Run(env, SubOnesCode(idx, 0, n, base)), LinearizeCode(DimTexts(dims), ts, 1, ts[0], base + n)),
                Instr(MUL, Some(LinOut(ts, 1, ts[0], base + n)), Some("4"), Some(TempName(base + n + 2 * (n - 1)))))
  {
    var ts := Temps(base, n);
    RunThree(env, SubOnesCode(idx, 0, n, base), LinearizeCode(DimTexts(dims), ts, 1, ts[0], base + n),
      Instr(MUL, Some(LinOut(ts, 1, ts[0], base + n)), Some("4"), Some(TempName(base + n + 2 * (n - 1)))));
  }

  /** After the SUBs and the pairs (whose temporaries start at `lb`), the
      loop's result holds Horner's scheme over the adjusted index values. */
  lemma OffsetLinear(dims: seq<int>, idx: seq<string>, n: nat, base: nat, env: Env, xs: seq<int>, lb: nat)
    requires 0 < n <= |dims| && n <= |idx| && |xs| == n
    requires forall j :: 0 <= j < n ==>
      FreshFrom(Temps(base, n)[j], lb) && Val(Run(env, SubOnesCode(idx, 0, n, base)), Temps(base, n)[j]) == xs[j]
    ensures Val(Run(Run(env, SubOnesCode(idx, 0, n, base)), LinearizeCode(DimTexts(dims), Temps(base, n), 1, Temps(base, n)[0], lb)),
      LinOut(Temps(base, n), 1, Temps(base, n)[0], lb)) == Horner(dims, xs, n)
  {
    LinearizeRun(Run(env, SubOnesCode(idx, 0, n, base)), dims, Temps(base, n), Temps(base, n)[0], lb, xs);
  }

  lemma MulFourVal(env: Env, a: string, t: string)
    requires !IsIntLit(t)
    ensures Val(Step(env, Instr(MUL, Some(a), Some("4"), Some(t))), t) == 4 * Val(env, a)
  {
    ValOneFour(env);
    StepVal(env, MUL, a, "4", t, t);
  }

  /** The code of offsetBytesForArray leaves the byte offset in its last
      temporary; `xs` are the adjusted (0-based) index values. */
  lemma OffsetCodeRun(dims: seq<int>, idx: seq<string>, n: nat, base: nat, env: Env, xs: seq<int>)
    requires 0 < n <= |dims| && n <= |idx| && |xs| == n
    requires forall j :: 0 <= j < |idx| ==> FreshFrom(idx[j], base)
    requires forall k :: 0 <= k < n ==> xs[k] == Val(env, idx[k]) - 1
    ensures Val(Run(env, OffsetCode(dims, idx, n, base)), TempName(base + n + 2 * (n - 1))) == 4 * Horner(dims, xs, n)
  {
    var ts := Temps(base, n);
    var env2 := Run(Run(env, SubOnesCode(idx, 0, n, base)), LinearizeCode(DimTexts(dims), ts, 1, ts[0], base + n));
    var out := LinOut(ts, 1, ts[0], base + n);
    assert Val(env2, out) == Horner(dims, xs, n) by {
      OffsetSubs(idx, n, base, env, xs);
      OffsetLinear(dims, idx, n, base, env, xs, base + n);
    }
    OffsetCodeSplit(dims, idx, n, base, env);
    MulFourVal(env2, out, TempName(base + n + 2 * (n - 1)));
  }

  /** With at least one index and one dimension, offsetBytesForArray
      appends exactly OffsetCode and names its last temporary. */
  lemma OffsetBytesShape(g: Gen, dims: seq<int>, idx: seq<string>)
    requires |dims| > 0 && |idx| > 0
    ensures var n := if |dims| < |idx| then |dims| else |idx|;
      var r := OffsetBytes(g, dims, idx);
      r.1.code[|g.code|..] == OffsetCode(dims, idx, n, g.tmp) && r.0 == TempName(g.tmp + n + 2 * (n - 1))
  {
  }

  lemma OffsetValueHorner(dims: seq<int>, vals: seq<int>, n: nat)
    requires n == (if |dims| < |vals| then |dims| else |vals|) && n > 0
    ensures OffsetValue(dims, vals) == 4 * Horner(dims, seq(n, k requires 0 <= k < n => vals[k] - 1), n)
  {
  }

  lemma OffsetBytesRunSome(g: Gen, dims: seq<int>, idx: seq<string>, env: Env, vals: seq<int>)
    requires |dims| > 0 && |idx| > 0
    requires forall j :: 0 <= j < |idx| ==> FreshFrom(idx[j], g.tmp)
    requires |vals| == |idx| && forall k :: 0 <= k < |idx| ==> vals[k] == Val(env, idx[k])
    ensures var r := OffsetBytes(g, dims, idx);
      Val(Run(env, r.1.code[|g.code|..]), r.0) == OffsetValue(dims, vals)
  {
    var n := if |dims| < |idx| then |dims| else |idx|;
    var xs := seq(n, k requires 0 <= k < n => vals[k] - 1);
    assert forall k :: 0 <= k < n ==> xs[k] == Val(env, idx[k]) - 1;
    assert Val(Run(env, OffsetCode(dims, idx, n, g.tmp)), TempName(g.tmp + n + 2 * (n - 1))) == 4 * Horner(dims, xs, n) by {
      OffsetCodeRun(dims, idx, n, g.tmp, env, xs);
    }
    OffsetValueHorner(dims, vals, n);
    OffsetBytesShape(g, dims, idx);
  }

  /** offsetBytesForArray's code leaves in its result the byte offset of
      the 1-based access, whatever the indices' values, provided no index
      operand is a temporary the computation itself allocates. */
  lemma OffsetBytesRun(g: Gen, dims: seq<int>, idx: seq<string>, env: Env)
    requires forall j :: 0 <= j < |idx| ==> FreshFrom(idx[j], g.tmp)
    ensures var r := OffsetBytes(g, dims, idx);
      Val(Run(env, r.1.code[|g.code|..]), r.0)
        == OffsetValue(dims, seq(|idx|, k requires 0 <= k < |idx| => Val(env, idx[k])))
  {
    var vals := seq(|idx|, k requires 0 <= k < |idx| => Val(env, idx[k]));
    if |dims| > 0 && |idx| > 0 {
      OffsetBytesRunSome(g, dims, idx, env, vals);
    } else {
      assert OffsetBytes(g, dims, idx).1.code[|g.code|..] == [];
    }
  }

  /** a[2][3] over dimensions [3, 4] is at byte ((2-1)*4 + (3-1))*4 = 24. */
  lemma OffsetExample(env: Env)
    ensures OffsetValue([3, 4], [2, 3]) == 24
    ensures OffsetValue([], [2, 3]) == 0
  {
    var xs := seq(2, k requires 0 <= k < 2 => [2, 3][k] - 1);
    assert xs == [1, 2];
    assert Horner([3, 4], xs, 1) == 1;
    assert Horner([3, 4], xs, 2) == 6;
  }
}
