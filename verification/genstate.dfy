/** The state the IR generator threads through its walk (ir/TacGen.java):
    the fresh-temporary counter, the fresh-label counter and the code of the
    function being generated, with the helpers that allocate names and
    compute array byte offsets. */
module GenState {
  import opened Common
  import opened Tac
  import Int32

  datatype Gen = Gen(tmp: nat, lbl: nat, code: seq<Instr>)

  /** Nothing is taken back: both counters only grow and code is only appended. */
  predicate Extends(g: Gen, g': Gen) {
    g.tmp <= g'.tmp && g.lbl <= g'.lbl && g.code <= g'.code
  }

  lemma ExtendsTrans(a: Gen, b: Gen, c: Gen)
    requires Extends(a, b) && Extends(b, c)
    ensures Extends(a, c)
  {
  }

  function Put(g: Gen, i: Instr): (g': Gen)
    ensures Extends(g, g') && g'.tmp == g.tmp && g'.lbl == g.lbl
    ensures g'.code == g.code + [i]
  {
    g.(code := g.code + [i])
  }

  /** The control-flow instructions statement lowering emits. */
  function Label(l: string): Instr {
    Instr(LABEL, Some(l), None, None)
  }

  function Goto(l: string): Instr {
    Instr(GOTO, Some(l), None, None)
  }

  function IfZero(c: string, l: string): Instr {
    Instr(IFZ, Some(c), Some(l), None)
  }

  /** The name of the k-th temporary. */
  function TempName(k: nat): (s: string)
    ensures |s| >= 2 && s[0] == 't' && !IsIntLit(s)
  {
    "t" + NatToString(k)
  }

  /** Distinct counter values name distinct temporaries. */
  lemma TempNameInjective(j: nat, k: nat)
    requires TempName(j) == TempName(k)
    ensures j == k
  {
    assert TempName(j)[1..] == NatToString(j);
    assert TempName(k)[1..] == NatToString(k);
  }

  /** The counter a temporary's name was made from; None for any other text. */
  function TempIndex(s: string): Option<nat> {
    if |s| >= 2 && s[0] == 't' && AllDigits(s[1..]) && NatToString(DigitsValue(s[1..])) == s[1..]
    then Some(DigitsValue(s[1..]))
    else None
  }

  lemma TempIndexOf(k: nat)
    ensures TempIndex(TempName(k)) == Some(k)
  {
    assert TempName(k)[1..] == NatToString(k);
  }

  /** `s` is not the name of any temporary numbered `m` or later. */
  predicate FreshFrom(s: string, m: nat) {
    TempIndex(s).None? || TempIndex(s).value < m
  }

  lemma FreshDiffers(s: string, m: nat, j: nat)
    requires FreshFrom(s, m) && m <= j
    ensures s != TempName(j)
  {
    TempIndexOf(j);
  }

  lemma TempFresh(k: nat, m: nat)
    requires k < m
    ensures FreshFrom(TempName(k), m)
  {
    TempIndexOf(k);
  }

  /** newTemp: `t<k>` for the current counter, which then grows by one. */
  function NewTemp(g: Gen): (r: (string, Gen))
    ensures r.0 == TempName(g.tmp)
    ensures r.1 == g.(tmp := g.tmp + 1) && Extends(g, r.1)
  {
    (TempName(g.tmp), g.(tmp := g.tmp + 1))
  }

  /** The prefixes the generator labels with. */
  predicate IsLabelPrefix(p: string) {
    p == "else" || p == "endif" || p == "while" || p == "endwhile" || p == "for" || p == "endfor"
  }

  function LabelName(prefix: string, k: nat): string {
    prefix + "_" + NatToString(k)
  }

  /** newLabel: `<prefix>_<k>` for the current counter, which then grows. */
  function NewLabel(g: Gen, prefix: string): (r: (string, Gen))
    ensures r.0 == LabelName(prefix, g.lbl)
    ensures r.1 == g.(lbl := g.lbl + 1) && Extends(g, r.1)
  {
    (LabelName(prefix, g.lbl), g.(lbl := g.lbl + 1))
  }

  /** The run of digits that ends a text. */
  function TrailingDigits(s: string): (d: string)
    ensures AllDigits(d) && |d| <= |s|
  {
    if |s| == 0 || !IsDigit(s[|s| - 1]) then ""
    else TrailingDigits(s[..|s| - 1]) + [s[|s| - 1]]
  }

  lemma {:induction false} TrailingDigitsAppend(a: string, b: string)
    requires AllDigits(b)
    requires |a| > 0 && !IsDigit(a[|a| - 1])
    ensures TrailingDigits(a + b) == b
    decreases |b|
  {
    if |b| == 0 {
      assert a + b == a;
    } else {
      assert (a + b)[..|a + b| - 1] == a + b[..|b| - 1];
      TrailingDigitsAppend(a, b[..|b| - 1]);
      assert b == b[..|b| - 1] + [b[|b| - 1]];
    }
  }

  /** The counter a label was allocated with, read back from its name. */
  function LabelNumber(s: string): nat {
    DigitsValue(TrailingDigits(s))
  }

  /** A label's name determines its counter, whatever the prefix, so labels
      allocated with distinct counter values never clash. */
  lemma LabelNumberOf(prefix: string, k: nat)
    ensures LabelNumber(LabelName(prefix, k)) == k
  {
    TrailingDigitsAppend(prefix + "_", NatToString(k));
    assert LabelName(prefix, k) == (prefix + "_") + NatToString(k);
  }

  lemma LabelNameInjective(p: string, j: nat, q: string, k: nat)
    requires LabelName(p, j) == LabelName(q, k)
    ensures j == k
  {
    LabelNumberOf(p, j);
    LabelNumberOf(q, k);
  }

  /** product(dims) in Java `int` arithmetic: every step wraps. */
  function Product(dims: seq<int>): (p: int)
    ensures Int32.InRange(p)
  {
    if |dims| == 0 then 1 else Int32.Wrap(Product(dims[..|dims| - 1]) * dims[|dims| - 1])
  }

  /** Products wrap like Java `int`: 65536 * 65536 is 0. */
  lemma ProductWraps()
    ensures Product([3, 4]) == 12
    ensures Product([65536, 65536]) == 0
  {
    assert [3, 4][..1] == [3];
    assert [65536, 65536][..1] == [65536];
  }

  /** The SUB instructions subOne emits for indices i .. n-1, the k-th into
      temporary `base + k`. */
  function SubOnesCode(idx: seq<string>, i: nat, n: nat, base: nat): (c: seq<Instr>)
    requires i <= n <= |idx|
    ensures |c| == n - i
    decreases n - i
  {
    if i == n then []
    else [Instr(SUB, Some(idx[i]), Some("1"), Some(TempName(base)))] + SubOnesCode(idx, i + 1, n, base + 1)
  }

  /** The decimal texts of the dimensions, as the MUL operands print them. */
  function DimTexts(dims: seq<int>): (ts: seq<string>)
    ensures |ts| == |dims|
    ensures forall k :: 0 <= k < |dims| ==> ts[k] == IntToString(dims[k])
  {
    seq(|dims|, k requires 0 <= k < |dims| => IntToString(dims[k]))
  }

  /** The MUL/ADD pairs computing lin := lin * dims[j] + adj[j] for j = i ..
      |adj|-1, each pair into temporaries `base`, `base + 1`, then onwards;
      `texts` are the dimensions' decimal texts. */
  function LinearizeCode(texts: seq<string>, adj: seq<string>, i: nat, lin: string, base: nat): (c: seq<Instr>)
    requires 1 <= i <= |adj| <= |texts|
    ensures |c| == 2 * (|adj| - i)
    decreases |adj| - i
  {
    if i == |adj| then []
    else PairCode(lin, texts[i], adj[i], base) + LinearizeCode(texts, adj, i + 1, TempName(base + 1), base + 2)
  }

  /** One step of the linearising loop: `t = lin * d`, then `t' = t + x`. */
  function PairCode(lin: string, d: string, x: string, base: nat): seq<Instr> {
    [Instr(MUL, Some(lin), Some(d), Some(TempName(base))),
     Instr(ADD, Some(TempName(base)), Some(x), Some(TempName(base + 1)))]
  }

  /** The name holding the linearising loop's result from step i on: the
      starting `lin` when there is no step, else the last ADD's temporary. */
  function LinOut(adj: seq<string>, i: nat, lin: string, base: nat): string
    requires i <= |adj|
  {
    if i == |adj| then lin else TempName(base + 2 * (|adj| - i) - 1)
  }

  /** The temporaries `base`, `base + 1`, ... of the n SUBs. */
  function Temps(base: nat, n: nat): (ts: seq<string>)
    ensures |ts| == n
  {
    seq(n, k requires 0 <= k < n => TempName(base + k))
  }

  /** All the code offsetBytesForArray emits for n > 0 indices, starting
      with temporary `base`: n SUBs, n-1 MUL/ADD pairs, one MUL by 4. */
  function OffsetCode(dims: seq<int>, idx: seq<string>, n: nat, base: nat): (c: seq<Instr>)
    requires 0 < n <= |dims| && n <= |idx|
    ensures |c| == n + 2 * (n - 1) + 1
  {
    var ts := Temps(base, n);
    SubOnesCode(idx, 0, n, base) + LinearizeCode(DimTexts(dims), ts, 1, ts[0], base + n)
    + [Instr(MUL, Some(LinOut(ts, 1, ts[0], base + n)), Some("4"), Some(TempName(base + n + 2 * (n - 1))))]
  }

  /** offsetBytesForArray: the byte offset of a 1-based element access over
      the first n = min(rank, #indices) indices; "0" with no code when n is
      0. Otherwise it takes 3n temporaries and the last one holds the offset. */
  function OffsetBytes(g: Gen, dims: seq<int>, idx: seq<string>): (r: (string, Gen))
    ensures Extends(g, r.1) && r.1.lbl == g.lbl
    ensures (|dims| == 0 || |idx| == 0) ==> r == ("0", g)
    ensures (|dims| > 0 && |idx| > 0) ==> r.1.tmp > 0 && r.0 == TempName(r.1.tmp - 1)
  {
    var n := if |dims| < |idx| then |dims| else |idx|;
    if n == 0 then ("0", g)
    else
      var used := n + 2 * (n - 1) + 1;
      (TempName(g.tmp + used - 1), g.(tmp := g.tmp + used, code := g.code + OffsetCode(dims, idx, n, g.tmp)))
  }
}
