/** Layout facts about the backend: frame size, the pre-scan and the slots it
    assigns, char-literal codes, the string pool, and the `.asciiz` escaping. */
module MipsLayout {
  import opened Common
  import Int32
  import opened Tac
  import opened TacFacts
  import opened Mips
  import opened MipsGen

  // ---------------------------------------------------------------------
  // Frame size
  // ---------------------------------------------------------------------

  /** For sizes that cannot overflow, `align16` rounds up to the nearest
      multiple of 16. */
  lemma Align16Rounds(n: int)
    requires 0 <= n <= Int32.MAX - 15
    ensures Align16(n) % 16 == 0 && n <= Align16(n) < n + 16
  {
    var r := Int32.Rem(n, 16);
    assert n == 16 * Int32.TruncDiv(n, 16) + r;
    if r != 0 {
      assert Align16(n) == n + (16 - r);
      assert Align16(n) == 16 * (Int32.TruncDiv(n, 16) + 1);
    }
  }

  /** The frame is a multiple of 16, holds every slot above the two saved
      words, and wastes less than 16 bytes doing so. */
  lemma FrameLayout(count: nat)
    requires 4 * count + 8 <= Int32.MAX - 15
    ensures FrameBytes(count) % 16 == 0 && FrameBytes(count) >= 16
    ensures 4 * count + 8 <= FrameBytes(count) < 4 * count + 8 + 16
    ensures FrameBytes(count) - 4 * count >= 8
  {
    Align16Rounds(4 * count + 8);
  }

  // ---------------------------------------------------------------------
  // Char literals
  // ---------------------------------------------------------------------

  /** The literal a writer of MiniC would use for a character: an escape for
      newline, tab, carriage return, backslash, quote and NUL, else the
      character itself. */
  function CharLit(c: char): string {
    if c == '\n' then "'\\n'"
    else if c == '\t' then "'\\t'"
    else if c == '\r' then "'\\r'"
    else if c == '\\' then "'\\\\'"
    else if c == '\'' then "'\\''"
    else if c == 0 as char then "'\\0'"
    else "'" + [c] + "'"
  }

  /** Every character survives the trip through its literal. */
  lemma CharCodeRoundTrip(c: char)
    ensures IsCharLit(Some(CharLit(c))) && CharCode(CharLit(c)) == c as int
  {
  }

  /** A one-character body is read as that character, a backslash included. */
  lemma CharCodePlain(c: char)
    ensures IsCharLit(Some("'" + [c] + "'")) && CharCode("'" + [c] + "'") == c as int
  {
  }

  /** The escapes: `\n \t \r \\ \' \" \0` are 10, 9, 13, 92, 39, 34 and 0; any
      other escaped character is itself; a longer body reads its first
      character. */
  lemma CharCodeEscapes(e: char, rest: string)
    ensures CharCode("'\\n'") == 10 && CharCode("'\\t'") == 9 && CharCode("'\\r'") == 13
    ensures CharCode("'\\\\'") == 92 && CharCode("'\\''") == 39 && CharCode("'\\\"'") == 34
    ensures CharCode("'\\0'") == 0
    ensures e !in "ntr\\'\"0" ==> CharCode("'\\" + [e] + "'") == e as int
    ensures |rest| >= 2 && rest[0] != '\\' ==> CharCode("'" + rest + "'") == rest[0] as int
  {
    if |rest| >= 2 && rest[0] != '\\' {
      var lit := "'" + rest + "'";
      assert lit[1..|lit| - 1] == rest;
    }
    var lit := "'\\" + [e] + "'";
    assert lit[1..|lit| - 1] == ['\\', e];
  }

  // ---------------------------------------------------------------------
  // Pre-scan
  // ---------------------------------------------------------------------

  predicate Distinct(s: seq<string>) {
    forall i, j :: 0 <= i < j < |s| ==> s[i] != s[j]
  }

  /** Some operand among `os` is a slotted name equal to `x`. */
  predicate Names(os: seq<Operand>, x: string) {
    exists k :: 0 <= k < |os| && Slotted(os[k]) && os[k].value == x
  }

  /** `addName` over a list keeps what was there, adds each slotted name not
      yet present, once, and nothing else. */
  lemma {:induction false} AddNamesSpec(names: seq<string>, os: seq<Operand>)
    requires Distinct(names)
    ensures names <= AddNames(names, os)
    ensures Distinct(AddNames(names, os))
    ensures forall x :: x in AddNames(names, os) <==> x in names || Names(os, x)
  {
    if |os| > 0 {
      var init := os[..|os| - 1];
      var o := os[|os| - 1];
      AddNamesSpec(names, init);
      forall x
        ensures Names(os, x) <==> Names(init, x) || (Slotted(o) && o.value == x)
      {
        if Names(os, x) {
          var k :| 0 <= k < |os| && Slotted(os[k]) && os[k].value == x;
          if k < |init| {
            assert init[k] == os[k];
          }
        }
        if Names(init, x) {
          var k :| 0 <= k < |init| && Slotted(init[k]) && init[k].value == x;
          assert os[k] == init[k];
        }
        if Slotted(o) && o.value == x {
          assert os[|os| - 1] == o;
        }
      }
    }
  }

  /** The pre-scan names are distinct, start with the distinct parameters,
      and are exactly the parameters plus the slotted operands the scan reads. */
  lemma ScanNamesSpec(f: Function)
    ensures Distinct(ScanNames(f))
    ensures AddNames([], AsOperands(f.params)) <= ScanNames(f)
    ensures forall x :: x in ScanNames(f) <==>
      Names(AsOperands(f.params), x) || Names(Gather(f.code, ScanOperands), x)
  {
    AddNamesSpec([], AsOperands(f.params));
    AddNamesSpec(AddNames([], AsOperands(f.params)), Gather(f.code, ScanOperands));
  }

  /** The slot map holds exactly `names`, the k-th at offset -4(k+1). */
  ghost predicate SlotsAre(slots: map<string, int>, names: seq<string>) {
    && (forall x :: x in slots <==> x in names)
    && (forall k :: 0 <= k < |names| ==> slots[names[k]] == -4 * (k + 1))
  }

  lemma {:induction false} DistinctCard(names: seq<string>)
    requires Distinct(names)
    ensures |set x | x in names| == |names|
  {
    if |names| > 0 {
      var init := names[..|names| - 1];
      var x := names[|names| - 1];
      DistinctCard(init);
      assert (set y | y in names) == (set y | y in init) + {x};
      assert x !in (set y | y in init);
    }
  }

  /** Allocating distinct names from a fresh state numbers them in order,
      -4, -8, ..., touching nothing but the slots. */
  lemma {:induction false} AllocAllSpec(g: Gen, names: seq<string>)
    requires Distinct(names) && g.slots == map[] && g.next == -4
    ensures SlotsAre(AllocAll(g, names).slots, names)
    ensures AllocAll(g, names).next == -4 * (|names| + 1)
    ensures |AllocAll(g, names).slots| == |names|
    ensures AllocAll(g, names) == g.(slots := AllocAll(g, names).slots, next := AllocAll(g, names).next)
  {
    if |names| > 0 {
      var init := names[..|names| - 1];
      var x := names[|names| - 1];
      AllocAllSpec(g, init);
      var g1 := AllocAll(g, init);
      assert x !in g1.slots;
      var g2 := AllocAll(g, names);
      assert g2 == g1.(slots := g1.slots[x := g1.next], next := g1.next - 4);
      forall k | 0 <= k < |names|
        ensures g2.slots[names[k]] == -4 * (k + 1)
      {
        if k < |init| {
          assert names[k] == init[k];
        }
      }
      assert g2.slots.Keys == g1.slots.Keys + {x};
    }
  }

  // ---------------------------------------------------------------------
  // String pool
  // ---------------------------------------------------------------------

  lemma StrLabelInjective(a: nat, b: nat)
    requires StrLabel(a) == StrLabel(b)
    ensures a == b
  {
    assert StrLabel(a)[4..] == NatToString(a);
    assert StrLabel(b)[4..] == NatToString(b);
    assert IntToString(a) == NatToString(a);
    assert IntToString(b) == NatToString(b);
    IntToStringInjective(a, b);
  }

  /** Every pooled label is `str_<k>` for a distinct `k` below the counter. */
  ghost predicate PoolInv(g: Gen) {
    && (forall lit :: lit in g.pool ==> exists k :: 0 <= k < g.strCount && g.pool[lit] == StrLabel(k))
    && (forall a, b :: a in g.pool && b in g.pool && a != b ==> g.pool[a] != g.pool[b])
  }

  /** A pooled literal keeps its label and changes nothing; a new one gets
      the next label, which no other literal has, and exactly one new
      `.asciiz` line holding its escaped body. Only the pool, the counter
      and the data change. */
  lemma StringLabelSpec(g: Gen, lit: string)
    requires IsStringLit(Some(lit)) && PoolInv(g)
    ensures var (l, g') := StringLabel(g, lit);
      && PoolInv(g')
      && lit in g'.pool && g'.pool[lit] == l
      && (lit in g.pool ==> g' == g)
      && (lit !in g.pool ==>
            && l == StrLabel(g.strCount)
            && (forall other :: other in g.pool ==> g.pool[other] != l)
            && g'.strCount == g.strCount + 1
            && g'.data == g.data + [Asciiz(l, EscapeBodyAsWritten(lit[1..|lit| - 1]))]
            && g' == g.(pool := g'.pool, strCount := g'.strCount, data := g'.data))
      && (forall other :: other in g.pool ==> other in g'.pool && g'.pool[other] == g.pool[other])
  {
    if lit !in g.pool {
      var l := StrLabel(g.strCount);
      forall other | other in g.pool
        ensures g.pool[other] != l
      {
        var k :| 0 <= k < g.strCount && g.pool[other] == StrLabel(k);
        if g.pool[other] == l {
          StrLabelInjective(k, g.strCount);
        }
      }
    }
  }

  /** Distinct pooled literals have distinct labels, and asking again for a
      pooled literal's label changes nothing. */
  lemma PoolDedup(g: Gen, a: string, b: string)
    requires IsStringLit(Some(a)) && IsStringLit(Some(b)) && PoolInv(g)
    ensures var (la, g1) := StringLabel(g, a);
      var (lb, g2) := StringLabel(g1, b);
      && (la == lb <==> a == b)
      && (a == b ==> g2 == g1)
  {
    StringLabelSpec(g, a);
    var (la, g1) := StringLabel(g, a);
    StringLabelSpec(g1, b);
  }

  // ---------------------------------------------------------------------
  // `.asciiz` bodies
  // ---------------------------------------------------------------------

  /** The characters the assembler reads from an `.asciiz` body: a backslash
      and the character after it form one escape; a lone final backslash is
      itself; anything else is itself. */
  function Decode(s: string): string
    decreases |s|
  {
    if |s| == 0 then []
    else if s[0] == '\\' && |s| >= 2 then [EscapeChar(s[1])] + Decode(s[2..])
    else [s[0]] + Decode(s[1..])
  }

  /** A body the assembler can read inside double quotes: no raw quote or
      line break outside an escape, and no backslash escaping the closing
      quote. */
  predicate Quotable(s: string)
    decreases |s|
  {
    if |s| == 0 then true
    else if s[0] == '\\' then |s| >= 2 && Quotable(s[2..])
    else s[0] != '"' && s[0] != '\n' && Quotable(s[1..])
  }

  lemma EscapeOneSafe(c: char)
    requires c != '\\'
    ensures Quotable(EscapeOne(c)) && Decode(EscapeOne(c)) == [c]
  {
    if c == '"' || c == '\n' || c == '\t' || c == '\r' {
      assert EscapeOne(c)[2..] == [];
    } else {
      assert EscapeOne(c)[1..] == [];
    }
  }

  lemma {:induction false} QuotableAppend(a: string, b: string)
    requires Quotable(a) && Quotable(b)
    ensures Quotable(a + b)
    decreases |a|
  {
    if |a| == 0 {
      assert a + b == b;
    } else if a[0] == '\\' {
      assert (a + b)[2..] == a[2..] + b;
      QuotableAppend(a[2..], b);
    } else {
      assert (a + b)[1..] == a[1..] + b;
      QuotableAppend(a[1..], b);
    }
  }

  lemma {:induction false} DecodeAppend(a: string, b: string)
    requires Quotable(a)
    ensures Decode(a + b) == Decode(a) + Decode(b)
    decreases |a|
  {
    if |a| == 0 {
      assert a + b == b;
    } else if a[0] == '\\' {
      assert (a + b)[2..] == a[2..] + b;
      DecodeAppend(a[2..], b);
    } else {
      assert (a + b)[1..] == a[1..] + b;
      DecodeAppend(a[1..], b);
    }
  }

  /** The escaping that respects existing escapes always yields a body the
      assembler can read, and it reads back the characters the literal
      denotes. */
  lemma {:induction false} EscapeBodySafe(s: string)
    ensures Quotable(EscapeBody(s)) && Decode(EscapeBody(s)) == Decode(s)
    decreases |s|
  {
    if |s| > 0 {
      if s[0] == '\\' {
        if |s| == 1 {
          assert EscapeBody(s)[2..] == [];
        } else {
          EscapeBodySafe(s[2..]);
          var e := s[..2] + EscapeBody(s[2..]);
          assert e[2..] == EscapeBody(s[2..]);
        }
      } else {
        EscapeBodySafe(s[1..]);
        EscapeOneSafe(s[0]);
        QuotableAppend(EscapeOne(s[0]), EscapeBody(s[1..]));
        DecodeAppend(EscapeOne(s[0]), EscapeBody(s[1..]));
      }
    }
  }

  /** Without backslashes the two escapings agree. */
  lemma {:induction false} EscapeAgreesWithoutBackslash(s: string)
    requires '\\' !in s
    ensures EscapeBodyAsWritten(s) == EscapeBody(s)
    decreases |s|
  {
    if |s| > 0 {
      assert s[0] in s;
      assert forall c :: c in s[1..] ==> c in s;
      EscapeAgreesWithoutBackslash(s[1..]);
    }
  }

  /** Without backslashes the assembler reads a body as it is written. */
  lemma {:induction false} DecodeWithoutBackslash(s: string)
    requires '\\' !in s
    ensures Decode(s) == s
    decreases |s|
  {
    if |s| > 0 {
      assert s[0] in s;
      assert forall c :: c in s[1..] ==> c in s;
      DecodeWithoutBackslash(s[1..]);
    }
  }

  /** On a literal without backslashes the escaping as written is safe: the
      assembler can read the body, and reads back exactly the literal's
      characters. */
  lemma EscapeAsWrittenSafe(s: string)
    requires '\\' !in s
    ensures Quotable(EscapeBodyAsWritten(s)) && Decode(EscapeBodyAsWritten(s)) == s
  {
    EscapeAgreesWithoutBackslash(s);
    EscapeBodySafe(s);
    DecodeWithoutBackslash(s);
  }

  /** The escaping as written turns the escaped quote `\"` of a string
      literal into `\\"`: an escaped backslash followed by a raw quote, which
      ends the assembler's string early. */
  lemma EscapeAsWrittenBreaksQuote()
    ensures EscapeBodyAsWritten("\\\"") == "\\\\\""
    ensures !Quotable(EscapeBodyAsWritten("\\\""))
    ensures Quotable(EscapeBody("\\\"")) && Decode(EscapeBody("\\\"")) == "\""
  {
    var s := "\\\"";
    assert s[1..] == "\"";
    assert EscapeBodyAsWritten(s[1..][1..]) == [];
    var w := "\\\\\"";
    assert w[2..] == "\"";
    assert EscapeBody(s) == s[..2] + EscapeBody(s[2..]);
    assert s[2..] == [];
  }
}
