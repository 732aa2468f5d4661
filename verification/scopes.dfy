/** Parent-linked scopes (semantics/BaseScope.java, LocalScope.java) and the
    symbol table's scope stack and error list (semantics/SymbolTable.java).

    Scopes live in an arena indexed by creation order; that arena is exactly the
    table's `created` list, because every scope the analyzer creates is pushed
    as soon as it exists. A scope's enclosing scope was created before it, so
    its index is smaller, and walking outward always terminates. */
module Scopes {
  import opened Common
  import opened Symbols
  import opened Diagnostics

  datatype Scope = Scope(name: string, parent: Option<nat>, symbols: map<string, Symbol>)

  type Arena = seq<Scope>

  predicate WellFormed(a: Arena) {
    forall i :: 0 <= i < |a| && a[i].parent.Some? ==> a[i].parent.value < i
  }

  /** j is `id` itself or one of its enclosing scopes. */
  predicate OnChain(a: Arena, id: nat, j: nat)
    requires WellFormed(a) && id < |a|
    decreases id
  {
    j == id || (a[id].parent.Some? && OnChain(a, a[id].parent.value, j))
  }

  lemma {:induction false} OnChainBelow(a: Arena, id: nat, j: nat)
    requires WellFormed(a) && id < |a|
    requires OnChain(a, id, j)
    ensures j <= id
    decreases id
  {
    if j != id {
      OnChainBelow(a, a[id].parent.value, j);
    }
  }

  /** BaseScope.resolve: the innermost binding of x on the enclosing chain. */
  function Resolve(a: Arena, id: nat, x: string): Option<Symbol>
    requires WellFormed(a) && id < |a|
    decreases id
  {
    if x in a[id].symbols then Some(a[id].symbols[x])
    else if a[id].parent.None? then None
    else Resolve(a, a[id].parent.value, x)
  }

  /** The index of the scope whose own map supplies `Resolve(a, id, x)`. */
  function ResolveScope(a: Arena, id: nat, x: string): (r: Option<nat>)
    requires WellFormed(a) && id < |a|
    ensures r.None? <==> Resolve(a, id, x).None?
    ensures r.Some? ==> (r.value <= id && x in a[r.value].symbols
                         && Resolve(a, id, x) == Some(a[r.value].symbols[x]))
    decreases id
  {
    if x in a[id].symbols then Some(id)
    else if a[id].parent.None? then None
    else ResolveScope(a, a[id].parent.value, x)
  }

  /** Resolution finds the nearest binding on the chain, and finds nothing
      exactly when no scope on the chain binds the name. */
  lemma {:induction false} ResolveScopeIsNearest(a: Arena, id: nat, x: string)
    requires WellFormed(a) && id < |a|
    ensures ResolveScope(a, id, x).Some? ==>
      var j := ResolveScope(a, id, x).value;
      && OnChain(a, id, j)
      && forall k :: 0 <= k < |a| && OnChain(a, id, k) && x in a[k].symbols ==> k <= j
    ensures ResolveScope(a, id, x).None? ==>
      forall k :: 0 <= k < |a| && OnChain(a, id, k) ==> x !in a[k].symbols
    decreases id
  {
    if x in a[id].symbols {
      forall k | 0 <= k < |a| && OnChain(a, id, k) && x in a[k].symbols
        ensures k <= id
      {
        OnChainBelow(a, id, k);
      }
    } else if a[id].parent.Some? {
      ResolveScopeIsNearest(a, a[id].parent.value, x);
    }
  }

  /** BaseScope.define into scope `id`: refused when the name is already in
      that scope's own map; enclosing scopes are not consulted. */
  function DefineIn(a: Arena, id: nat, sym: Symbol): (r: (Arena, bool))
    requires WellFormed(a) && id < |a|
    ensures WellFormed(r.0) && |r.0| == |a|
    ensures r.1 <==> sym.Name() !in a[id].symbols
  {
    var s := a[id];
    if sym.Name() in s.symbols then (a, false)
    else (a[id := Scope(s.name, s.parent, s.symbols[sym.Name() := sym])], true)
  }

  /** A successful define is visible to resolution from that scope; a refused one
      changes nothing and the first definition keeps winning. */
  lemma DefineThenResolve(a: Arena, id: nat, sym: Symbol)
    requires WellFormed(a) && id < |a|
    ensures var (a', ok) := DefineIn(a, id, sym);
      && (ok ==> Resolve(a', id, sym.Name()) == Some(sym))
      && (!ok ==> a' == a && Resolve(a', id, sym.Name()) == Some(a[id].symbols[sym.Name()]))
  {
  }

  /** Shadowing: a name bound only in an enclosing scope can be defined again
      in an inner one, and the inner binding then hides the outer. */
  lemma DefineShadows(a: Arena, id: nat, sym: Symbol)
    requires WellFormed(a) && id < |a|
    requires sym.Name() !in a[id].symbols
    requires Resolve(a, id, sym.Name()).Some?
    ensures DefineIn(a, id, sym).1
    ensures Resolve(DefineIn(a, id, sym).0, id, sym.Name()) == Some(sym)
  {
  }

  /** Defining one name leaves the resolution of every other name, from every
      scope, unchanged. */
  lemma {:induction false} DefineKeepsOtherNames(a: Arena, id: nat, sym: Symbol, k: nat, y: string)
    requires WellFormed(a) && id < |a| && k < |a|
    requires y != sym.Name()
    ensures Resolve(DefineIn(a, id, sym).0, k, y) == Resolve(a, k, y)
    decreases k
  {
    var a' := DefineIn(a, id, sym).0;
    assert a'[k].parent == a[k].parent;
    assert (y in a'[k].symbols) == (y in a[k].symbols);
    if y !in a[k].symbols && a[k].parent.Some? {
      DefineKeepsOtherNames(a, id, sym, a[k].parent.value, y);
    }
  }

  /** Defining into a scope not on k's chain does not affect resolution from k. */
  lemma {:induction false} DefineOffChain(a: Arena, id: nat, sym: Symbol, k: nat, y: string)
    requires WellFormed(a) && id < |a| && k < |a|
    requires !OnChain(a, k, id)
    ensures Resolve(DefineIn(a, id, sym).0, k, y) == Resolve(a, k, y)
    decreases k
  {
    var a' := DefineIn(a, id, sym).0;
    assert a'[k] == a[k];
    if y !in a[k].symbols && a[k].parent.Some? {
      DefineOffChain(a, id, sym, a[k].parent.value, y);
    }
  }

  // ---------------------------------------------------------------------
  // SymbolTable
  // ---------------------------------------------------------------------

  /** `scopes` is the `created` list; `stack` holds arena indices with the top
      at the end; `errors` is the append-only diagnostics list. */
  datatype Table = Table(scopes: Arena, stack: seq<nat>, errors: seq<Diag>)

  const GlobalName: string := "global"

  predicate Valid(t: Table) {
    && WellFormed(t.scopes)
    && |t.scopes| > 0
    && t.scopes[0].parent.None?
    && |t.stack| > 0
    && t.stack[0] == 0
    && forall k :: 0 <= k < |t.stack| ==> t.stack[k] < |t.scopes|
  }

  /** The constructor pushes a fresh global scope. */
  function Init(): (t: Table)
    ensures Valid(t)
    ensures |t.stack| == 1 && |t.scopes| == 1 && Current(t) == Globals(t)
    ensures t.errors == [] && t.scopes[0].symbols == map[]
  {
    Table([Scope(GlobalName, None, map[])], [0], [])
  }

  function Current(t: Table): (c: nat)
    requires Valid(t)
    ensures c < |t.scopes|
  {
    t.stack[|t.stack| - 1]
  }

  /** The bottom of the stack. */
  function Globals(t: Table): (g: nat)
    requires Valid(t)
    ensures g < |t.scopes|
  {
    t.stack[0]
  }

  /** Creates a scope enclosed by the current one and pushes it; it is also
      recorded at the end of `created`. */
  function PushNew(t: Table, name: string): (t': Table)
    requires Valid(t)
    ensures Valid(t')
    ensures t'.scopes == t.scopes + [Scope(name, Some(Current(t)), map[])]
    ensures t'.stack == t.stack + [|t.scopes|]
    ensures Current(t') == |t.scopes| && Globals(t') == Globals(t)
    ensures t'.errors == t.errors
  {
    Table(t.scopes + [Scope(name, Some(Current(t)), map[])], t.stack + [|t.scopes|], t.errors)
  }

  /** Pops the top scope; `created` keeps it. Popping the global scope itself is
      outside the model. */
  function Pop(t: Table): (t': Table)
    requires Valid(t) && |t.stack| > 1
    ensures Valid(t')
    ensures t'.stack == t.stack[..|t.stack| - 1]
    ensures t'.scopes == t.scopes && t'.errors == t.errors
  {
    Table(t.scopes, t.stack[..|t.stack| - 1], t.errors)
  }

  /** Popping right after a push restores the previous current scope and stack. */
  lemma PushThenPop(t: Table, name: string)
    requires Valid(t)
    ensures Pop(PushNew(t, name)).stack == t.stack
    ensures Current(Pop(PushNew(t, name))) == Current(t)
    ensures |Pop(PushNew(t, name)).scopes| == |t.scopes| + 1
  {
  }

  function ScopeName(t: Table, id: nat): string
    requires Valid(t) && id < |t.scopes|
  {
    t.scopes[id].name
  }

  /** `a` with the symbol map of scope `c` replaced by `m`; name and parent stay. */
  function WithSymbols(a: Arena, c: nat, m: map<string, Symbol>): (b: Arena)
    requires c < |a|
    ensures |b| == |a| && b[c].symbols == m
    ensures WellFormed(a) ==> WellFormed(b)
  {
    a[c := Scope(a[c].name, a[c].parent, m)]
  }

  /** SymbolTable.define: into the current scope only; a refusal appends exactly
      one diagnostic and changes no scope. */
  function Define(t: Table, sym: Symbol): (r: (Table, bool))
    requires Valid(t)
    ensures Valid(r.0) && r.0.stack == t.stack
    ensures r.1 <==> sym.Name() !in t.scopes[Current(t)].symbols
    ensures var m := t.scopes[Current(t)].symbols;
      r.1 ==> (&& r.0.errors == t.errors
               && r.0.scopes == WithSymbols(t.scopes, Current(t), m[sym.Name() := sym])
               && Resolve(r.0.scopes, Current(t), sym.Name()) == Some(sym))
    ensures !r.1 ==> (&& r.0.scopes == t.scopes
                      && r.0.errors == t.errors + [Redefinition(ScopeName(t, Current(t)), sym.Name())])
  {
    var (a, ok) := DefineIn(t.scopes, Current(t), sym);
    if ok then (Table(a, t.stack, t.errors), true)
    else (Table(a, t.stack, t.errors + [Redefinition(ScopeName(t, Current(t)), sym.Name())]), false)
  }

  /** SymbolTable.error: appends the diagnostic and changes nothing else. */
  function Error(t: Table, d: Diag): (t': Table)
    ensures t'.errors == t.errors + [d]
    ensures t'.scopes == t.scopes && t'.stack == t.stack
    ensures Valid(t) ==> Valid(t')
  {
    Table(t.scopes, t.stack, t.errors + [d])
  }

  /** SymbolTable.resolve: from the current scope. */
  function ResolveCurrent(t: Table, x: string): Option<Symbol>
    requires Valid(t)
  {
    Resolve(t.scopes, Current(t), x)
  }

  /** SymbolTable.resolveFrom: a null scope resolves nothing. */
  function ResolveFrom(t: Table, scope: Option<nat>, x: string): (r: Option<Symbol>)
    requires Valid(t)
    requires scope.Some? ==> scope.value < |t.scopes|
    ensures scope.None? ==> r.None?
    ensures scope.Some? ==> r == Resolve(t.scopes, scope.value, x)
  {
    if scope.None? then None else Resolve(t.scopes, scope.value, x)
  }

  /** SymbolTable.resolveFuncGlobal: only the global scope's own map, and only
      when the binding there is a function. */
  function ResolveFuncGlobal(t: Table, x: string): (r: Option<FuncSymbol>)
    requires Valid(t)
    ensures r.Some? <==> x in t.scopes[Globals(t)].symbols && t.scopes[Globals(t)].symbols[x].Func?
    ensures r.Some? ==> t.scopes[Globals(t)].symbols[x] == Func(r.value)
  {
    var g := t.scopes[Globals(t)];
    if x in g.symbols && g.symbols[x].Func? then Some(g.symbols[x].f) else None
  }

  /** The global-function lookup ignores nesting: it agrees with resolution from
      the global scope whenever that finds a function. */
  lemma ResolveFuncGlobalIsGlobalResolve(t: Table, x: string)
    requires Valid(t)
    ensures ResolveFuncGlobal(t, x).Some? <==> (Resolve(t.scopes, 0, x).Some? && Resolve(t.scopes, 0, x).value.Func?)
    ensures ResolveFuncGlobal(t, x).Some? ==> Resolve(t.scopes, 0, x) == Some(Func(ResolveFuncGlobal(t, x).value))
  {
  }
}
